/** First in, first out: which units a sale or a transfer removes, in closed form and over runs. */
module FifoOrder {
  import opened Sums
  import opened Ordering
  import opened Stock
  import opened FifoLoop

  /** A set of lots that contains every lot older than one of its members. */
  ghost predicate DownClosed(d: Card -> bool) {
    forall a, b :: Older(a, b) && d(b) ==> d(a)
  }

  function Only(d: Card -> bool): Weight { (c: Card, n: nat) => if d(c) then n else 0 }

  /** Units of row k in lots of d. */
  function Within(k: nat, d: Card -> bool): Weight {
    (c: Card, n: nat) => if c.inventory == k && d(c) then n else 0
  }

  function Stocked(lots: seq<Lot>, k: nat, d: Card -> bool): int { SumBy(lots, Weigh(Within(k, d))) }

  lemma {:induction false} NoneAfter(seen: seq<Seen>, q: nat, d: Card -> bool)
    requires forall m :: 0 <= m < |seen| ==> !d(seen[m].card)
    ensures TakenWeight(seen, q, Only(d)) == 0
    decreases |seen|
  {
    if q > 0 && seen != [] {
      NoneAfter(seen[1..], q - Min(seen[0].onHand, q), d);
    }
  }

  /** From a list ordered by age, the loop takes from a down-closed part all it can, up to q. */
  lemma {:induction false} CutTaken(seen: seq<Seen>, q: nat, d: Card -> bool)
    requires Ascending(seen, OlderSeen) && DownClosed(d)
    ensures TakenWeight(seen, q, Only(d)) == Min(q, SumBy(seen, SeenWeigh(Only(d))))
    decreases |seen|
  {
    hide SumBy, Older;
    var f := SeenWeigh(Only(d));
    SumNonNegative(seen, f);
    if q > 0 && seen != [] {
      var h, rest := seen[0], seen[1..];
      if d(h.card) {
        SumHead(seen, f);
        SumNonNegative(rest, f);
        CutTaken(rest, q - Min(h.onHand, q), d);
      } else {
        forall m | 0 <= m < |seen|
          ensures !d(seen[m].card)
        {
          if m > 0 {
            assert OlderSeen(seen[0], seen[m]);
          }
        }
        NoneAfter(seen, q, d);
        SumNothing(seen, f);
      }
    } else {
      assert seen == [] ==> SumBy(seen, f) == 0 by { SumNothing(seen[..0], f); }
    }
  }

  /**
   After q units left row k, every down-closed part of the row holds max(0, before - q): the oldest
   units are the ones that left.
   */
  lemma ClosedForm(lots: seq<Lot>, k: nat, q: nat, use: Use, d: Card -> bool)
    requires Numbered(lots) && DownClosed(d) && Drain(lots, Fifo(lots, k), q, use).Ok?
    requires use.ForMove? ==> use.dest != k
    ensures Stocked(Drain(lots, Fifo(lots, k), q, use).value, k, d) == Max(0, Stocked(lots, k, d) - q)
  {
    hide SumBy, Fifo, Drain, TakenWeight, Weigh, Older;
    var seen := Fifo(lots, k);
    var w, h := Within(k, d), (c: Card, n: nat) => 0;
    FifoList(lots, k);
    assert Linear(w) && Linear(h) && ChildrenWeigh(use, w, h);
    DrainWeight(lots, seen, q, use, w, h);
    DrainTakesAll(lots, seen, q, use, h, false);
    FifoWeight(lots, k, Only(d), w);
    CutTaken(seen, q, d);
    SameTaken(seen, q, w, Only(d));
    SumNonNegative(seen, SeenWeigh(Only(d)));
  }

  // ---------------------------------------------------------------- per lot, and additivity

  function Upto(c: Card): Card -> bool { (x: Card) => Older(x, c) || x == c }

  function Below(c: Card): Card -> bool { (x: Card) => Older(x, c) }

  /** A lot's quantity is the difference between the two cuts on either side of it. */
  lemma BetweenCuts(lots: seq<Lot>, k: nat, i: nat)
    requires Numbered(lots) && i < |lots| && lots[i].card.inventory == k
    ensures lots[i].onHand == Stocked(lots, k, Upto(lots[i].card)) - Stocked(lots, k, Below(lots[i].card))
  {
    hide SumBy;
    var c := lots[i].card;
    var own := (l: Lot) => if l.card == c then l.onHand as int else 0;
    SumSplit(lots, own, Weigh(Within(k, Below(c))), Weigh(Within(k, Upto(c))));
    assert lots[..|lots|] == lots;
    SumPoint(lots, |lots|, own, i);
  }

  lemma NotTaken(lots: seq<Lot>, k: nat, q: nat, i: nat)
    requires Numbered(lots) && i < |lots| && lots[i].card.inventory != k
    ensures Taken(Fifo(lots, k), q, i) == 0
  {
    FifoList(lots, k);
    TakenOutside(Fifo(lots, k), q, i);
  }

  /** A sale or transfer of q units out of row k, which puts nothing back into row k. */
  ghost predicate TakesFrom(lots: seq<Lot>, k: nat, q: nat, use: Use, lots': seq<Lot>) {
    && Numbered(lots)
    && (use.ForMove? ==> use.dest != k)
    && Drain(lots, Fifo(lots, k), q, use) == Ok(lots')
  }

  lemma TakesFromRows(lots: seq<Lot>, k: nat, q: nat, use: Use, lots': seq<Lot>)
    requires TakesFrom(lots, k, q, use, lots')
    ensures Drained(lots, Fifo(lots, k), q, use, lots') && Numbered(lots')
  {
    FifoList(lots, k);
    DrainRows(lots, Fifo(lots, k), q, use);
  }

  lemma TwoCuts(lots: seq<Lot>, lots1: seq<Lot>, lots2: seq<Lot>, once: seq<Lot>, k: nat, a: nat, b: nat,
                u1: Use, u2: Use, u: Use, d: Card -> bool)
    requires TakesFrom(lots, k, a, u1, lots1) && TakesFrom(lots1, k, b, u2, lots2) && TakesFrom(lots, k, a + b, u, once)
    requires DownClosed(d)
    ensures Stocked(lots2, k, d) == Stocked(once, k, d)
  {
    ClosedForm(lots, k, a, u1, d);
    ClosedForm(lots1, k, b, u2, d);
    ClosedForm(lots, k, a + b, u, d);
  }

  /**
   Removing a units and then b more, reading the live lots again in between, leaves every lot with
   what removing a + b at once leaves it, so the two takes of a lot add up to the single one.
   */
  lemma Additive(lots: seq<Lot>, lots1: seq<Lot>, lots2: seq<Lot>, once: seq<Lot>, k: nat, a: nat, b: nat,
                 u1: Use, u2: Use, u: Use, i: nat)
    requires TakesFrom(lots, k, a, u1, lots1) && TakesFrom(lots1, k, b, u2, lots2) && TakesFrom(lots, k, a + b, u, once)
    requires i < |lots|
    ensures i < |lots2| && i < |once| && lots2[i].onHand == once[i].onHand
    ensures Taken(Fifo(lots, k), a, i) + Taken(Fifo(lots1, k), b, i) == Taken(Fifo(lots, k), a + b, i)
  {
    hide Drain, Fifo, Taken, Stocked;
    TakesFromRows(lots, k, a, u1, lots1);
    TakesFromRows(lots1, k, b, u2, lots2);
    TakesFromRows(lots, k, a + b, u, once);
    if lots[i].card.inventory == k {
      var c := lots[i].card;
      TwoCuts(lots, lots1, lots2, once, k, a, b, u1, u2, u, Upto(c));
      TwoCuts(lots, lots1, lots2, once, k, a, b, u1, u2, u, Below(c));
      assert lots2[i].card == c && once[i].card == c;
      BetweenCuts(lots2, k, i);
      BetweenCuts(once, k, i);
    } else {
      NotTaken(lots, k, a, i);
      NotTaken(lots1, k, b, i);
      NotTaken(lots, k, a + b, i);
    }
  }

  /** For sales the two ways leave the very same lots. */
  lemma SalesAdd(lots: seq<Lot>, lots1: seq<Lot>, lots2: seq<Lot>, once: seq<Lot>, k: nat, a: nat, b: nat)
    requires TakesFrom(lots, k, a, ForSale, lots1) && TakesFrom(lots1, k, b, ForSale, lots2)
    requires TakesFrom(lots, k, a + b, ForSale, once)
    ensures lots2 == once
  {
    hide Drain, Fifo, Taken;
    TakesFromRows(lots, k, a, ForSale, lots1);
    TakesFromRows(lots1, k, b, ForSale, lots2);
    TakesFromRows(lots, k, a + b, ForSale, once);
    forall i | 0 <= i < |lots|
      ensures lots2[i] == once[i]
    {
      Additive(lots, lots1, lots2, once, k, a, b, ForSale, ForSale, ForSale, i);
    }
  }

  // ---------------------------------------------------------------- order over runs

  /** While anything is left of a lot, nothing is taken from a lot behind it in the list. */
  lemma {:induction false} PrefixTaken(seen: seq<Seen>, q: nat, m: nat, n: nat)
    requires m < n < |seen|
    requires forall x, y :: 0 <= x < y < |seen| ==> seen[x].card.id != seen[y].card.id
    ensures Taken(seen, q, seen[m].card.id) <= seen[m].onHand
    ensures Taken(seen, q, seen[n].card.id) > 0 ==> Taken(seen, q, seen[m].card.id) == seen[m].onHand
    decreases |seen|
  {
    if q > 0 {
      var t := Min(seen[0].onHand, q);
      if m == 0 {
        TakenOutside(seen[1..], q - t, seen[0].card.id);
        NothingLeft(seen[1..], seen[n].card.id);
      } else {
        assert seen[1..][m - 1] == seen[m] && seen[1..][n - 1] == seen[n];
        PrefixTaken(seen[1..], q - t, m - 1, n - 1);
      }
    }
  }

  lemma NothingLeft(seen: seq<Seen>, i: nat)
    ensures Taken(seen, 0, i) == 0
  {
  }

  /** A list is drained up to some place, where at most one lot is left partial; the rest is untouched. */
  lemma {:induction false} PrefixShape(seen: seq<Seen>, q: nat) returns (m: nat)
    requires forall x, y :: 0 <= x < y < |seen| ==> seen[x].card.id != seen[y].card.id
    ensures m <= |seen|
    ensures forall i :: 0 <= i < m ==> Taken(seen, q, seen[i].card.id) == seen[i].onHand
    ensures forall i :: m < i < |seen| ==> Taken(seen, q, seen[i].card.id) == 0
    decreases |seen|
  {
    if q == 0 || seen == [] {
      m := 0;
    } else {
      var t := Min(seen[0].onHand, q);
      TakenOutside(seen[1..], q - t, seen[0].card.id);
      if t < seen[0].onHand {
        m := 0;
        forall i | 0 < i < |seen|
          ensures Taken(seen, q, seen[i].card.id) == 0
        {
          NothingLeft(seen[1..], seen[i].card.id);
        }
      } else {
        var n := PrefixShape(seen[1..], q - t);
        m := n + 1;
        forall i | 0 < i < |seen|
          ensures Taken(seen, q, seen[i].card.id) == Taken(seen[1..], q - t, seen[1..][i - 1].card.id)
        {
        }
      }
    }
  }

  /** Lot i is in the same row as lot j and older. */
  predicate Ahead(lots: seq<Lot>, i: nat, j: nat)
    requires i < |lots| && j < |lots|
  {
    lots[i].card.inventory == lots[j].card.inventory && Older(lots[i].card, lots[j].card)
  }

  /** lots' came from lots by steps that never skip a lot that still has stock. */
  ghost predicate Follows(lots: seq<Lot>, lots': seq<Lot>) {
    && |lots| <= |lots'|
    && (forall i :: 0 <= i < |lots| ==> lots'[i].card == lots[i].card && lots'[i].onHand <= lots[i].onHand)
    && (forall i, j :: 0 <= i < |lots| && 0 <= j < |lots| && Ahead(lots, i, j) && lots'[i].onHand > 0 ==>
          lots'[j].onHand == lots[j].onHand)
  }

  lemma FollowsTransitive(a: seq<Lot>, b: seq<Lot>, c: seq<Lot>)
    requires Follows(a, b) && Follows(b, c)
    ensures Follows(a, c)
  {
    forall i, j | 0 <= i < |a| && 0 <= j < |a| && Ahead(a, i, j) && c[i].onHand > 0
      ensures c[j].onHand == a[j].onHand
    {
      assert Ahead(b, i, j);
      assert b[j].onHand == a[j].onHand;
    }
  }

  /** A lot that the list has behind one with stock left keeps its stock. */
  lemma BehindUntouched(lots: seq<Lot>, k: nat, q: nat, i: nat, j: nat)
    requires Numbered(lots) && i < |lots| && j < |lots| && Ahead(lots, i, j) && lots[j].card.inventory == k
    requires Taken(Fifo(lots, k), q, i) < lots[i].onHand && 0 < lots[j].onHand
    ensures Taken(Fifo(lots, k), q, j) == 0
  {
    hide Fifo, Taken, UpToDate, AllIn;
    var m := FifoPosition(lots, k, i);
    var n := FifoPosition(lots, k, j);
    FifoList(lots, k);
    assert n < m ==> OlderSeen(Fifo(lots, k)[n], Fifo(lots, k)[m]);
    PrefixTaken(Fifo(lots, k), q, m, n);
  }

  /** The FIFO loop on the live lots of one row. */
  lemma DrainFollows(lots: seq<Lot>, k: nat, q: nat, use: Use)
    requires Numbered(lots) && Drain(lots, Fifo(lots, k), q, use).Ok?
    ensures Follows(lots, Drain(lots, Fifo(lots, k), q, use).value)
  {
    hide Fifo, Drain, Taken, Older;
    var lots' := Drain(lots, Fifo(lots, k), q, use).value;
    FifoList(lots, k);
    DrainRows(lots, Fifo(lots, k), q, use);
    forall i, j | 0 <= i < |lots| && 0 <= j < |lots| && Ahead(lots, i, j) && lots'[i].onHand > 0
      ensures lots'[j].onHand == lots[j].onHand
    {
      if lots[j].card.inventory != k {
        NotTaken(lots, k, q, j);
      } else if lots[j].onHand > 0 {
        BehindUntouched(lots, k, q, i, j);
      }
    }
  }
}
