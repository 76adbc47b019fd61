/** The FIFO loop: which lots it takes from, how much, and what it leaves. */
module FifoLoop {
  import opened Options
  import opened Sums
  import opened Ordering
  import opened Stock

  // ---------------------------------------------------------------- the observed list

  /** Lots are numbered by their place in the table. */
  ghost predicate Numbered(lots: seq<Lot>) {
    forall i :: 0 <= i < |lots| ==> lots[i].card.id == i
  }

  /** The observed lots are different rows of the table, with the columns that never change. */
  ghost predicate Observed(lots: seq<Lot>, seen: seq<Seen>) {
    && (forall m :: 0 <= m < |seen| ==> seen[m].card.id < |lots| && lots[seen[m].card.id].card == seen[m].card)
    && (forall m, n :: 0 <= m < n < |seen| ==> seen[m].card.id != seen[n].card.id)
  }

  /** The observed quantities are still the ones in the table. */
  ghost predicate UpToDate(lots: seq<Lot>, seen: seq<Seen>)
    requires Observed(lots, seen)
  {
    forall m :: 0 <= m < |seen| ==> lots[seen[m].card.id].onHand == seen[m].onHand
  }

  ghost predicate AllIn(seen: seq<Seen>, k: nat) {
    forall m :: 0 <= m < |seen| ==> seen[m].card.inventory == k && seen[m].onHand > 0
  }

  lemma {:induction false} LiveInIncreasing(lots: seq<Lot>, k: nat)
    requires Numbered(lots)
    ensures forall m :: 0 <= m < |LiveIn(lots, k)| ==> LiveIn(lots, k)[m].card.id < |lots|
    ensures forall m, n :: 0 <= m < n < |LiveIn(lots, k)| ==> LiveIn(lots, k)[m].card.id < LiveIn(lots, k)[n].card.id
    decreases |lots|
  {
    if lots != [] {
      LiveInIncreasing(lots[..|lots| - 1], k);
    }
  }

  predicate IsLive(l: Lot, k: nat) { l.card.inventory == k && l.onHand > 0 }

  /** Lot i is live in row k and x is what a query returns for it. */
  predicate SeenAs(lots: seq<Lot>, k: nat, i: nat, x: Seen) {
    i < |lots| && IsLive(lots[i], k) && x == Seen(lots[i].card, lots[i].onHand)
  }

  lemma {:induction false} LiveInMembers(lots: seq<Lot>, k: nat)
    ensures forall x :: x in LiveIn(lots, k) <==> exists i: nat :: SeenAs(lots, k, i, x)
    decreases |lots|
  {
    if lots != [] {
      var n := |lots| - 1;
      LiveInMembers(lots[..n], k);
      forall x | x in LiveIn(lots, k)
        ensures exists i: nat :: SeenAs(lots, k, i, x)
      {
        if x in LiveIn(lots[..n], k) {
          var i: nat :| SeenAs(lots[..n], k, i, x);
          assert SeenAs(lots, k, i, x);
        } else {
          assert SeenAs(lots, k, n, x);
        }
      }
      forall i: nat, x | SeenAs(lots, k, i, x)
        ensures x in LiveIn(lots, k)
      {
        if i < n {
          assert SeenAs(lots[..n], k, i, x);
        }
      }
    }
  }

  /** The list the queries return: exactly the live lots of the row, once each, oldest first. */
  lemma FifoList(lots: seq<Lot>, k: nat)
    requires Numbered(lots)
    ensures Ascending(Fifo(lots, k), OlderSeen)
    ensures Observed(lots, Fifo(lots, k)) && UpToDate(lots, Fifo(lots, k)) && AllIn(Fifo(lots, k), k)
    ensures forall i :: 0 <= i < |lots| && lots[i].card.inventory == k && lots[i].onHand > 0 ==>
              Seen(lots[i].card, lots[i].onHand) in Fifo(lots, k)
  {
    hide LiveIn, Sort;
    var live := LiveIn(lots, k);
    LiveInIncreasing(lots, k);
    LiveInMembers(lots, k);
    SortMembers(live, OlderSeen);
    SortAscending(live, OlderSeen);
    var seen := Fifo(lots, k);
    forall m | 0 <= m < |seen|
      ensures seen[m].card.id < |lots|
      ensures lots[seen[m].card.id] == Lot(seen[m].card, seen[m].onHand, lots[seen[m].card.id].sold)
      ensures seen[m].card.inventory == k && seen[m].onHand > 0
    {
      assert seen[m] in live;
      var i: nat :| SeenAs(lots, k, i, seen[m]);
    }
    forall i | 0 <= i < |lots| && lots[i].card.inventory == k && lots[i].onHand > 0
      ensures Seen(lots[i].card, lots[i].onHand) in seen
    {
      assert SeenAs(lots, k, i, Seen(lots[i].card, lots[i].onHand));
    }
    forall m, n | 0 <= m < n < |seen|
      ensures seen[m].card.id != seen[n].card.id
    {
      assert OlderSeen(seen[m], seen[n]);
    }
  }

  /** The list is by time of receipt, and lots received at the same time by their place in the table. */
  lemma FifoIsByReceipt(lots: seq<Lot>, k: nat)
    requires Numbered(lots)
    ensures var seen := Fifo(lots, k);
            forall m, n :: 0 <= m < n < |seen| ==>
              || seen[m].card.receivedAt < seen[n].card.receivedAt
              || (seen[m].card.receivedAt == seen[n].card.receivedAt && seen[m].card.id < seen[n].card.id)
  {
    FifoList(lots, k);
    hide Fifo;
    var seen := Fifo(lots, k);
    forall m, n | 0 <= m < n < |seen|
      ensures seen[m].card.receivedAt < seen[n].card.receivedAt
              || (seen[m].card.receivedAt == seen[n].card.receivedAt && seen[m].card.id < seen[n].card.id)
    {
      assert OlderSeen(seen[m], seen[n]);
    }
  }

  /** Where a lot with stock stands in the list. */
  lemma FifoPosition(lots: seq<Lot>, k: nat, i: nat) returns (m: nat)
    requires Numbered(lots) && i < |lots| && lots[i].card.inventory == k && lots[i].onHand > 0
    ensures m < |Fifo(lots, k)| && Fifo(lots, k)[m] == Seen(lots[i].card, lots[i].onHand)
  {
    FifoList(lots, k);
    hide Fifo;
    assert Seen(lots[i].card, lots[i].onHand) in Fifo(lots, k);
    m :| 0 <= m < |Fifo(lots, k)| && Fifo(lots, k)[m] == Seen(lots[i].card, lots[i].onHand);
  }

  // ---------------------------------------------------------------- what is taken

  /** Units the loop takes from lot i. */
  function Taken(seen: seq<Seen>, q: nat, i: nat): nat
    decreases |seen|
  {
    if q == 0 || seen == [] then 0
    else
      var t := Min(seen[0].onHand, q);
      (if seen[0].card.id == i then t else 0) + Taken(seen[1..], q - t, i)
  }

  /** A weight for units of a lot, linear in the number of units. */
  type Weight = (Card, nat) -> int

  predicate Adds(w: Weight, c: Card, a: nat, b: nat) { w(c, a + b) == w(c, a) + w(c, b) }

  ghost predicate Linear(w: Weight) {
    forall c, a, b :: Adds(w, c, a, b)
  }

  function Weigh(w: Weight): Lot -> int { (l: Lot) => w(l.card, l.onHand) }

  function WeighSold(w: Weight): Lot -> int { (l: Lot) => w(l.card, l.sold) }

  function SeenWeigh(w: Weight): Seen -> int { (x: Seen) => w(x.card, x.onHand) }

  /** Units of lots in row k. */
  function InRow(k: nat): Weight { (c: Card, n: nat) => if c.inventory == k then n else 0 }

  /** Stock of row k according to its lots. */
  function LotsOnHand(lots: seq<Lot>, k: nat): int { SumBy(lots, Weigh(InRow(k))) }

  /** Weight of the units taken. */
  function TakenWeight(seen: seq<Seen>, q: nat, w: Weight): int
    decreases |seen|
  {
    if q == 0 || seen == [] then 0
    else
      var t := Min(seen[0].onHand, q);
      w(seen[0].card, t) + TakenWeight(seen[1..], q - t, w)
  }

  /** Turns of the loop keep the remaining observations valid. */
  lemma TakeKeepsObserved(lots: seq<Lot>, seen: seq<Seen>, t: nat, use: Use)
    requires seen != [] && Observed(lots, seen) && t <= lots[seen[0].card.id].onHand
    ensures Observed(TakeFrom(lots, seen[0].card, t, use), seen[1..])
    ensures UpToDate(lots, seen) ==> UpToDate(TakeFrom(lots, seen[0].card, t, use), seen[1..])
  {
    var lots' := TakeFrom(lots, seen[0].card, t, use);
    forall m | 0 <= m < |seen[1..]|
      ensures seen[1..][m].card.id < |lots| && lots'[seen[1..][m].card.id] == lots[seen[1..][m].card.id]
    {
      assert seen[1..][m] == seen[m + 1] && seen[0].card.id != seen[m + 1].card.id;
    }
  }

  predicate ChildWeighs(w: Weight, h: Weight, child: Card, c: Card, n: nat) { w(child, n) == h(c, n) }

  /** h says what the units weigh once they are in a child lot. */
  ghost predicate ChildrenWeigh(use: Use, w: Weight, h: Weight) {
    use.ForMove? ==>
      forall c, id, t, n :: ChildWeighs(w, h, Child(c, id, use.dest, use.tag, t), c, n)
  }

  /** Replacing the quantities of one lot. */
  lemma ReplaceWeight(lots: seq<Lot>, i: nat, onHand: nat, sold: nat, w: Weight)
    requires i < |lots|
    ensures SumBy(lots[i := Lot(lots[i].card, onHand, sold)], Weigh(w)) ==
            SumBy(lots, Weigh(w)) - w(lots[i].card, lots[i].onHand) + w(lots[i].card, onHand)
    ensures SumBy(lots[i := Lot(lots[i].card, onHand, sold)], WeighSold(w)) ==
            SumBy(lots, WeighSold(w)) - w(lots[i].card, lots[i].sold) + w(lots[i].card, sold)
  {
    var l' := Lot(lots[i].card, onHand, sold);
    SumUpdate(lots, i, l', Weigh(w));
    SumUpdate(lots, i, l', WeighSold(w));
  }

  lemma TakeWeight(lots: seq<Lot>, c: Card, t: nat, use: Use, w: Weight, h: Weight)
    requires c.id < |lots| && lots[c.id].card == c && t <= lots[c.id].onHand
    requires Linear(w) && ChildrenWeigh(use, w, h)
    ensures SumBy(TakeFrom(lots, c, t, use), Weigh(w)) ==
            SumBy(lots, Weigh(w)) - w(c, t) + (if use.ForMove? then h(c, t) else 0)
    ensures SumBy(TakeFrom(lots, c, t, use), WeighSold(w)) ==
            SumBy(lots, WeighSold(w)) + (if use.ForSale? then w(c, t) else 0)
  {
    hide SumBy;
    var l := lots[c.id];
    assert Adds(w, c, l.onHand - t, t) && Adds(w, c, l.sold, t);
    match use
    case ForSale =>
      assert TakeFrom(lots, c, t, use) == lots[c.id := Lot(l.card, l.onHand - t, l.sold + t)];
      ReplaceWeight(lots, c.id, l.onHand - t, l.sold + t, w);
    case ForMove(dest, tag) =>
      var child := Lot(Child(c, |lots|, dest, tag, t), t, 0);
      assert TakeFrom(lots, c, t, use) == lots[c.id := Lot(c, l.onHand - t, l.sold)] + [child];
      ReplaceWeight(lots, c.id, l.onHand - t, l.sold, w);
      SumAppend(lots[c.id := Lot(c, l.onHand - t, l.sold)], child, Weigh(w));
      SumAppend(lots[c.id := Lot(c, l.onHand - t, l.sold)], child, WeighSold(w));
      assert Adds(w, child.card, 0, 0) && ChildWeighs(w, h, child.card, c, t);
  }

  lemma NoWeight(w: Weight, c: Card)
    requires Linear(w)
    ensures w(c, 0) == 0
  {
    assert Adds(w, c, 0, 0);
  }

  /** The loop moves weight out of the observed lots, and for a transfer into the children. */
  lemma {:induction false} DrainWeight(lots: seq<Lot>, seen: seq<Seen>, q: nat, use: Use, w: Weight, h: Weight)
    requires Observed(lots, seen) && Drain(lots, seen, q, use).Ok?
    requires Linear(w) && Linear(h) && ChildrenWeigh(use, w, h)
    ensures SumBy(Drain(lots, seen, q, use).value, Weigh(w)) ==
            SumBy(lots, Weigh(w)) - TakenWeight(seen, q, w) + (if use.ForMove? then TakenWeight(seen, q, h) else 0)
    ensures SumBy(Drain(lots, seen, q, use).value, WeighSold(w)) ==
            SumBy(lots, WeighSold(w)) + (if use.ForSale? then TakenWeight(seen, q, w) else 0)
    decreases |seen|
  {
    hide SumBy, Linear, ChildrenWeigh, TakeFrom;
    if q > 0 {
      var t := Min(seen[0].onHand, q);
      if t == 0 {
        assert Observed(lots, seen[1..]);
        NoWeight(w, seen[0].card);
        NoWeight(h, seen[0].card);
        DrainWeight(lots, seen[1..], q, use, w, h);
      } else {
        TakeKeepsObserved(lots, seen, t, use);
        TakeWeight(lots, seen[0].card, t, use, w, h);
        DrainWeight(TakeFrom(lots, seen[0].card, t, use), seen[1..], q - t, use, w, h);
      }
    }
  }

  /** One turn of a loop that succeeds. */
  lemma DrainStep(lots: seq<Lot>, seen: seq<Seen>, q: nat, use: Use)
    requires Drain(lots, seen, q, use).Ok? && 0 < q
    ensures seen != []
    ensures seen[0].onHand == 0 ==> Drain(lots, seen, q, use) == Drain(lots, seen[1..], q, use)
    ensures seen[0].onHand > 0 ==>
              var h, t := seen[0], Min(seen[0].onHand, q);
              && h.card.id < |lots| && t <= lots[h.card.id].onHand
              && Drain(lots, seen, q, use) == Drain(TakeFrom(lots, h.card, t, use), seen[1..], q - t, use)
  {
  }

  /** When every unit of the observed lots counts (or none does), so does every unit taken. */
  lemma {:induction false} DrainTakesAll(lots: seq<Lot>, seen: seq<Seen>, q: nat, use: Use, w: Weight, counts: bool)
    requires Drain(lots, seen, q, use).Ok?
    requires forall m, n: nat :: 0 <= m < |seen| ==> w(seen[m].card, n) == if counts then n else 0
    ensures TakenWeight(seen, q, w) == if counts then q else 0
    decreases |seen|
  {
    hide Drain, TakeFrom;
    if q > 0 {
      DrainStep(lots, seen, q, use);
      var t := Min(seen[0].onHand, q);
      var rest := if t == 0 then lots else TakeFrom(lots, seen[0].card, t, use);
      DrainTakesAll(rest, seen[1..], q - t, use, w, counts);
    }
  }

  /** What the loop does to every lot that existed, and what the lots it creates look like. */
  ghost predicate Drained(lots: seq<Lot>, seen: seq<Seen>, q: nat, use: Use, lots': seq<Lot>) {
    && |lots| <= |lots'|
    && (forall i :: 0 <= i < |lots| ==>
          && lots'[i].card == lots[i].card
          && lots'[i].onHand == lots[i].onHand - Taken(seen, q, i)
          && lots'[i].sold == lots[i].sold + (if use.ForSale? then Taken(seen, q, i) else 0))
    && (use.ForSale? ==> |lots'| == |lots|)
    && (forall i :: |lots| <= i < |lots'| ==>
          && use.ForMove? && lots'[i].sold == 0
          && lots'[i].card.id == i && lots'[i].card.inventory == use.dest
          && lots'[i].card.parent.Some? && lots'[i].card.parent.value < |lots|)
  }

  /** One turn and then the rest of the loop. */
  lemma DrainedCompose(lots: seq<Lot>, seen: seq<Seen>, q: nat, use: Use, lots': seq<Lot>)
    requires Observed(lots, seen) && seen != [] && 0 < Min(seen[0].onHand, q) <= lots[seen[0].card.id].onHand
    requires var t := Min(seen[0].onHand, q);
             && Drained(TakeFrom(lots, seen[0].card, t, use), seen[1..], q - t, use, lots')
             && forall i :: |TakeFrom(lots, seen[0].card, t, use)| <= i < |lots'| ==>
                  lots'[i].card.parent.Some? && lots'[i].card.parent.value < |lots|
    ensures Drained(lots, seen, q, use, lots')
  {
    if use.ForMove? {
      TakenOutside(seen[1..], q - Min(seen[0].onHand, q), |lots|);
    }
  }

  lemma NothingDrained(lots: seq<Lot>, seen: seq<Seen>, use: Use)
    ensures Drained(lots, seen, 0, use, lots)
  {
  }

  lemma EmptyLotDrained(lots: seq<Lot>, seen: seq<Seen>, q: nat, use: Use, lots': seq<Lot>)
    requires seen != [] && seen[0].onHand == 0 && Drained(lots, seen[1..], q, use, lots')
    ensures Drained(lots, seen, q, use, lots')
  {
  }

  lemma {:induction false} DrainRows(lots: seq<Lot>, seen: seq<Seen>, q: nat, use: Use)
    requires Observed(lots, seen) && Drain(lots, seen, q, use).Ok?
    ensures Drained(lots, seen, q, use, Drain(lots, seen, q, use).value)
    decreases |seen|
  {
    hide Drained;
    if q == 0 || seen[0].onHand == 0 {
      NothingDrained(lots, seen, use);
      if q > 0 {
        assert Observed(lots, seen[1..]);
        DrainRows(lots, seen[1..], q, use);
        EmptyLotDrained(lots, seen, q, use, Drain(lots, seen[1..], q, use).value);
      }
    } else {
      var t := Min(seen[0].onHand, q);
      var lots1 := TakeFrom(lots, seen[0].card, t, use);
      var lots' := Drain(lots1, seen[1..], q - t, use).value;
      TakeKeepsObserved(lots, seen, t, use);
      DrainRows(lots1, seen[1..], q - t, use);
      forall i | |lots1| <= i < |lots'|
        ensures lots'[i].card.parent.Some? && lots'[i].card.parent.value < |lots|
      {
        ParentObserved(lots1, seen[1..], q - t, use, i);
      }
      DrainedCompose(lots, seen, q, use, lots');
    }
  }

  lemma {:induction false} TakenOutside(seen: seq<Seen>, q: nat, i: nat)
    requires forall m :: 0 <= m < |seen| ==> seen[m].card.id != i
    ensures Taken(seen, q, i) == 0
    decreases |seen|
  {
    if q > 0 && seen != [] {
      TakenOutside(seen[1..], q - Min(seen[0].onHand, q), i);
    }
  }

  /** The parent of a created lot is one of the observed lots. */
  lemma {:induction false} ParentObserved(lots: seq<Lot>, seen: seq<Seen>, q: nat, use: Use, i: nat)
    requires Observed(lots, seen) && Drain(lots, seen, q, use).Ok?
    requires |lots| <= i < |Drain(lots, seen, q, use).value|
    ensures exists m :: 0 <= m < |seen| && Drain(lots, seen, q, use).value[i].card.parent == Some(seen[m].card.id)
    decreases |seen|
  {
    hide Drain, Taken, UpToDate;
    if q == 0 {
      NothingTaken(lots, seen, use);
    } else {
      DrainStep(lots, seen, q, use);
      var t := Min(seen[0].onHand, q);
      var lots1 := if t == 0 then lots else TakeFrom(lots, seen[0].card, t, use);
      if t == 0 {
        assert Observed(lots, seen[1..]);
      } else {
        TakeKeepsObserved(lots, seen, t, use);
      }
      if |lots1| <= i {
        ParentObserved(lots1, seen[1..], q - t, use, i);
        var parent := Drain(lots1, seen[1..], q - t, use).value[i].card.parent;
        var m :| 0 <= m < |seen[1..]| && parent == Some(seen[1..][m].card.id);
        assert seen[m + 1] == seen[1..][m];
      } else {
        DrainRows(lots1, seen[1..], q - t, use);
        assert Drain(lots, seen, q, use).value[i].card.parent == Some(seen[0].card.id);
      }
    }
  }

  lemma NothingTaken(lots: seq<Lot>, seen: seq<Seen>, use: Use)
    ensures Drain(lots, seen, 0, use) == Ok(lots)
  {
  }

  // ---------------------------------------------------------------- the loop succeeds

  function Quantity(): Seen -> int { (x: Seen) => x.onHand }

  lemma QuantityHead(seen: seq<Seen>)
    requires seen != []
    ensures SumBy(seen, Quantity()) == seen[0].onHand + SumBy(seen[1..], Quantity())
    ensures 0 <= SumBy(seen[1..], Quantity())
  {
    SumHead(seen, Quantity());
    SumNonNegative(seen[1..], Quantity());
  }

  /** With enough observed stock that is still there, only a taken child code can stop the loop. */
  lemma {:induction false} DrainSucceeds(lots: seq<Lot>, seen: seq<Seen>, q: nat, use: Use)
    requires Observed(lots, seen) && UpToDate(lots, seen) && q <= SumBy(seen, Quantity())
    ensures Drain(lots, seen, q, use).Ok? || (use.ForMove? && Drain(lots, seen, q, use) == Err(DuplicateCode))
    decreases |seen|
  {
    if q > 0 && seen != [] {
      var t := Min(seen[0].onHand, q);
      QuantityHead(seen);
      if t == 0 {
        assert Observed(lots, seen[1..]);
        DrainSucceeds(lots, seen[1..], q, use);
      } else {
        TakeKeepsObserved(lots, seen, t, use);
        DrainSucceeds(TakeFrom(lots, seen[0].card, t, use), seen[1..], q - t, use);
      }
    }
  }

  lemma {:induction false} LiveInWeight(lots: seq<Lot>, k: nat, w: Weight, wk: Weight)
    requires Linear(wk) && forall c, n :: wk(c, n) == if c.inventory == k then w(c, n) else 0
    ensures SumBy(LiveIn(lots, k), SeenWeigh(w)) == SumBy(lots, Weigh(wk))
    decreases |lots|
  {
    if lots != [] {
      var n := |lots| - 1;
      var l := lots[n];
      LiveInWeight(lots[..n], k, w, wk);
      assert lots[..n] + [l] == lots;
      if l.card.inventory == k && l.onHand > 0 {
        SumAppend(LiveIn(lots[..n], k), Seen(l.card, l.onHand), SeenWeigh(w));
      } else {
        assert LiveIn(lots, k) == LiveIn(lots[..n], k);
        assert Adds(wk, l.card, 0, 0);
      }
    }
  }

  /** Any weight over the row's lots is the same weight over the list the query returns. */
  lemma FifoWeight(lots: seq<Lot>, k: nat, w: Weight, wk: Weight)
    requires Linear(wk) && forall c, n :: wk(c, n) == if c.inventory == k then w(c, n) else 0
    ensures SumBy(Fifo(lots, k), SeenWeigh(w)) == SumBy(lots, Weigh(wk))
  {
    LiveInWeight(lots, k, w, wk);
    SortSum(LiveIn(lots, k), OlderSeen, SeenWeigh(w));
  }

  lemma FifoUnits(lots: seq<Lot>, k: nat)
    ensures SumBy(Fifo(lots, k), Quantity()) == LotsOnHand(lots, k)
  {
    var one: Weight := (c: Card, n: nat) => n;
    FifoWeight(lots, k, one, InRow(k));
    SumAgree(Fifo(lots, k), Quantity(), SeenWeigh(one));
  }

  /** A total whose measure is zero except on the lot numbered j. */
  lemma {:induction false} SumPoint(lots: seq<Lot>, n: nat, f: Lot -> int, j: nat)
    requires Numbered(lots) && n <= |lots|
    requires forall i :: 0 <= i < |lots| && i != j ==> f(lots[i]) == 0
    ensures SumBy(lots[..n], f) == if j < n then f(lots[j]) else 0
    decreases n
  {
    if n > 0 {
      assert lots[..n][..n - 1] == lots[..n - 1];
      SumPoint(lots, n - 1, f, j);
    }
  }

  /** Weights that agree on the observed lots agree on what is taken. */
  lemma {:induction false} SameTaken(seen: seq<Seen>, q: nat, w: Weight, v: Weight)
    requires forall m, n: nat :: 0 <= m < |seen| ==> w(seen[m].card, n) == v(seen[m].card, n)
    ensures TakenWeight(seen, q, w) == TakenWeight(seen, q, v)
    decreases |seen|
  {
    if q > 0 && seen != [] {
      assert w(seen[0].card, Min(seen[0].onHand, q)) == v(seen[0].card, Min(seen[0].onHand, q));
      SameTaken(seen[1..], q - Min(seen[0].onHand, q), w, v);
    }
  }
}
