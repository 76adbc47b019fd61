/**
 Dead-stock decay: a run reads its candidate lots, then handles them one by one with a
 compare-and-set on last_decay_applied_at. Times are milliseconds.
 */
module Decay {
  import opened Options
  import opened Sums
  import opened Ordering

  const HOUR := 60 * 60 * 1000
  const DAY := 24 * HOUR
  const WINDOW := 72 * HOUR
  const MAX_CANDIDATES := 100

  /** discount is the product's catalog discount, which decay reads and never changes; sellable: neither
      discontinued nor in a hidden or inactive warehouse. */
  datatype Lot = Lot(onHand: int, receivedAt: int, discount: int, sellable: bool, lastDecay: Option<int>)

  datatype Candidate = Candidate(lot: nat, receivedAt: int, discount: int, lastDecay: Option<int>)

  datatype Audit = Audit(lot: nat, oldDiscount: int, newDiscount: int, at: int)

  /** step and cap: the decay percentage and the maximal discount of a run. */
  datatype Config = Config(step: int, cap: int, thresholdDays: int)

  datatype Tables = Tables(lots: seq<Lot>, audits: seq<Audit>)

  datatype Counters = Counters(processed: nat, skipped: nat)

  /** How the transaction of one candidate ends: cleanly, by a throw before its end, or at its commit. */
  datatype Fate = Clean | BodyThrows | CommitFails

  // ---------------------------------------------------------------- candidates

  predicate Due(l: Lot, now: int, thresholdDays: int) {
    && l.onHand > 0 && l.sellable
    && l.receivedAt <= now - thresholdDays * DAY
    && (l.lastDecay.None? || l.lastDecay.value <= now - WINDOW)
  }

  predicate Older(a: Candidate, b: Candidate) {
    a.receivedAt < b.receivedAt || (a.receivedAt == b.receivedAt && a.lot < b.lot)
  }

  function DueLots(lots: seq<Lot>, now: int, thresholdDays: int): seq<Candidate>
  {
    if lots == [] then []
    else
      var n := |lots| - 1;
      DueLots(lots[..n], now, thresholdDays) +
      (if Due(lots[n], now, thresholdDays) then [CandidateOf(lots, n)] else [])
  }

  /** findDeadStockCandidates. */
  function Find(lots: seq<Lot>, now: int, thresholdDays: int): seq<Candidate> {
    var all := Sort(DueLots(lots, now, thresholdDays), Older);
    if |all| > MAX_CANDIDATES then all[..MAX_CANDIDATES] else all
  }

  /** What a query returns for lot l. */
  function CandidateOf(lots: seq<Lot>, l: nat): Candidate
    requires l < |lots|
  {
    Candidate(l, lots[l].receivedAt, lots[l].discount, lots[l].lastDecay)
  }

  /** What the dead-stock query asks of a lot, in milliseconds. */
  predicate Ripe(l: Lot, now: int, thresholdDays: int) {
    && l.onHand > 0 && l.sellable
    && l.receivedAt <= now - thresholdDays * 24 * 60 * 60 * 1000
    && (l.lastDecay == None || l.lastDecay.value <= now - 72 * 60 * 60 * 1000)
  }

  predicate Finds(lots: seq<Lot>, now: int, thresholdDays: int, c: Candidate) {
    c.lot < |lots| && Due(lots[c.lot], now, thresholdDays) && c == CandidateOf(lots, c.lot)
  }

  lemma {:induction false} DueLotsOk(lots: seq<Lot>, now: int, thresholdDays: int)
    ensures var due := DueLots(lots, now, thresholdDays);
            && (forall i :: 0 <= i < |due| ==> Finds(lots, now, thresholdDays, due[i]))
            && (forall i, j :: 0 <= i < j < |due| ==> due[i].lot < due[j].lot)
    decreases |lots|
  {
    hide Due;
    if lots != [] {
      var n := |lots| - 1;
      var rest, due := DueLots(lots[..n], now, thresholdDays), DueLots(lots, now, thresholdDays);
      DueLotsOk(lots[..n], now, thresholdDays);
      hide DueLots;
      assert due == rest + [CandidateOf(lots, n)] || due == rest by { OneMoreDue(lots, now, thresholdDays); }
      forall i | 0 <= i < |rest|
        ensures rest[i].lot < n && Finds(lots, now, thresholdDays, rest[i])
      {
        assert Finds(lots[..n], now, thresholdDays, rest[i]);
        assert lots[..n][rest[i].lot] == lots[rest[i].lot];
      }
      assert due != rest ==> Finds(lots, now, thresholdDays, CandidateOf(lots, n)) by {
        OneMoreDue(lots, now, thresholdDays);
      }
    }
  }

  lemma OneMoreDue(lots: seq<Lot>, now: int, thresholdDays: int)
    requires lots != []
    ensures var n := |lots| - 1;
            var rest := DueLots(lots[..n], now, thresholdDays);
            DueLots(lots, now, thresholdDays) ==
              if Due(lots[n], now, thresholdDays) then rest + [CandidateOf(lots, n)] else rest
  {
    hide Due;
  }

  lemma {:induction false} DueLotsAll(lots: seq<Lot>, now: int, thresholdDays: int, l: nat)
    requires l < |lots| && Due(lots[l], now, thresholdDays)
    ensures CandidateOf(lots, l) in DueLots(lots, now, thresholdDays)
    decreases |lots|
  {
    hide Due;
    var n := |lots| - 1;
    if l < n {
      DueLotsAll(lots[..n], now, thresholdDays, l);
      assert CandidateOf(lots[..n], l) == CandidateOf(lots, l);
    }
  }

  lemma DueSorted(lots: seq<Lot>, now: int, thresholdDays: int)
    ensures var due, sorted := DueLots(lots, now, thresholdDays), Sort(DueLots(lots, now, thresholdDays), Older);
            Ascending(sorted, Older) && forall c :: c in sorted <==> c in due
  {
    hide Sort, DueLots, Due;
    var due := DueLots(lots, now, thresholdDays);
    DueLotsOk(lots, now, thresholdDays);
    forall i, j | 0 <= i < |due| && 0 <= j < |due| && i != j
      ensures Older(due[i], due[j]) || Older(due[j], due[i])
    {
      assert if i < j then due[i].lot < due[j].lot else due[j].lot < due[i].lot;
    }
    SortMembers(due, Older);
    SortAscending(due, Older);
  }

  /** Candidates are due lots, the oldest first; a due lot that is no candidate is younger than all 100 of them. */
  lemma FindInOrder(lots: seq<Lot>, now: int, thresholdDays: int)
    ensures var found := Find(lots, now, thresholdDays);
            && |found| <= MAX_CANDIDATES && Ascending(found, Older)
            && (forall i :: 0 <= i < |found| ==> Finds(lots, now, thresholdDays, found[i]))
            && (forall l :: 0 <= l < |lots| && Due(lots[l], now, thresholdDays) ==>
                  || CandidateOf(lots, l) in found
                  || (|found| == MAX_CANDIDATES
                      && forall i :: 0 <= i < |found| ==> Older(found[i], CandidateOf(lots, l))))
  {
    DueLotsOk(lots, now, thresholdDays);
    DueSorted(lots, now, thresholdDays);
    var sorted, found := Sort(DueLots(lots, now, thresholdDays), Older), Find(lots, now, thresholdDays);
    assert found == if |sorted| > MAX_CANDIDATES then sorted[..MAX_CANDIDATES] else sorted;
    hide Sort, DueLots, Find, Due, Older;
    assert forall i :: 0 <= i < |found| ==> found[i] == sorted[i] && sorted[i] in sorted;
    forall l | 0 <= l < |lots| && Due(lots[l], now, thresholdDays)
      ensures CandidateOf(lots, l) in found
              || (|found| == MAX_CANDIDATES
                  && forall i :: 0 <= i < |found| ==> Older(found[i], CandidateOf(lots, l)))
    {
      DueLotsAll(lots, now, thresholdDays, l);
      var j :| 0 <= j < |sorted| && sorted[j] == CandidateOf(lots, l);
      if j < |found| {
        assert found[j] == CandidateOf(lots, l);
      }
    }
  }

  /**
   Candidates are lots with stock that can be sold, received at least the threshold ago and not decayed
   for 72 hours, the oldest first; such a lot that is no candidate is younger than all 100 of them.
   */
  lemma FindOk(lots: seq<Lot>, now: int, thresholdDays: int)
    ensures var found := Find(lots, now, thresholdDays);
            && |found| <= 100
            && (forall i, j :: 0 <= i < j < |found| ==>
                  || found[i].receivedAt < found[j].receivedAt
                  || (found[i].receivedAt == found[j].receivedAt && found[i].lot < found[j].lot))
            && (forall i :: 0 <= i < |found| ==>
                  && found[i].lot < |lots| && Ripe(lots[found[i].lot], now, thresholdDays)
                  && found[i] == Candidate(found[i].lot, lots[found[i].lot].receivedAt,
                                           lots[found[i].lot].discount, lots[found[i].lot].lastDecay))
            && (forall l :: 0 <= l < |lots| && Ripe(lots[l], now, thresholdDays) ==>
                  || (exists i :: 0 <= i < |found| && found[i].lot == l)
                  || (|found| == 100
                      && forall i :: 0 <= i < |found| ==>
                           || found[i].receivedAt < lots[l].receivedAt
                           || (found[i].receivedAt == lots[l].receivedAt && found[i].lot < l)))
  {
    hide Find;
    FindInOrder(lots, now, thresholdDays);
    var found := Find(lots, now, thresholdDays);
    assert forall l :: 0 <= l < |lots| ==> Ripe(lots[l], now, thresholdDays) == Due(lots[l], now, thresholdDays);
    hide Ripe, Due;
    forall i, j | 0 <= i < j < |found|
      ensures found[i].receivedAt < found[j].receivedAt
              || (found[i].receivedAt == found[j].receivedAt && found[i].lot < found[j].lot)
    {
      assert Older(found[i], found[j]);
    }
    forall l | 0 <= l < |lots| && Ripe(lots[l], now, thresholdDays)
      ensures (exists i :: 0 <= i < |found| && found[i].lot == l)
              || (|found| == 100 && forall i :: 0 <= i < |found| ==> Older(found[i], CandidateOf(lots, l)))
    {
      if CandidateOf(lots, l) in found {
        var i :| 0 <= i < |found| && found[i] == CandidateOf(lots, l);
        assert found[i].lot == l;
      }
    }
  }

  // ---------------------------------------------------------------- one candidate

  function NewDiscount(c: Candidate, config: Config): int { Min(c.discount + config.step, config.cap) }

  predicate Wins(t: Tables, c: Candidate, config: Config) {
    c.discount < config.cap && c.lot < |t.lots| && t.lots[c.lot].lastDecay == c.lastDecay
  }

  /** The tables after the transaction of candidate c at time now. */
  function Handle(t: Tables, c: Candidate, config: Config, now: int, fate: Fate): Tables {
    if fate.Clean? && Wins(t, c, config) then
      Tables(t.lots[c.lot := t.lots[c.lot].(lastDecay := Some(now))],
             t.audits + [Audit(c.lot, c.discount, NewDiscount(c, config), now)])
    else t
  }

  /** The counters: a throw adds to skipped on top of what the body had counted before it. */
  function Count(n: Counters, t: Tables, c: Candidate, config: Config, fate: Fate): Counters {
    var body :=
      if fate.BodyThrows? then n
      else if Wins(t, c, config) then n.(processed := n.processed + 1)
      else n.(skipped := n.skipped + 1);
    if fate.Clean? then body else body.(skipped := body.skipped + 1)
  }

  /**
   A clean transaction applies decay exactly when the candidate is below the cap and its lot's time is
   unchanged: the time becomes now, and an audit books the capped step. Otherwise no table changes.
   */
  lemma HandleDoes(t: Tables, c: Candidate, config: Config, now: int, fate: Fate)
    ensures Handle(t, c, config, now, fate) ==
            if fate == Clean && c.discount < config.cap && c.lot < |t.lots| && t.lots[c.lot].lastDecay == c.lastDecay
            then
              var l := t.lots[c.lot];
              var raised := c.discount + config.step;
              Tables(t.lots[c.lot := Lot(l.onHand, l.receivedAt, l.discount, l.sellable, Some(now))],
                     t.audits + [Audit(c.lot, c.discount, if raised <= config.cap then raised else config.cap, now)])
            else t
  {
  }

  // ---------------------------------------------------------------- one run by itself

  datatype Turn = Turn(now: int, fate: Fate)

  datatype Progress = Progress(tables: Tables, counters: Counters)

  function Process(t: Tables, cs: seq<Candidate>, turns: seq<Turn>, config: Config): Progress
    requires |cs| <= |turns|
    decreases |cs|
  {
    if cs == [] then Progress(t, Counters(0, 0))
    else
      var n := |cs| - 1;
      var before := Process(t, cs[..n], turns, config);
      Progress(Handle(before.tables, cs[n], config, turns[n].now, turns[n].fate),
               Count(before.counters, before.tables, cs[n], config, turns[n].fate))
  }

  class DecayService {
    var lots: seq<Lot>
    var audits: seq<Audit>

    ghost function State(): Tables
      reads this
    {
      Tables(lots, audits)
    }

    constructor (lots: seq<Lot>)
      ensures State() == Tables(lots, [])
    {
      this.lots, audits := lots, [];
    }

    /** The transaction of one candidate, with what it does to the counters of the run. */
    method ProcessLot(lot: Candidate, config: Config, turn: Turn, before: Counters) returns (counters: Counters)
      modifies this
      ensures State() == Handle(old(State()), lot, config, turn.now, turn.fate)
      ensures counters == Count(before, old(State()), lot, config, turn.fate)
    {
      var processed, skipped := before.processed, before.skipped;
      if turn.fate != BodyThrows {
        var newDiscount := Min(lot.discount + config.step, config.cap);
        if lot.discount >= config.cap {
          skipped := skipped + 1;
        } else if !(lot.lot < |lots| && lots[lot.lot].lastDecay == lot.lastDecay) {
          skipped := skipped + 1;
        } else {
          if turn.fate == Clean {
            lots := lots[lot.lot := lots[lot.lot].(lastDecay := Some(turn.now))];
            audits := audits + [Audit(lot.lot, lot.discount, newDiscount, turn.now)];
          }
          processed := processed + 1;
        }
      }
      if turn.fate != Clean {
        skipped := skipped + 1;
      }
      return Counters(processed, skipped);
    }

    /** applyDeadStockDecay; turns gives the time and the fate of each candidate's transaction. */
    method ApplyDeadStockDecay(now: int, config: Config, turns: seq<Turn>)
      returns (processed: nat, skipped: nat, total: nat)
      requires |turns| >= MAX_CANDIDATES
      modifies this
      ensures total == |Find(old(lots), now, config.thresholdDays)|
      ensures Progress(State(), Counters(processed, skipped)) ==
              Process(old(State()), Find(old(lots), now, config.thresholdDays), turns, config)
    {
      hide Handle, Count, Sort, DueLots;
      var candidates := Find(lots, now, config.thresholdDays);
      var counters, i := Counters(0, 0), 0;
      while i < |candidates|
        invariant 0 <= i <= |candidates|
        invariant Progress(State(), counters) == Process(old(State()), candidates[..i], turns, config)
      {
        assert candidates[..i + 1][..i] == candidates[..i];
        counters := ProcessLot(candidates[i], config, turns[i], counters);
        i := i + 1;
      }
      assert candidates[..i] == candidates;
      return counters.processed, counters.skipped, |candidates|;
    }
  }

  /** Transactions that failed at their commit, after their body had counted. */
  function FailedCommits(turns: seq<Turn>, n: nat): nat
    requires n <= |turns|
  {
    if n == 0 then 0 else FailedCommits(turns, n - 1) + if turns[n - 1].fate.CommitFails? then 1 else 0
  }

  /** Turns whose body ran and found its candidate below the cap and its lot's time unchanged. */
  function WonTurns(t: Tables, cs: seq<Candidate>, turns: seq<Turn>, config: Config): nat
    requires |cs| <= |turns|
    decreases |cs|
  {
    if cs == [] then 0
    else
      var n := |cs| - 1;
      var before := Process(t, cs[..n], turns, config).tables;
      WonTurns(t, cs[..n], turns, config) +
      if turns[n].fate != BodyThrows && cs[n].discount < config.cap
         && cs[n].lot < |before.lots| && before.lots[cs[n].lot].lastDecay == cs[n].lastDecay
      then 1 else 0
  }

  /** processed counts exactly the won turns. */
  lemma {:induction false} ProcessedAreWon(t: Tables, cs: seq<Candidate>, turns: seq<Turn>, config: Config)
    requires |cs| <= |turns|
    ensures Process(t, cs, turns, config).counters.processed == WonTurns(t, cs, turns, config)
    decreases |cs|
  {
    hide Handle;
    if cs != [] {
      ProcessedAreWon(t, cs[..|cs| - 1], turns, config);
    }
  }

  /** processed + skipped is total plus the failed commits: equal exactly when no commit fails. */
  lemma {:induction false} CountersAddUp(t: Tables, cs: seq<Candidate>, turns: seq<Turn>, config: Config)
    requires |cs| <= |turns|
    ensures var n := Process(t, cs, turns, config).counters;
            n.processed + n.skipped == |cs| + FailedCommits(turns, |cs|)
    decreases |cs|
  {
    if cs != [] {
      CountersAddUp(t, cs[..|cs| - 1], turns, config);
    }
  }

  /** One lot is found, its body counts it, and the commit then fails: it counts as processed and as skipped. */
  lemma FailedCommitCountsTwice()
    ensures var lots := [Lot(1, 0, 0, true, None)];
            var config := Config(10, 50, 1);
            && Find(lots, DAY, config.thresholdDays) == [Candidate(0, 0, 0, None)]
            && Process(Tables(lots, []), [Candidate(0, 0, 0, None)], [Turn(DAY, CommitFails)], config).counters ==
                 Counters(1, 1)
  {
    var lots, config := [Lot(1, 0, 0, true, None)], Config(10, 50, 1);
    var c := Candidate(0, 0, 0, None);
    OneFound(lots, DAY, 1);
    CountedTwice(Tables(lots, []), c, Turn(DAY, CommitFails), config);
  }

  lemma OneFound(lots: seq<Lot>, now: int, thresholdDays: int)
    requires |lots| == 1 && Due(lots[0], now, thresholdDays)
    ensures Find(lots, now, thresholdDays) == [CandidateOf(lots, 0)]
  {
    var c := CandidateOf(lots, 0);
    assert DueLots(lots[..0], now, thresholdDays) == [];
    hide Due, DueLots, Sort, Older;
    OneMoreDue(lots, now, thresholdDays);
    assert [] + [c] == [c] && DueLots(lots, now, thresholdDays) == [c];
    SortMembers([c], Older);
    assert Sort([c], Older)[0] in Sort([c], Older);
  }

  lemma CountedTwice(t: Tables, c: Candidate, turn: Turn, config: Config)
    requires Wins(t, c, config) && turn.fate == CommitFails
    ensures Process(t, [c], [turn], config).counters == Counters(1, 1)
  {
    assert [c][..0] == [];
    assert Process(t, [], [turn], config) == Progress(t, Counters(0, 0));
  }
}
