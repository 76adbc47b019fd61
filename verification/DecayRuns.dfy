/**
 Any number of decay runs at the same time, and other transactions between any two of their steps: a
 run's query and its compare-and-sets see different tables.
 */
module DecayRuns {
  import opened Options
  import opened Sums
  import opened Decay

  /** What a run still has to handle, how many candidates it found, and what it has counted. */
  datatype Run = Run(config: Config, left: seq<Candidate>, total: nat, counters: Counters)

  datatype System = System(tables: Tables, clock: int, runs: map<nat, Run>)

  /**
   What other transactions can do to the lots: change anything but last_decay_applied_at, also the
   discount of a lot's product, and add lots to which no decay was applied.
   */
  ghost predicate Trades(before: seq<Lot>, after: seq<Lot>) {
    && |before| <= |after|
    && (forall l :: 0 <= l < |before| ==> after[l].lastDecay == before[l].lastDecay)
    && (forall l :: |before| <= l < |after| ==> after[l].lastDecay == None)
  }

  /** Every event happens some time after the one before it; Trade stands for any other transaction. */
  datatype Event =
    | Start(run: nat, config: Config, elapsed: nat)
    | Handles(run: nat, fate: Fate, elapsed: nat)
    | Trade(after: seq<Lot>, elapsed: nat)

  ghost function Next(y: System, e: Event): System {
    var now := y.clock + e.elapsed;
    match e
    case Trade(after, _) =>
      System(if Trades(y.tables.lots, after) then y.tables.(lots := after) else y.tables, now, y.runs)
    case Start(r, config, _) =>
      var found := Find(y.tables.lots, now, config.thresholdDays);
      System(y.tables, now, y.runs[r := Run(config, found, |found|, Counters(0, 0))])
    case Handles(r, fate, _) =>
      if r !in y.runs || y.runs[r].left == [] then y.(clock := now)
      else
        var run := y.runs[r];
        System(Handle(y.tables, run.left[0], run.config, now, fate), now,
               y.runs[r := Run(run.config, run.left[1..], run.total,
                               Count(run.counters, y.tables, run.left[0], run.config, fate))])
  }

  ghost function Trace(y: System, events: seq<Event>): System
  {
    if events == [] then y else Next(Trace(y, events[..|events| - 1]), events[|events| - 1])
  }

  /** Any change of the lots that keeps their times and adds only lots without one can come between two steps. */
  lemma TradeReaches(y: System, after: seq<Lot>, elapsed: nat)
    requires |y.tables.lots| <= |after|
    requires forall l :: 0 <= l < |after| ==>
               after[l].lastDecay == if l < |y.tables.lots| then y.tables.lots[l].lastDecay else None
    ensures Next(y, Trade(after, elapsed)) == System(Tables(after, y.tables.audits), y.clock + elapsed, y.runs)
  {
  }

  /** What a run still has to handle was due when it was read. */
  ghost predicate CandidateOk(c: Candidate, clock: int) {
    c.lastDecay.Some? ==> c.lastDecay.value <= clock - WINDOW
  }

  ghost predicate RunsOk(y: System) {
    forall r :: r in y.runs ==> forall i :: 0 <= i < |y.runs[r].left| ==> CandidateOk(y.runs[r].left[i], y.clock)
  }

  /** The latest application to a lot is its last_decay_applied_at, and applications are a window apart. */
  ghost predicate AuditsOk(t: Tables) {
    && (forall i :: 0 <= i < |t.audits| ==>
          && t.audits[i].lot < |t.lots| && t.lots[t.audits[i].lot].lastDecay.Some?
          && t.audits[i].at <= t.lots[t.audits[i].lot].lastDecay.value)
    && (forall i, j :: 0 <= i < j < |t.audits| && t.audits[i].lot == t.audits[j].lot ==>
        t.audits[i].at + WINDOW <= t.audits[j].at)
  }

  ghost predicate SystemOk(y: System) { RunsOk(y) && AuditsOk(y.tables) }

  /** An application moves the lot's time on by a window, after all earlier applications. */
  lemma HandleKeepsAudits(t: Tables, c: Candidate, config: Config, now: int, fate: Fate)
    requires AuditsOk(t) && CandidateOk(c, now)
    ensures AuditsOk(Handle(t, c, config, now, fate))
  {
  }

  lemma HandlesKeepsRuns(y: System, e: Event)
    requires RunsOk(y) && e.Handles?
    ensures RunsOk(Next(y, e))
  {
    hide Handle;
    var y' := Next(y, e);
    forall q, i | q in y'.runs && 0 <= i < |y'.runs[q].left|
      ensures CandidateOk(y'.runs[q].left[i], y'.clock)
    {
      var k := if q == e.run then |y.runs[q].left| - |y'.runs[q].left| + i else i;
      assert y'.runs[q].left[i] == y.runs[q].left[k];
      assert CandidateOk(y.runs[q].left[k], y.clock);
    }
  }

  lemma TradeKeepsAudits(y: System, e: Event)
    requires AuditsOk(y.tables) && e.Trade?
    ensures AuditsOk(Next(y, e).tables)
  {
  }

  lemma NextOk(y: System, e: Event)
    requires SystemOk(y)
    ensures SystemOk(Next(y, e))
  {
    hide Handle, AuditsOk, Find;
    match e
    case Start(r, config, elapsed) => FindOk(y.tables.lots, y.clock + elapsed, config.thresholdDays);
    case Trade(_, _) => TradeKeepsAudits(y, e);
    case Handles(r, fate, elapsed) =>
      HandlesKeepsRuns(y, e);
      if r in y.runs && y.runs[r].left != [] {
        assert CandidateOk(y.runs[r].left[0], y.clock);
        HandleKeepsAudits(y.tables, y.runs[r].left[0], y.runs[r].config, y.clock + elapsed, fate);
      }
  }

  /** However runs overlap, two applications of decay to the same lot are at least 72 hours apart. */
  lemma {:induction false} WindowsHold(y: System, events: seq<Event>)
    requires SystemOk(y)
    ensures SystemOk(Trace(y, events))
    decreases |events|
  {
    hide SystemOk, Next;
    if events != [] {
      WindowsHold(y, events[..|events| - 1]);
      NextOk(Trace(y, events[..|events| - 1]), events[|events| - 1]);
    }
  }

  /** Any event that moves a lot's last_decay_applied_at moves it on by at least 72 hours. */
  lemma MovesByAWindow(lots: seq<Lot>, clock: int, events: seq<Event>, e: Event, l: nat)
    requires l < |Trace(System(Tables(lots, []), clock, map[]), events).tables.lots|
    ensures var y := Trace(System(Tables(lots, []), clock, map[]), events);
            var y' := Next(y, e);
            && l < |y'.tables.lots|
            && (y'.tables.lots[l].lastDecay != y.tables.lots[l].lastDecay ==>
                  && y'.tables.lots[l].lastDecay == Some(y.clock + e.elapsed)
                  && (y.tables.lots[l].lastDecay.Some? ==>
                      y.tables.lots[l].lastDecay.value + 72 * 60 * 60 * 1000 <= y.clock + e.elapsed))
  {
    var y := Trace(System(Tables(lots, []), clock, map[]), events);
    WindowsHold(System(Tables(lots, []), clock, map[]), events);
    if e.Handles? && e.run in y.runs && y.runs[e.run].left != [] {
      assert CandidateOk(y.runs[e.run].left[0], y.clock);
    }
  }

  // ---------------------------------------------------------------- the loop as events

  /** The times of a run's transactions, which never go back. */
  ghost predicate Onward(now: int, turns: seq<Turn>) {
    && (forall i :: 0 <= i < |turns| ==> now <= turns[i].now)
    && (forall i, j :: 0 <= i < j < |turns| ==> turns[i].now <= turns[j].now)
  }

  /** The events of a run that starts at time now and handles one candidate per turn. */
  function Events(r: nat, config: Config, elapsed: nat, now: int, turns: seq<Turn>): seq<Event>
    requires Onward(now, turns)
  {
    if turns == [] then [Start(r, config, elapsed)]
    else
      var n := |turns| - 1;
      var since := if n == 0 then now else turns[n - 1].now;
      Events(r, config, elapsed, now, turns[..n]) + [Handles(r, turns[n].fate, turns[n].now - since)]
  }

  /** The loop of one run, with nothing in between, is a start and then one event per candidate. */
  lemma {:induction false} LoopIsEvents(y: System, r: nat, config: Config, elapsed: nat, turns: seq<Turn>)
    requires Onward(y.clock + elapsed, turns)
    requires |turns| <= |Find(y.tables.lots, y.clock + elapsed, config.thresholdDays)|
    ensures var now := y.clock + elapsed;
            var cs := Find(y.tables.lots, now, config.thresholdDays);
            var done := Process(y.tables, cs[..|turns|], turns, config);
            Trace(y, Events(r, config, elapsed, now, turns)) ==
              System(done.tables,
                     if turns == [] then now else turns[|turns| - 1].now,
                     y.runs[r := Run(config, cs[|turns|..], |cs|, done.counters)])
    decreases |turns|
  {
    hide Find, Handle, Count, Process, Next, Trace;
    var now, n := y.clock + elapsed, |turns| - 1;
    var cs := Find(y.tables.lots, now, config.thresholdDays);
    if turns == [] {
      assert [] + [Start(r, config, elapsed)] == [Start(r, config, elapsed)];
      OneMoreEvent(y, [], Start(r, config, elapsed));
      NothingHandled(y, r, config, elapsed, turns);
    } else {
      var earlier := Events(r, config, elapsed, now, turns[..n]);
      var since := if n == 0 then now else turns[n - 1].now;
      var e := Handles(r, turns[n].fate, turns[n].now - since);
      var before := Trace(y, earlier);
      LoopIsEvents(y, r, config, elapsed, turns[..n]);
      var done := Process(y.tables, cs[..n], turns[..n], config);
      var run := Run(config, cs[n..], |cs|, done.counters);
      assert before == System(done.tables, since, y.runs[r := run]);
      OneMoreEvent(y, earlier, e);
      OneMoreTurn(y.tables, cs, turns, config, n);
      HandlesNext(before, r, run, e);
      var next := Run(config, cs[n + 1..], |cs|, Process(y.tables, cs[..n + 1], turns, config).counters);
      assert cs[n..][1..] == cs[n + 1..] && before.runs[r := next] == y.runs[r := next];
    }
  }

  lemma OneMoreEvent(y: System, events: seq<Event>, e: Event)
    ensures Trace(y, events + [e]) == Next(Trace(y, events), e)
  {
    assert (events + [e])[..|events|] == events;
  }

  lemma NothingHandled(y: System, r: nat, config: Config, elapsed: nat, turns: seq<Turn>)
    requires turns == []
    ensures var now := y.clock + elapsed;
            var cs := Find(y.tables.lots, now, config.thresholdDays);
            Next(Trace(y, []), Start(r, config, elapsed)) ==
              System(Process(y.tables, cs[..0], turns, config).tables, now,
                     y.runs[r := Run(config, cs[0..], |cs|, Process(y.tables, cs[..0], turns, config).counters)])
  {
    hide Find;
    var cs := Find(y.tables.lots, y.clock + elapsed, config.thresholdDays);
    assert cs[0..] == cs;
  }

  lemma HandlesNext(y: System, r: nat, run: Run, e: Event)
    requires r in y.runs && y.runs[r] == run && run.left != [] && e.Handles? && e.run == r
    ensures Next(y, e) == System(Handle(y.tables, run.left[0], run.config, y.clock + e.elapsed, e.fate),
                                 y.clock + e.elapsed,
                                 y.runs[r := Run(run.config, run.left[1..], run.total,
                                                 Count(run.counters, y.tables, run.left[0], run.config, e.fate))])
  {
    hide Handle, Count;
  }

  lemma OneMoreTurn(t: Tables, cs: seq<Candidate>, turns: seq<Turn>, config: Config, n: nat)
    requires n < |cs| && n < |turns|
    ensures var before := Process(t, cs[..n], turns[..n], config);
            Process(t, cs[..n + 1], turns, config) ==
            Progress(Handle(before.tables, cs[n], config, turns[n].now, turns[n].fate),
                     Count(before.counters, before.tables, cs[n], config, turns[n].fate))
  {
    hide Handle, Count;
    assert cs[..n + 1][..n] == cs[..n];
    ProcessPrefix(t, cs[..n], turns, config, n);
  }

  /** Turns beyond the candidates do not matter. */
  lemma {:induction false} ProcessPrefix(t: Tables, cs: seq<Candidate>, turns: seq<Turn>, config: Config, n: nat)
    requires |cs| <= n <= |turns|
    ensures Process(t, cs, turns[..n], config) == Process(t, cs, turns, config)
    decreases |cs|
  {
    if cs != [] {
      ProcessPrefix(t, cs[..|cs| - 1], turns, config, n);
    }
  }

  lemma WindowsFromStart(lots: seq<Lot>, clock: int, events: seq<Event>, i: nat, j: nat)
    requires var audits := Trace(System(Tables(lots, []), clock, map[]), events).tables.audits;
             i < j < |audits| && audits[i].lot == audits[j].lot
    ensures var audits := Trace(System(Tables(lots, []), clock, map[]), events).tables.audits;
            audits[i].at + 72 * 60 * 60 * 1000 <= audits[j].at
  {
    WindowsHold(System(Tables(lots, []), clock, map[]), events);
  }

  // ---------------------------------------------------------------- counters of overlapping runs

  /** Commits of run r that failed since its latest start. */
  ghost function FailedIn(y: System, events: seq<Event>, r: nat): nat
  {
    if events == [] then 0
    else
      var before, e := Trace(y, events[..|events| - 1]), events[|events| - 1];
      if e.Trade? || e.run != r then FailedIn(y, events[..|events| - 1], r)
      else if e.Start? then 0
      else
        FailedIn(y, events[..|events| - 1], r) +
        if e.fate.CommitFails? && r in before.runs && before.runs[r].left != [] then 1 else 0
  }

  /** However runs overlap: what a run counted is what it has handled, plus its commits that failed. */
  lemma {:induction false} CountersUnderOverlap(t: Tables, clock: int, events: seq<Event>, r: nat)
    requires r in Trace(System(t, clock, map[]), events).runs
    ensures var y := System(t, clock, map[]);
            var run := Trace(y, events).runs[r];
            run.counters.processed + run.counters.skipped + |run.left| == run.total + FailedIn(y, events, r)
    decreases |events|
  {
    hide Find, Handle, Wins;
    if events != [] {
      var init, e := events[..|events| - 1], events[|events| - 1];
      if e.Trade? || !(e.Start? && e.run == r) {
        CountersUnderOverlap(t, clock, init, r);
      }
    }
  }

  // ---------------------------------------------------------------- audits over runs

  /** last_decay_applied_at of lot l according to the audits, the latest last. */
  function LastAt(audits: seq<Audit>, l: nat, initial: Option<int>): Option<int>
  {
    if audits == [] then initial
    else
      var a := audits[|audits| - 1];
      if a.lot == l then Some(a.at) else LastAt(audits[..|audits| - 1], l, initial)
  }

  function ForLot(l: nat): Audit -> int { (a: Audit) => if a.lot == l then 1 else 0 }

  /** Did this event move last_decay_applied_at of lot l? */
  ghost predicate MovesNow(y: System, e: Event, l: nat) {
    l < |y.tables.lots| && l < |Next(y, e).tables.lots|
    && Next(y, e).tables.lots[l].lastDecay != y.tables.lots[l].lastDecay
  }

  ghost function Moves(y: System, events: seq<Event>, l: nat): nat
  {
    if events == [] then 0
    else
      Moves(y, events[..|events| - 1], l) +
      if MovesNow(Trace(y, events[..|events| - 1]), events[|events| - 1], l) then 1 else 0
  }

  /** The k-th event starts a run of this configuration, whose query sees lot l with this discount. */
  ghost predicate ReadAt(start: System, events: seq<Event>, k: nat, config: Config, l: nat, discount: int) {
    && k < |events| && events[k].Start? && events[k].config == config
    && var lots := Trace(start, events[..k]).tables.lots;
       l < |lots| && lots[l].discount == discount
  }

  /** A candidate carries the discount that its lot's product had when its run queried. */
  ghost predicate CandidateKnown(start: System, events: seq<Event>, config: Config, c: Candidate) {
    exists k: nat :: ReadAt(start, events, k, config, c.lot, c.discount)
  }

  ghost predicate RunsKnown(start: System, y: System, events: seq<Event>) {
    forall r, i :: r in y.runs && 0 <= i < |y.runs[r].left| ==>
      y.runs[r].left[i].lot < |y.tables.lots| && CandidateKnown(start, events, y.runs[r].config, y.runs[r].left[i])
  }

  /**
   An audit of some run: from the discount its query found, which is below the run's cap, by the run's
   step but not above its cap.
   */
  ghost predicate AuditKnown(start: System, events: seq<Event>, a: Audit) {
    exists k: nat, config ::
      && ReadAt(start, events, k, config, a.lot, a.oldDiscount)
      && a.oldDiscount < config.cap && a.newDiscount == Min(a.oldDiscount + config.step, config.cap)
  }

  lemma ReadMore(start: System, events: seq<Event>, e: Event)
    ensures forall k: nat, config, l: nat, discount :: ReadAt(start, events, k, config, l, discount) ==>
              ReadAt(start, events + [e], k, config, l, discount)
  {
    hide Trace;
    forall k: nat, config, l: nat, discount | ReadAt(start, events, k, config, l, discount)
      ensures ReadAt(start, events + [e], k, config, l, discount)
    {
      assert (events + [e])[..k] == events[..k];
    }
  }

  lemma KnownMore(start: System, events: seq<Event>, e: Event)
    ensures forall config, c :: CandidateKnown(start, events, config, c) ==>
              CandidateKnown(start, events + [e], config, c)
    ensures forall a :: AuditKnown(start, events, a) ==> AuditKnown(start, events + [e], a)
  {
    hide ReadAt;
    ReadMore(start, events, e);
  }

  /** The transaction of a candidate that was due: one audit exactly when it moves the lot's time. */
  lemma AuditPerWin(t: Tables, c: Candidate, config: Config, now: int, fate: Fate, l: nat)
    requires c.lot < |t.lots| && CandidateOk(c, now)
    ensures var t' := Handle(t, c, config, now, fate);
            && |t'.lots| == |t.lots|
            && (t'.audits == t.audits
                || t'.audits == t.audits + [Audit(c.lot, c.discount, NewDiscount(c, config), now)])
            && (t'.audits != t.audits ==> c.discount < config.cap)
            && (l < |t.lots| ==>
                  && (t'.lots[l].lastDecay != t.lots[l].lastDecay <==> l == c.lot && t'.audits != t.audits)
                  && t'.lots[l].lastDecay ==
                       if l == c.lot && t'.audits != t.audits then Some(now) else t.lots[l].lastDecay)
  {
    if fate.Clean? && Wins(t, c, config) {
      assert |Handle(t, c, config, now, fate).audits| == |t.audits| + 1;
    }
  }

  lemma NextKnown(start: System, events: seq<Event>, e: Event)
    requires var y := Trace(start, events); RunsKnown(start, y, events) && SystemOk(y)
    ensures RunsKnown(start, Trace(start, events + [e]), events + [e])
  {
    hide Trace, Handle, Find, AuditsOk, Count, CandidateKnown;
    var y, y' := Trace(start, events), Trace(start, events + [e]);
    OneMoreEvent(start, events, e);
    KnownMore(start, events, e);
    forall r, i | r in y'.runs && 0 <= i < |y'.runs[r].left|
      ensures y'.runs[r].left[i].lot < |y'.tables.lots|
      ensures CandidateKnown(start, events + [e], y'.runs[r].config, y'.runs[r].left[i])
    {
      if e.Start? && r == e.run {
        FoundIsKnown(start, events, e, i);
      } else {
        LotsStay(y, e);
        var k := if e.Handles? && r == e.run && y.runs[r].left != [] then i + 1 else i;
        assert y'.runs[r].left[i] == y.runs[r].left[k];
      }
    }
  }

  lemma LotsStay(y: System, e: Event)
    ensures |y.tables.lots| <= |Next(y, e).tables.lots|
  {
    hide Find, Count;
  }

  lemma FoundIsKnown(start: System, events: seq<Event>, e: Event, i: nat)
    requires e.Start?
    requires var y := Trace(start, events);
             i < |Find(y.tables.lots, y.clock + e.elapsed, e.config.thresholdDays)|
    ensures var y := Trace(start, events);
            var c := Find(y.tables.lots, y.clock + e.elapsed, e.config.thresholdDays)[i];
            c.lot < |y.tables.lots| && CandidateKnown(start, events + [e], e.config, c)
  {
    hide Trace, Find;
    var y := Trace(start, events);
    FindOk(y.tables.lots, y.clock + e.elapsed, e.config.thresholdDays);
    var c := Find(y.tables.lots, y.clock + e.elapsed, e.config.thresholdDays)[i];
    assert (events + [e])[..|events|] == events && (events + [e])[|events|] == e;
    assert ReadAt(start, events + [e], |events|, e.config, c.lot, c.discount);
  }

  /** last_decay_applied_at of lot l, which is null as long as the lot does not exist. */
  function TimeOf(lots: seq<Lot>, l: nat): Option<int> {
    if l < |lots| then lots[l].lastDecay else None
  }

  /** What is known of the candidate that a run handles next. */
  lemma NextCandidate(start: System, y: System, events: seq<Event>, e: Event)
    requires RunsKnown(start, y, events) && SystemOk(y)
    requires e.Handles? && e.run in y.runs && y.runs[e.run].left != []
    ensures var c := y.runs[e.run].left[0];
            && c.lot < |y.tables.lots| && CandidateOk(c, y.clock + e.elapsed)
            && CandidateKnown(start, events, y.runs[e.run].config, c)
  {
    hide CandidateKnown, AuditsOk;
    assert CandidateOk(y.runs[e.run].left[0], y.clock);
  }

  lemma AuditOfCandidate(start: System, events: seq<Event>, config: Config, c: Candidate, a: Audit)
    requires CandidateKnown(start, events, config, c) && c.discount < config.cap
    requires a.lot == c.lot && a.oldDiscount == c.discount && a.newDiscount == NewDiscount(c, config)
    ensures AuditKnown(start, events, a)
  {
    hide ReadAt;
  }

  /** One event: at most one audit, and one exactly when it moves the time of the audit's lot. */
  lemma NextAudits(start: System, y: System, events: seq<Event>, e: Event, l: nat, initial: Option<int>)
    requires RunsKnown(start, y, events) && SystemOk(y)
    requires TimeOf(y.tables.lots, l) == LastAt(y.tables.audits, l, initial)
    ensures var audits, audits' := y.tables.audits, Next(y, e).tables.audits;
            && (audits' == audits ||
                (audits' == audits + [audits'[|audits'| - 1]] && AuditKnown(start, events, audits'[|audits'| - 1])))
            && SumBy(audits', ForLot(l)) == SumBy(audits, ForLot(l)) + (if MovesNow(y, e, l) then 1 else 0)
            && TimeOf(Next(y, e).tables.lots, l) == LastAt(audits', l, initial)
  {
    hide Handle, Find, Count, RunsKnown, SystemOk, CandidateKnown, AuditKnown;
    if e.Handles? && e.run in y.runs && y.runs[e.run].left != [] {
      var run, now := y.runs[e.run], y.clock + e.elapsed;
      var c := run.left[0];
      NextCandidate(start, y, events, e);
      AuditPerWin(y.tables, c, run.config, now, e.fate, l);
      var audits, a := y.tables.audits, Audit(c.lot, c.discount, NewDiscount(c, run.config), now);
      SumAppend(audits, a, ForLot(l));
      assert (audits + [a])[..|audits|] == audits;
      if Next(y, e).tables.audits != audits {
        AuditOfCandidate(start, events, run.config, c, a);
      }
    }
  }

  /**
   However runs overlap with each other and with other transactions: the time of a lot is that of its
   last audit, it has one audit for each event that moved its time, and every audit goes from the
   discount that some run's query found to that plus the run's step, capped.
   */
  lemma {:induction false} AuditsTellTheMoves(lots: seq<Lot>, clock: int, events: seq<Event>, l: nat)
    ensures var start := System(Tables(lots, []), clock, map[]);
            var y := Trace(start, events);
            && RunsKnown(start, y, events)
            && TimeOf(y.tables.lots, l) == LastAt(y.tables.audits, l, TimeOf(lots, l))
            && SumBy(y.tables.audits, ForLot(l)) == Moves(start, events, l)
            && forall i :: 0 <= i < |y.tables.audits| ==> AuditKnown(start, events, y.tables.audits[i])
    decreases |events|
  {
    hide Next, SystemOk, AuditKnown, SumBy, LastAt, TimeOf, MovesNow, RunsKnown;
    var start := System(Tables(lots, []), clock, map[]);
    if events == [] {
      NothingAudited(start, l);
    } else {
      var init, e := events[..|events| - 1], events[|events| - 1];
      var y := Trace(start, init);
      AuditsTellTheMoves(lots, clock, init, l);
      WindowsHoldFromEmpty(lots, clock, init);
      NextKnown(start, init, e);
      NextAudits(start, y, init, e, l, TimeOf(lots, l));
      KnownMore(start, init, e);
      assert init + [e] == events;
    }
  }

  lemma NothingAudited(start: System, l: nat)
    requires start.tables.audits == [] && start.runs == map[]
    ensures RunsKnown(start, start, []) && SumBy(start.tables.audits, ForLot(l)) == 0
    ensures forall initial :: LastAt(start.tables.audits, l, initial) == initial
  {
  }

  lemma WindowsHoldFromEmpty(lots: seq<Lot>, clock: int, events: seq<Event>)
    ensures SystemOk(Trace(System(Tables(lots, []), clock, map[]), events))
  {
    WindowsHold(System(Tables(lots, []), clock, map[]), events);
  }

  /** With positive steps every audit raises the discount, and not above the cap of its run. */
  lemma AuditsRaise(lots: seq<Lot>, clock: int, events: seq<Event>, i: nat)
    requires forall k :: 0 <= k < |events| && events[k].Start? ==> 0 < events[k].config.step
    requires i < |Trace(System(Tables(lots, []), clock, map[]), events).tables.audits|
    ensures var start := System(Tables(lots, []), clock, map[]);
            var a := Trace(start, events).tables.audits[i];
            && a.oldDiscount < a.newDiscount
            && exists k: nat, config ::
                 ReadAt(start, events, k, config, a.lot, a.oldDiscount) && a.newDiscount <= config.cap
  {
    hide Trace, SumBy, LastAt, Moves;
    var start := System(Tables(lots, []), clock, map[]);
    var a := Trace(start, events).tables.audits[i];
    AuditsTellTheMoves(lots, clock, events, a.lot);
    assert AuditKnown(start, events, a);
    var k: nat, config :| ReadAt(start, events, k, config, a.lot, a.oldDiscount) && a.oldDiscount < config.cap
                          && a.newDiscount == Min(a.oldDiscount + config.step, config.cap);
    assert 0 < events[k].config.step;
  }
}
