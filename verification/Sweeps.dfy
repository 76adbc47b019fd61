/** The expiry sweep: what it scans, exactly when it throws, and what a failing reservation does to it. */
module Sweeps {
  import opened Sums
  import opened Ordering
  import opened Stock
  import opened Ledger
  import opened Reservations

  datatype Due = Due(id: nat, expiresAt: int)

  predicate Sooner(a: Due, b: Due) { a.expiresAt < b.expiresAt || (a.expiresAt == b.expiresAt && a.id < b.id) }

  predicate IsDue(r: Reservation, now: int) { r.status == Active && r.expiresAt <= now }

  function AllDue(rs: seq<Reservation>, now: int): seq<Due>
  {
    if rs == [] then []
    else
      var n := |rs| - 1;
      AllDue(rs[..n], now) +
      (if IsDue(rs[n], now) then [Due(n, rs[n].expiresAt)] else [])
  }

  function SortedDue(s: Store, now: int): seq<Due> { Sort(AllDue(s.reservations, now), Sooner) }

  /** The reservations a sweep scans: the first limit overdue ones. */
  function Scan(s: Store, now: int, limit: nat): seq<Due> {
    var all := SortedDue(s, now);
    if limit < |all| then all[..limit] else all
  }

  /** threw: the sweep stopped at a transaction that failed; earlier ones stay committed. */
  datatype Swept = Swept(store: Store, released: nat, threw: bool)

  function Sweep(s: Store, due: seq<Due>): Swept
  {
    if due == [] then Swept(s, 0, false)
    else
      var rest := Sweep(s, due[..|due| - 1]);
      if rest.threw then rest
      else
        var r := due[|due| - 1].id;
        match ExecExpire(rest.store, r)
        case Err(_) => rest.(threw := true)
        case Ok(s') =>
          var active := r < |rest.store.reservations| && rest.store.reservations[r].status == Active;
          Swept(s', rest.released + if active then 1 else 0, false)
  }

  ghost predicate NoDrift(s: Store) { forall k :: DriftOf(s, k) == 0 }

  ghost predicate Distinct(due: seq<Due>) {
    forall i, j :: 0 <= i < j < |due| ==> due[i].id != due[j].id
  }

  ghost predicate StillActive(s: Store, due: seq<Due>) {
    forall i :: 0 <= i < |due| ==> due[i].id < |s.reservations| && s.reservations[due[i].id].status == Active
  }

  lemma {:induction false} AllDueActive(s: Store, now: int, rs: seq<Reservation>)
    requires rs <= s.reservations
    ensures StillActive(s, AllDue(rs, now))
    ensures forall i :: 0 <= i < |AllDue(rs, now)| ==> AllDue(rs, now)[i].id < |rs|
    ensures forall i, j :: 0 <= i < j < |AllDue(rs, now)| ==> AllDue(rs, now)[i].id < AllDue(rs, now)[j].id
    decreases |rs|
  {
    if rs != [] {
      AllDueActive(s, now, rs[..|rs| - 1]);
    }
  }

  lemma {:induction false} AllDueMembers(rs: seq<Reservation>, now: int)
    ensures forall i :: 0 <= i < |rs| && IsDue(rs[i], now) ==> Due(i, rs[i].expiresAt) in AllDue(rs, now)
    ensures forall d :: d in AllDue(rs, now) ==>
              d.id < |rs| && IsDue(rs[d.id], now) && d.expiresAt == rs[d.id].expiresAt
    decreases |rs|
  {
    if rs != [] {
      AllDueMembers(rs[..|rs| - 1], now);
      assert forall i :: 0 <= i < |rs| - 1 ==> rs[i] == rs[..|rs| - 1][i];
    }
  }

  lemma SortedDueOk(s: Store, now: int)
    ensures Ascending(SortedDue(s, now), Sooner) && Distinct(SortedDue(s, now)) && StillActive(s, SortedDue(s, now))
    ensures var due := SortedDue(s, now);
            forall i :: 0 <= i < |due| ==> s.reservations[due[i].id].expiresAt == due[i].expiresAt <= now
    ensures forall r :: 0 <= r < |s.reservations| && IsDue(s.reservations[r], now) ==>
              Due(r, s.reservations[r].expiresAt) in SortedDue(s, now)
  {
    hide Sort, AllDue;
    var all, sorted := AllDue(s.reservations, now), SortedDue(s, now);
    AllDueActive(s, now, s.reservations);
    AllDueMembers(s.reservations, now);
    SortMembers(all, Sooner);
    SortAscending(all, Sooner);
    hide SortedDue;
    forall i | 0 <= i < |sorted|
      ensures sorted[i].id < |s.reservations| && s.reservations[sorted[i].id].status == Active
      ensures s.reservations[sorted[i].id].expiresAt == sorted[i].expiresAt <= now
    {
      assert sorted[i] in all;
    }
    forall i, j | 0 <= i < j < |sorted|
      ensures sorted[i].id != sorted[j].id
    {
      assert Sooner(sorted[i], sorted[j]);
    }
  }

  /** A scan lists overdue active reservations, each once, the soonest first, and all when they fit the limit. */
  lemma ScanIsSoonest(s: Store, now: int, limit: nat)
    ensures var scan := Scan(s, now, limit);
            && Distinct(scan) && StillActive(s, scan) && |scan| <= limit
            && (forall i :: 0 <= i < |scan| ==> s.reservations[scan[i].id].expiresAt == scan[i].expiresAt <= now)
            && (forall i, j :: 0 <= i < j < |scan| ==>
                  || scan[i].expiresAt < scan[j].expiresAt
                  || (scan[i].expiresAt == scan[j].expiresAt && scan[i].id < scan[j].id))
            && (forall r :: 0 <= r < |s.reservations| && s.reservations[r].status == Active
                            && s.reservations[r].expiresAt <= now ==>
                  || (exists i :: 0 <= i < |scan| && scan[i].id == r)
                  || (|scan| == limit
                      && forall i :: 0 <= i < limit ==>
                           || scan[i].expiresAt < s.reservations[r].expiresAt
                           || (scan[i].expiresAt == s.reservations[r].expiresAt && scan[i].id < r)))
  {
    hide SortedDue, AllDue, Sort;
    SortedDueOk(s, now);
    var sorted, scan := SortedDue(s, now), Scan(s, now, limit);
    assert scan == if limit < |sorted| then sorted[..limit] else sorted;
    forall i, j | 0 <= i < j < |scan|
      ensures scan[i].expiresAt < scan[j].expiresAt
              || (scan[i].expiresAt == scan[j].expiresAt && scan[i].id < scan[j].id)
    {
      assert Sooner(sorted[i], sorted[j]);
    }
    forall r | 0 <= r < |s.reservations| && s.reservations[r].status == Active && s.reservations[r].expiresAt <= now
      ensures (exists i :: 0 <= i < |scan| && scan[i].id == r)
              || (|scan| == limit
                  && forall i :: 0 <= i < limit ==> Sooner(scan[i], Due(r, s.reservations[r].expiresAt)))
    {
      assert IsDue(s.reservations[r], now);
      var d := Due(r, s.reservations[r].expiresAt);
      var j :| 0 <= j < |sorted| && sorted[j] == d;
      if j < |scan| {
        assert scan[j].id == r;
      }
    }
  }

  /** A sweep that threw at some point reports the state of that point. */
  lemma {:induction false} SweepStops(s: Store, due: seq<Due>, n: nat)
    requires n <= |due| && Sweep(s, due[..n]).threw
    ensures Sweep(s, due) == Sweep(s, due[..n])
    decreases |due| - n
  {
    if n < |due| {
      assert due[..n + 1][..n] == due[..n];
      SweepStops(s, due, n + 1);
    } else {
      assert due[..n] == due;
    }
  }

  // ---------------------------------------------------------------- when a sweep throws

  /** What expiring a scanned reservation takes off the reserved quantity of row k. */
  function DueOn(rs: seq<Reservation>, k: nat): Due -> int {
    (d: Due) => if d.id < |rs| && rs[d.id].inventory == k then rs[d.id].quantity else 0
  }

  /** Row k reserves at least what the scanned reservations on it hold together. */
  ghost predicate Covers(s: Store, due: seq<Due>, k: nat)
    requires k < |s.inventories|
  {
    SumBy(due, DueOn(s.reservations, k)) <= s.inventories[k].reserved
  }

  ghost predicate AllCovered(s: Store, due: seq<Due>) {
    forall k :: 0 <= k < |s.inventories| ==> Covers(s, due, k)
  }

  predicate Lists(due: seq<Due>, r: nat) { exists i :: 0 <= i < |due| && due[i].id == r }

  /** The store after a sweep that expired all of due. */
  ghost predicate AllExpired(s: Store, due: seq<Due>, s': Store) {
    && s' == s.(inventories := s'.inventories, reservations := s'.reservations)
    && |s'.inventories| == |s.inventories| && |s'.reservations| == |s.reservations|
    && (forall k :: 0 <= k < |s.inventories| ==>
          var row := s.inventories[k];
          s'.inventories[k] == row.(reserved := row.reserved - SumBy(due, DueOn(s.reservations, k))))
    && (forall r :: 0 <= r < |s.reservations| ==>
          s'.reservations[r] ==
            s.reservations[r].(status := if Lists(due, r) then Expired else s.reservations[r].status))
  }

  lemma DueSplit(rs: seq<Reservation>, due: seq<Due>, k: nat)
    requires due != []
    ensures SumBy(due, DueOn(rs, k)) == SumBy(due[..|due| - 1], DueOn(rs, k)) + DueOn(rs, k)(due[|due| - 1])
  {
  }

  lemma ListsOneMore(due: seq<Due>)
    requires due != [] && Distinct(due)
    ensures forall r: nat :: Lists(due, r) <==> r == due[|due| - 1].id || Lists(due[..|due| - 1], r)
    ensures !Lists(due[..|due| - 1], due[|due| - 1].id)
  {
    var init := due[..|due| - 1];
    assert forall i :: 0 <= i < |init| ==> init[i] == due[i];
  }

  /** One more reservation after a sweep of init that went through. */
  lemma ExpireOneMore(s: Store, due: seq<Due>, mid: Store)
    requires ReservationsOk(s) && due != [] && Distinct(due) && StillActive(s, due)
    requires AllExpired(s, due[..|due| - 1], mid)
    ensures var last := due[|due| - 1].id;
            && last < |mid.reservations| && mid.reservations[last] == s.reservations[last]
            && (ExecExpire(mid, last).Ok? <==> Covers(s, due, s.reservations[last].inventory))
            && (ExecExpire(mid, last).Ok? ==> AllExpired(s, due, ExecExpire(mid, last).value))
  {
    hide SumBy;
    var last := due[|due| - 1].id;
    ListsOneMore(due);
    forall k: nat
      ensures SumBy(due, DueOn(s.reservations, k)) ==
              SumBy(due[..|due| - 1], DueOn(s.reservations, k)) +
              if s.reservations[last].inventory == k then s.reservations[last].quantity else 0
    {
      DueSplit(s.reservations, due, k);
    }
  }

  /** What reservations take off a row only grows along a sweep. */
  lemma CoveredOneMore(s: Store, due: seq<Due>)
    requires ReservationsOk(s) && due != [] && due[|due| - 1].id < |s.reservations|
    ensures AllCovered(s, due) <==>
            AllCovered(s, due[..|due| - 1]) && Covers(s, due, s.reservations[due[|due| - 1].id].inventory)
  {
    hide SumBy;
    var init := due[..|due| - 1];
    forall k: nat | k < |s.inventories|
      ensures Covers(s, due, k) ==> Covers(s, init, k)
      ensures Covers(s, init, k) && s.reservations[due[|due| - 1].id].inventory != k ==> Covers(s, due, k)
    {
      DueSplit(s.reservations, due, k);
    }
  }

  /** The database CHECK on quantity_reserved. */
  ghost predicate ReserveNonNegative(s: Store) {
    forall k :: 0 <= k < |s.inventories| ==> 0 <= s.inventories[k].reserved
  }

  /**
   A sweep throws exactly when, on some row, the scanned reservations together hold more than the row
   reserves. Otherwise it expires all of them, and each row gives back exactly their sum.
   */
  lemma {:induction false} SweepThrowsIff(s: Store, due: seq<Due>)
    requires ReservationsOk(s) && ReserveNonNegative(s) && Distinct(due) && StillActive(s, due)
    ensures Sweep(s, due).threw <==> !AllCovered(s, due)
    ensures !Sweep(s, due).threw ==> Sweep(s, due).released == |due| && AllExpired(s, due, Sweep(s, due).store)
    decreases |due|
  {
    hide SumBy, ExecExpire, AllExpired, AllCovered, Covers;
    if due == [] {
      EmptySweep(s);
    } else {
      var init := due[..|due| - 1];
      SweepThrowsIff(s, init);
      CoveredOneMore(s, due);
      if AllCovered(s, init) {
        ExpireOneMore(s, due, Sweep(s, init).store);
      }
    }
  }

  /** Where a sweep throws: at the first reservation that its row no longer covers, with those before it expired. */
  lemma SweepStopsAt(s: Store, due: seq<Due>, n: nat)
    requires ReservationsOk(s) && ReserveNonNegative(s) && Distinct(due) && StillActive(s, due)
    requires n < |due| && AllCovered(s, due[..n]) && !AllCovered(s, due[..n + 1])
    ensures Sweep(s, due).threw && Sweep(s, due).released == n && AllExpired(s, due[..n], Sweep(s, due).store)
  {
    hide AllExpired, AllCovered, ExecExpire;
    assert due[..n + 1][..n] == due[..n];
    SweepThrowsIff(s, due[..n]);
    SweepThrowsIff(s, due[..n + 1]);
    SweepStops(s, due, n + 1);
  }

  /** How many of the scanned reservations are active. */
  function ActiveAmong(s: Store, due: seq<Due>): nat
  {
    if due == [] then 0
    else
      var r := due[|due| - 1].id;
      ActiveAmong(s, due[..|due| - 1]) +
      if r < |s.reservations| && s.reservations[r].status == Active then 1 else 0
  }

  /** A sweep that does not throw counts the active reservations it was given, not those that ended meanwhile. */
  lemma {:induction false} SweepCountsActive(s: Store, due: seq<Due>)
    requires Distinct(due)
    ensures |Sweep(s, due).store.reservations| == |s.reservations|
    ensures forall r: nat :: r < |s.reservations| && !Lists(due, r) ==>
              Sweep(s, due).store.reservations[r] == s.reservations[r]
    ensures !Sweep(s, due).threw ==> Sweep(s, due).released == ActiveAmong(s, due)
    decreases |due|
  {
    if due != [] {
      SweepCountsActive(s, due[..|due| - 1]);
      ListsOneMore(due);
    }
  }

  lemma EmptySweep(s: Store)
    requires ReserveNonNegative(s)
    ensures AllExpired(s, [], s) && AllCovered(s, [])
  {
  }

  // ---------------------------------------------------------------- sweeps without drift

  /** Different active reservations of a row hold together at most what all its active ones hold. */
  lemma {:induction false} DueWithinActive(rs: seq<Reservation>, due: seq<Due>, k: nat)
    requires forall r :: 0 <= r < |rs| ==> 0 < rs[r].quantity
    requires Distinct(due) && forall i :: 0 <= i < |due| ==> due[i].id < |rs| && rs[due[i].id].status == Active
    ensures SumBy(due, DueOn(rs, k)) <= SumBy(rs, ActiveOn(k))
    decreases |due|
  {
    if due == [] {
      SumNonNegative(rs, ActiveOn(k));
    } else {
      var init, r := due[..|due| - 1], due[|due| - 1].id;
      var rs' := rs[r := rs[r].(status := Expired)];
      assert forall i :: 0 <= i < |init| ==> init[i] == due[i] && init[i].id != r;
      DueWithinActive(rs', init, k);
      SumAgree(init, DueOn(rs', k), DueOn(rs, k));
      SumUpdate(rs, r, rs'[r], ActiveOn(k));
    }
  }

  /** Each transaction of a sweep keeps the ledger and every row's drift. */
  lemma {:induction false} SweepKeeps(s: Store, due: seq<Due>)
    requires Inv(s)
    ensures Inv(Sweep(s, due).store)
    ensures forall k :: DriftOf(Sweep(s, due).store, k) == DriftOf(s, k)
    decreases |due|
  {
    hide Inv, DriftOf, ExecExpire;
    if due != [] {
      SweepKeeps(s, due[..|due| - 1]);
      var mid, r := Sweep(s, due[..|due| - 1]).store, due[|due| - 1].id;
      if ExecExpire(mid, r).Ok? {
        ExpireKeeps(mid, r);
      }
    }
  }

  lemma ExpireKeeps(s: Store, r: nat)
    requires Inv(s) && ExecExpire(s, r).Ok?
    ensures Inv(ExecExpire(s, r).value)
    ensures forall k :: DriftOf(ExecExpire(s, r).value, k) == DriftOf(s, k)
  {
    hide Inv, DriftOf, ExecExpire;
    ExecInv(s, Expire(r));
    forall k
      ensures DriftOf(ExecExpire(s, r).value, k) == DriftOf(s, k)
    {
      ExecDrift(s, Expire(r), k);
    }
  }

  /** Without drift every row covers what is scanned: the sweep expires it all and never throws. */
  lemma SweepExpiresAll(s: Store, due: seq<Due>)
    requires Inv(s) && NoDrift(s) && Distinct(due) && StillActive(s, due)
    ensures var done := Sweep(s, due);
            !done.threw && done.released == |due| && AllExpired(s, due, done.store)
            && Inv(done.store) && NoDrift(done.store)
  {
    hide SumBy, AllExpired;
    forall k | 0 <= k < |s.inventories|
      ensures Covers(s, due, k)
    {
      assert DriftOf(s, k) == 0;
      DueWithinActive(s.reservations, due, k);
    }
    SweepThrowsIff(s, due);
    SweepKeeps(s, due);
    forall k
      ensures DriftOf(Sweep(s, due).store, k) == 0
    {
      assert DriftOf(s, k) == 0;
    }
  }

  /** After a run in which every release named its reservation, a sweep expires all it scans and never throws. */
  lemma SweepsOfNamedRuns(s: Store, ops: seq<Op>, now: int, limit: nat)
    requires Fresh(s) && forall i :: 0 <= i < |ops| ==> NamesReservation(ops[i])
    ensures var s' := Run(s, ops);
            var due := Scan(s', now, limit);
            && !Sweep(s', due).threw && Sweep(s', due).released == |due|
            && forall i :: 0 <= i < |due| ==>
                 && due[i].id < |Sweep(s', due).store.reservations|
                 && Sweep(s', due).store.reservations[due[i].id].status == Expired
  {
    hide SumBy, Sweep, Scan;
    var s' := Run(s, ops);
    FreshInv(s);
    RunInv(s, ops);
    forall k
      ensures DriftOf(s', k) == 0
    {
      RunDrift(s, ops, k);
      NoneUnnamed(s, ops, k);
    }
    ScanIsSoonest(s', now, limit);
    SweepExpiresAll(s', Scan(s', now, limit));
  }

  // ---------------------------------------------------------------- a failing reservation blocks the sweep

  /** The row of reservation r reserves less than r holds. */
  predicate Stuck(s: Store, r: nat) {
    && r < |s.reservations| && s.reservations[r].status == Active
    && s.reservations[r].inventory < |s.inventories|
    && s.inventories[s.reservations[r].inventory].reserved < s.reservations[r].quantity
  }

  lemma {:induction false} StuckFirst(s: Store, due: seq<Due>)
    requires due != [] && Stuck(s, due[0].id)
    ensures Sweep(s, due) == Swept(s, 0, true)
    decreases |due|
  {
    if |due| == 1 {
      assert Sweep(s, due[..0]) == Swept(s, 0, false);
    } else {
      StuckFirst(s, due[..|due| - 1]);
    }
  }

  lemma FirstIsSoonest(s: Store, now: int, x: Due)
    requires x in SortedDue(s, now)
    ensures x == SortedDue(s, now)[0] || Sooner(SortedDue(s, now)[0], x)
  {
    hide Sort, AllDue;
    SortedDueOk(s, now);
    var all := SortedDue(s, now);
    var n :| 0 <= n < |all| && all[n] == x;
    assert n == 0 || Sooner(all[0], all[n]);
  }

  lemma SortedDueMembers(s: Store, now: int)
    ensures forall d :: d in SortedDue(s, now) <==>
              && d.id < |s.reservations| && IsDue(s.reservations[d.id], now)
              && d.expiresAt == s.reservations[d.id].expiresAt
  {
    AllDueMembers(s.reservations, now);
    SortMembers(AllDue(s.reservations, now), Sooner);
  }

  /** The soonest overdue reservation is scanned first, now and at any later time. */
  lemma SameFirst(s: Store, now: int, later: int, limit: nat, limit': nat)
    requires now <= later && 1 <= limit && 1 <= limit' && Scan(s, now, limit) != []
    ensures Scan(s, later, limit') != [] && Scan(s, later, limit')[0] == Scan(s, now, limit)[0]
  {
    hide SortedDue;
    SortedDueMembers(s, now);
    SortedDueMembers(s, later);
    var a := SortedDue(s, now)[0];
    assert a in SortedDue(s, now);
    FirstIsSoonest(s, later, a);
    var b := SortedDue(s, later)[0];
    assert b in SortedDue(s, later);
    FirstIsSoonest(s, now, b);
  }

  /**
   When the first scanned reservation cannot expire, the sweep changes nothing and throws, and so does
   every later one until something else changes the store, whatever other reservations are overdue.
   */
  lemma StuckForever(s: Store, now: int, later: int, limit: nat, limit': nat)
    requires now <= later && 1 <= limit && 1 <= limit'
    requires Scan(s, now, limit) != [] && Stuck(s, Scan(s, now, limit)[0].id)
    ensures Sweep(s, Scan(s, later, limit')) == Swept(s, 0, true)
  {
    SameFirst(s, now, later, limit, limit');
    StuckFirst(s, Scan(s, later, limit'));
  }

  /** The run above, and then 3 units reserved until time 1. */
  function SecondReservation(): seq<Op> {
    UnnamedRelease() + [Reserve(0, 3, 1)]
  }

  /** There the second reservation could expire, but every sweep from time 1 on stops at the first one. */
  lemma UnnamedReleaseBlocksSweeps(later: int, limit: nat)
    requires 1 <= later && 1 <= limit
    ensures var s := Run(OnePlace(), SecondReservation());
            && Exec(s, Expire(1)).Ok?
            && Sweep(s, Scan(s, later, limit)) == Swept(s, 0, true)
  {
    var s := Run(OnePlace(), SecondReservation());
    var first, second := Reservation(0, 5, Active, 0), Reservation(0, 3, Active, 1);
    AfterUnnamedRelease();
    RunOneMore(OnePlace(), UnnamedRelease(), Reserve(0, 3, 1));
    ReserveFrom(Five(0, [first]), 5, 3, 1);
    assert [first] + [second] == [first, second];
    assert s == Five(3, [first, second]) by { hide Run, After, UnnamedRelease; }
    hide Run, SecondReservation, Scan, Sweep;
    assert Unreserve(s, 0, 3).Ok?;
    FirstOfTwo(s, first, second, later, limit);
    StuckFirst(s, Scan(s, later, limit));
  }

  lemma FirstOfTwo(s: Store, first: Reservation, second: Reservation, now: int, limit: nat)
    requires s.reservations == [first, second] && first.status == Active && first.expiresAt < second.expiresAt
    requires first.expiresAt <= now && 1 <= limit
    ensures Scan(s, now, limit) != [] && Scan(s, now, limit)[0] == Due(0, first.expiresAt)
  {
    hide SortedDue;
    SortedDueMembers(s, now);
    FirstIsSoonest(s, now, Due(0, first.expiresAt));
    assert SortedDue(s, now)[0] in SortedDue(s, now);
  }
}
