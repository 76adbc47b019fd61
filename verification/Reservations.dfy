/** Reservation accounting over serial runs. */
module Reservations {
  import opened Options
  import opened Sums
  import opened Stock
  import opened Ledger

  /** Drift of a row, zero while the row does not exist. */
  function DriftOf(s: Store, k: nat): int {
    if k < |s.inventories| then Drift(s, k) else 0
  }

  /** Units this transaction releases from row k without naming a reservation. */
  function UnnamedBy(s: Store, op: Op, k: nat): nat {
    if op.Release? && op.named.None? && op.inventory == k && Exec(s, op).Ok? then op.quantity else 0
  }

  function Unnamed(s: Store, ops: seq<Op>, k: nat): nat
  {
    if ops == [] then 0
    else Unnamed(s, ops[..|ops| - 1], k) + UnnamedBy(Run(s, ops[..|ops| - 1]), ops[|ops| - 1], k)
  }

  /** Stock transactions do not touch what is reserved. */
  lemma StockKeepsDrift(s: Store, s': Store, k: nat)
    requires Inv(s) && s'.reservations == s.reservations && |s.inventories| <= |s'.inventories|
    requires forall j :: 0 <= j < |s'.inventories| ==>
               s'.inventories[j].reserved == if j < |s.inventories| then s.inventories[j].reserved else 0
    ensures DriftOf(s', k) == DriftOf(s, k)
  {
    hide SumBy;
    if |s.inventories| <= k < |s'.inventories| {
      NoReservationsYet(s, k);
    }
  }

  lemma StockOpDrift(s: Store, op: Op, k: nat)
    requires Inv(s) && (op.Receive? || op.Accept? || op.Sell? || op.Transfer?) && Exec(s, op).Ok?
    ensures DriftOf(Exec(s, op).value, k) == DriftOf(s, k)
  {
    hide SumBy, Drain, Fifo, DriftOf;
    match op
    case Receive(_, _, _, _, _, _) => DepositDrift(s, op, k);
    case Accept(_, _, _, _, _, _, _) => DepositDrift(s, op, k);
    case Sell(_, _, _) => StockKeepsDrift(s, Exec(s, op).value, k);
    case Transfer(p, a, b, q, tag) => TransferDrift(s, p, a, b, q, tag, k);
    case _ =>
  }

  lemma DepositDrift(s: Store, op: Op, k: nat)
    requires Inv(s) && (op.Receive? || op.Accept?) && Exec(s, op).Ok?
    ensures DriftOf(Exec(s, op).value, k) == DriftOf(s, k)
  {
    hide SumBy, FindRow, RowOf, CodeTaken, DriftOf, LotsOk, LotsAgree,
         LogAgrees, VolumeAgrees, SoldAgrees, ReservedAgrees;
    EnsureRowOk(s.inventories, op.product, op.location, |s.products|, |s.locations|);
    StockKeepsDrift(s, Exec(s, op).value, k);
  }

  lemma TransferDrift(s: Store, p: nat, a: nat, b: nat, q: Units, tag: string, k: nat)
    requires Inv(s) && Exec(s, Transfer(p, a, b, q, tag)).Ok?
    ensures DriftOf(Exec(s, Transfer(p, a, b, q, tag)).value, k) == DriftOf(s, k)
  {
    hide SumBy, Drain, Fifo, DriftOf;
    TransferRows(s, ReadTransfer(s, p, a, b, q).value, p, a, b, q, tag);
    StockKeepsDrift(s, Exec(s, Transfer(p, a, b, q, tag)).value, k);
  }

  /** Only a release that names no reservation makes quantity_reserved drift from the active ones. */
  lemma ExecDrift(s: Store, op: Op, k: nat)
    requires Inv(s) && Exec(s, op).Ok?
    ensures DriftOf(Exec(s, op).value, k) == DriftOf(s, k) + UnnamedBy(s, op, k)
  {
    hide SumBy, Drain, Fifo;
    match op
    case Receive(_, _, _, _, _, _) => StockOpDrift(s, op, k);
    case Accept(_, _, _, _, _, _, _) => StockOpDrift(s, op, k);
    case Sell(_, _, _) => StockOpDrift(s, op, k);
    case Transfer(_, _, _, _, _) => StockOpDrift(s, op, k);
    case Reserve(j, q, expiresAt) => ReserveInv(s, ReadReserve(s, j, q).value, j, q, expiresAt);
    case Release(j, q, None) => UnnamedReleaseInv(s, j, q);
    case Release(j, q, Some(r)) => EndReservationInv(s, r, Released);
    case Expire(r) =>
      if r < |s.reservations| && s.reservations[r].status == Active {
        EndReservationInv(s, r, Expired);
      }
  }

  lemma {:induction false} RunDrift(s: Store, ops: seq<Op>, k: nat)
    requires Inv(s)
    ensures DriftOf(Run(s, ops), k) == DriftOf(s, k) + Unnamed(s, ops, k)
    decreases |ops|
  {
    hide Exec, DriftOf, UnnamedBy;
    if ops != [] {
      var before, op := Run(s, ops[..|ops| - 1]), ops[|ops| - 1];
      RunDrift(s, ops[..|ops| - 1], k);
      RunInv(s, ops[..|ops| - 1]);
      if Exec(before, op).Ok? {
        ExecDrift(before, op, k);
      } else {
        assert UnnamedBy(before, op, k) == 0 by { NothingUnnamed(before, op, k); }
      }
    }
  }

  lemma NothingUnnamed(s: Store, op: Op, k: nat)
    requires Exec(s, op).Err?
    ensures UnnamedBy(s, op, k) == 0
  {
  }

  /**
   In every serial run from an empty store: a row never reserves more than it holds, and its reserved
   quantity plus what was released from it without an id is what its active reservations hold.
   */
  lemma ReservationsBalance(s: Store, ops: seq<Op>, k: nat)
    requires Fresh(s) && k < |Run(s, ops).inventories|
    ensures var s' := Run(s, ops);
            && 0 <= s'.inventories[k].reserved <= s'.inventories[k].onHand
            && s'.inventories[k].reserved + Unnamed(s, ops, k) == SumBy(s'.reservations, ActiveOn(k))
  {
    FreshInv(s);
    RunInv(s, ops);
    RunDrift(s, ops, k);
  }

  /** An active reservation expires unless unnamed releases exceed what all other active ones hold. */
  lemma ExpiryFailsIff(s: Store, ops: seq<Op>, r: nat)
    requires Fresh(s) && r < |Run(s, ops).reservations| && Run(s, ops).reservations[r].status == Active
    ensures var s' := Run(s, ops);
            var x := s'.reservations[r];
            Exec(s', Expire(r)).Err? <==>
              SumBy(s'.reservations, ActiveOn(x.inventory)) - x.quantity < Unnamed(s, ops, x.inventory)
  {
    FreshInv(s);
    RunInv(s, ops);
    ReservationsBalance(s, ops, Run(s, ops).reservations[r].inventory);
  }

  predicate NamesReservation(op: Op) { op.Release? ==> op.named.Some? }

  lemma {:induction false} NoneUnnamed(s: Store, ops: seq<Op>, k: nat)
    requires forall i :: 0 <= i < |ops| ==> NamesReservation(ops[i])
    ensures Unnamed(s, ops, k) == 0
    decreases |ops|
  {
    if ops != [] {
      assert NamesReservation(ops[|ops| - 1]);
      NoneUnnamed(s, ops[..|ops| - 1], k);
    }
  }

  /** When every release names its reservation, the accounting is exact and every expiry commits. */
  lemma NamedRunsAreExact(s: Store, ops: seq<Op>)
    requires Fresh(s) && forall i :: 0 <= i < |ops| ==> NamesReservation(ops[i])
    ensures forall k :: 0 <= k < |Run(s, ops).inventories| ==>
              Run(s, ops).inventories[k].reserved == SumBy(Run(s, ops).reservations, ActiveOn(k))
    ensures forall r: nat :: Exec(Run(s, ops), Expire(r)).Ok?
  {
    hide SumBy;
    var s' := Run(s, ops);
    FreshInv(s);
    RunInv(s, ops);
    forall k | 0 <= k < |s'.inventories|
      ensures s'.inventories[k].reserved == SumBy(s'.reservations, ActiveOn(k))
    {
      ReservationsBalance(s, ops, k);
      NoneUnnamed(s, ops, k);
    }
    forall r: nat
      ensures Exec(s', Expire(r)).Ok?
    {
      if r < |s'.reservations| && s'.reservations[r].status == Active {
        ActiveAtLeast(s', r);
      }
    }
  }

  lemma ActiveAtLeast(s: Store, r: nat)
    requires ReservationsOk(s) && r < |s.reservations| && s.reservations[r].status == Active
    ensures s.reservations[r].quantity <= SumBy(s.reservations, ActiveOn(s.reservations[r].inventory))
  {
    var f := ActiveOn(s.reservations[r].inventory);
    SumNonNegative(s.reservations, f);
    assert f(s.reservations[r]) == s.reservations[r].quantity;
  }

  /**
   Releasing a reservation by its id right after it was made, or its expiry, gives back exactly the row
   that was there before: only the ended reservation remains.
   */
  lemma EndingUndoesReserve(s: Store, k: nat, q: Units, asked: Units, expiresAt: int)
    requires Inv(s) && Exec(s, Reserve(k, q, expiresAt)).Ok?
    ensures var s1, r := Exec(s, Reserve(k, q, expiresAt)).value, |s.reservations|;
            && Exec(s1, Expire(r)) == Ok(s.(reservations := s.reservations + [Reservation(k, q, Expired, expiresAt)]))
            && Exec(s1, Release(k, asked, Some(r))) ==
                 if asked <= s.inventories[k].reserved + q
                 then Ok(s.(reservations := s.reservations + [Reservation(k, q, Released, expiresAt)]))
                 else Err(Conflict)
  {
    hide LotsOk, ReservationsOk, LotsAgree, LogAgrees, VolumeAgrees, SoldAgrees, ReservedAgrees;
    var s1, r := Exec(s, Reserve(k, q, expiresAt)).value, |s.reservations|;
    var row := s.inventories[k];
    assert s1.inventories[k] == row.(reserved := row.reserved + q)
           && s1.reservations[r] == Reservation(k, q, Active, expiresAt);
    assert s1.inventories[k := row] == s.inventories;
    assert s1.reservations[r := Reservation(k, q, Released, expiresAt)] ==
             s.reservations + [Reservation(k, q, Released, expiresAt)];
    assert s1.reservations[r := Reservation(k, q, Expired, expiresAt)] ==
             s.reservations + [Reservation(k, q, Expired, expiresAt)];
  }

  lemma EndedStep(s: Store, op: Op, r: nat)
    requires Exec(s, op).Ok? && r < |s.reservations|
    ensures var s' := Exec(s, op).value;
            && r < |s'.reservations|
            && s'.reservations[r] == s.reservations[r].(status := s'.reservations[r].status)
            && (s.reservations[r].status != Active ==> s'.reservations[r].status == s.reservations[r].status)
  {
    hide Drain, Fifo, ReadTaking, DecrementRow, EnsureRow, RowOf, Operational, Known, CodeTaken;
    match op
    case Receive(_, _, _, _, _, _) =>
    case Accept(_, _, _, _, _, _, _) =>
    case Sell(_, _, _) =>
    case Transfer(_, _, _, _, _) =>
    case Reserve(_, _, _) =>
    case Release(_, _, _) =>
    case Expire(_) =>
  }

  /** Released and expired reservations stay what they are, so their units come back at most once. */
  lemma {:induction false} EndedStaysEnded(s: Store, ops: seq<Op>, r: nat)
    requires r < |s.reservations|
    ensures r < |Run(s, ops).reservations|
    ensures Run(s, ops).reservations[r] == s.reservations[r].(status := Run(s, ops).reservations[r].status)
    ensures s.reservations[r].status != Active ==> Run(s, ops).reservations[r].status == s.reservations[r].status
    decreases |ops|
  {
    hide Exec;
    if ops != [] {
      var before, op := Run(s, ops[..|ops| - 1]), ops[|ops| - 1];
      EndedStaysEnded(s, ops[..|ops| - 1], r);
      if Exec(before, op).Ok? {
        EndedStep(before, op, r);
      }
    }
  }

  lemma RunOneMore(s: Store, ops: seq<Op>, op: Op)
    ensures Run(s, ops + [op]) == After(Run(s, ops), op)
  {
    assert (ops + [op])[..|ops|] == ops;
  }

  /** A store with one location, one product, one lot of 5 and the given reserved quantity. */
  function Five(reserved: int, reservations: seq<Reservation>): Store {
    Store([Location(10, 5, false, true)], [Product(0)], [Inventory(0, 0, 5, reserved)],
          [Lot(Card(0, 0, None, "A", 5, 1, 0), 5, 0)], [Incoming(0, 0, 5, None)], reservations)
  }

  lemma ReceiveFive(s: Store)
    requires s == OnePlace()
    ensures After(s, Receive(0, 0, 5, 1, "A", 0)) == Five(0, [])
  {
    assert EnsureRow([], 0, 0) == [Inventory(0, 0, 0, 0)] && RowOf([], 0, 0) == 0;
  }

  /** Row 0 of such a store, which every reservation of the example is on. */
  lemma RowOfFive(reserved: int, reservations: seq<Reservation>)
    ensures VisibleRow(Five(reserved, reservations), 0) == Ok(Inventory(0, 0, 5, reserved))
    ensures forall n :: Five(reserved, reservations).inventories[0 := Inventory(0, 0, 5, n)] == [Inventory(0, 0, 5, n)]
  {
  }

  /** Reserving from a store's only row. */
  lemma ReserveFrom(s: Store, n: Units, q: Units, expiresAt: int)
    requires s.inventories == [Inventory(0, 0, n, 0)] && q <= n
    requires s.locations != [] && !s.locations[0].hidden
    ensures After(s, Reserve(0, q, expiresAt)) ==
            s.(inventories := [Inventory(0, 0, n, q)],
               reservations := s.reservations + [Reservation(0, q, Active, expiresAt)])
  {
    assert s.inventories[0 := Inventory(0, 0, n, q)] == [Inventory(0, 0, n, q)];
  }

  lemma ReleaseFive(held: seq<Reservation>)
    ensures After(Five(5, held), Release(0, 5, None)) == Five(0, held)
  {
    RowOfFive(5, held);
    hide VisibleRow;
  }

  lemma ExpireFive()
    ensures Exec(Five(0, [Reservation(0, 5, Active, 0)]), Expire(0)) == Err(CheckFailed)
  {
    assert Unreserve(Five(0, [Reservation(0, 5, Active, 0)]), 0, 5) == Err(CheckFailed);
  }

  /** Receive 5, reserve 5 until time 0, and release 5 without an id. */
  function UnnamedRelease(): seq<Op> {
    [Receive(0, 0, 5, 1, "A", 0)] + [Reserve(0, 5, 0)] + [Release(0, 5, None)]
  }

  lemma AfterUnnamedRelease()
    ensures Run(OnePlace(), UnnamedRelease()) == Five(0, [Reservation(0, 5, Active, 0)])
  {
    var s := OnePlace();
    var receive: Op := Receive(0, 0, 5, 1, "A", 0);
    var reserve: Op := Reserve(0, 5, 0);
    var release: Op := Release(0, 5, None);
    ReceiveFive(s);
    ReserveFrom(Five(0, []), 5, 5, 0);
    assert After(Five(0, []), reserve) == Five(5, [Reservation(0, 5, Active, 0)]) by { hide After; }
    ReleaseFive([Reservation(0, 5, Active, 0)]);
    hide After, Exec, Five;
    RunOneMore(s, [], receive);
    assert [] + [receive] == [receive];
    RunOneMore(s, [receive], reserve);
    RunOneMore(s, [receive] + [reserve], release);
  }

  /** After that run the reservation cannot expire. */
  lemma UnnamedReleaseBreaksExpiry()
    ensures Fresh(OnePlace()) && Exec(Run(OnePlace(), UnnamedRelease()), Expire(0)) == Err(CheckFailed)
  {
    hide Run, Exec;
    AfterUnnamedRelease();
    ExpireFive();
  }
}
