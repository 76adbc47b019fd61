/**
 What each transaction leaves, field by field, and when the reservation transactions and receipt
 entries commit: stated on the columns themselves.
 */
module Effects {
  import opened Options
  import opened Stock
  import opened FifoLoop
  import opened Ledger

  // ---------------------------------------------------------------- transfers and receipts

  /** The row of a product at a location, or where it will be created. */
  function Place(rows: seq<Inventory>, p: nat, l: nat): nat {
    var k := FindRow(rows, p, l);
    if k.Some? then k.value else |rows|
  }

  /** after has quantity more units in that row, which is created when it is missing, and equal rows elsewhere. */
  ghost predicate Gains(before: seq<Inventory>, after: seq<Inventory>, p: nat, l: nat, quantity: int) {
    var d := Place(before, p, l);
    && |after| == (if d == |before| then |before| + 1 else |before|)
    && (forall j :: 0 <= j < |before| && j != d ==> after[j] == before[j])
    && after[d] == Inventory(p, l, (if d < |before| then before[d].onHand else 0) + quantity,
                             if d < |before| then before[d].reserved else 0)
  }

  lemma EnsuredRow(rows: seq<Inventory>, p: nat, l: nat, products: nat, locations: nat)
    requires RowsOk(rows, products, locations) && p < products && l < locations
    ensures RowOf(rows, p, l) == Place(rows, p, l)
    ensures EnsureRow(rows, p, l) == if Place(rows, p, l) < |rows| then rows else rows + [Inventory(p, l, 0, 0)]
  {
    EnsureRowOk(rows, p, l, products, locations);
  }

  /**
   A committed transfer: q units out of one row and into another, which keep what they reserve, the same
   between the two volumes, and one entry in the log.
   */
  lemma TransferLeaves(s: Store, p: nat, a: nat, b: nat, q: Units, tag: string)
    requires Inv(s) && Exec(s, Transfer(p, a, b, q, tag)).Ok?
    ensures FindRow(s.inventories, p, a).Some? && a < |s.locations| && b < |s.locations| && a != b
    ensures var s', k := Exec(s, Transfer(p, a, b, q, tag)).value, FindRow(s.inventories, p, a).value;
            var row := s.inventories[k];
            && Gains(s.inventories[k := Inventory(p, a, row.onHand - q, row.reserved)], s'.inventories, p, b, q)
            && Drain(s.lots, Fifo(s.lots, k), q, ForMove(Place(s.inventories, p, b), tag)) == Ok(s'.lots)
            && |s'.locations| == |s.locations|
            && (forall l :: 0 <= l < |s.locations| ==>
                  var place := s.locations[l];
                  var left, added := if l == a then q else 0, if l == b then q else 0;
                  s'.locations[l] == place.(volume := place.volume - left + added))
            && s'.movements == s.movements + [Movement.Moved(p, a, b, q)]
            && s'.products == s.products && s'.reservations == s.reservations
  {
    hide Drain, Fifo, LotsOk, ReservationsOk, LotsAgree, LogAgrees, VolumeAgrees, SoldAgrees, ReservedAgrees,
         Exec, ReadTransfer, FindRow;
    var read := TransferShape(s, p, a, b, q, tag);
    var k := read.taking.row;
    var lowered := s.inventories[k := Inventory(p, a, s.inventories[k].onHand - q, s.inventories[k].reserved)];
    EnsuredRow(s.inventories, p, b, |s.products|, |s.locations|);
    SamePlace(s.inventories, lowered, p, b);
  }

  lemma {:induction false} SamePlace(rows: seq<Inventory>, rows': seq<Inventory>, p: nat, l: nat)
    requires |rows| == |rows'|
    requires forall j :: 0 <= j < |rows| ==>
               rows'[j].product == rows[j].product && rows'[j].location == rows[j].location
    ensures FindRow(rows', p, l) == FindRow(rows, p, l) && Place(rows', p, l) == Place(rows, p, l)
    decreases |rows|
  {
    if rows != [] {
      SamePlace(rows[..|rows| - 1], rows'[..|rows| - 1], p, l);
    }
  }

  /** What both kinds of receipt leave: units in a row and a volume, a lot, and an entry in the log. */
  ghost predicate Deposited(s: Store, p: nat, l: nat, q: int, cost: int,
                            code: string, at: int, order: Option<nat>, s': Store) {
    && Gains(s.inventories, s'.inventories, p, l, q)
    && |s'.lots| == |s.lots| + 1 && s'.lots[..|s.lots|] == s.lots
    && (var lot := s'.lots[|s.lots|];
        && lot.onHand == q == lot.card.received && lot.sold == 0 && lot.card.id == |s.lots| && lot.card.parent == None
        && lot.card.inventory == Place(s.inventories, p, l)
        && lot.card.code == code && lot.card.cost == cost && lot.card.receivedAt == at)
    && |s'.locations| == |s.locations|
    && (forall m :: 0 <= m < |s.locations| ==>
          s'.locations[m] == s.locations[m].(volume := s.locations[m].volume + if m == l then q else 0))
    && s'.movements == s.movements + [Incoming(p, l, q, order)]
    && s'.products == s.products && s'.reservations == s.reservations
  }

  lemma DepositLeaves(s: Store, p: nat, l: nat, q: Units, cost: int, code: string, at: int, order: Option<nat>)
    requires Inv(s) && p < |s.products| && l < |s.locations| && Deposit(s, p, l, q, cost, code, at, order).Ok?
    ensures Deposited(s, p, l, q, cost, code, at, order, Deposit(s, p, l, q, cost, code, at, order).value)
  {
    hide CodeTaken, LotsOk, ReservationsOk, LotsAgree, LogAgrees, VolumeAgrees, SoldAgrees, ReservedAgrees;
    EnsuredRow(s.inventories, p, l, |s.products|, |s.locations|);
  }

  lemma ReceiveLeaves(s: Store, p: nat, l: nat, q: Units, cost: int, code: string, at: int)
    requires Inv(s) && Exec(s, Receive(p, l, q, cost, code, at)).Ok?
    ensures Deposited(s, p, l, q, cost, code, at, None, Exec(s, Receive(p, l, q, cost, code, at)).value)
  {
    hide Inv, Deposit, Deposited;
    DepositLeaves(s, p, l, q, cost, code, at, None);
  }

  /**
   An entry of a purchase-order receipt commits exactly when its location and product exist, its lot code
   is unused and it fits; the location may be closed.
   */
  lemma AcceptCommitsIff(s: Store, p: nat, l: nat, q: Units, cost: int, code: string, at: int, order: nat)
    requires Inv(s)
    ensures var r := Exec(s, Accept(p, l, q, cost, code, at, order));
            && (r.Ok? <==>
                  && l < |s.locations| && p < |s.products|
                  && (forall i :: 0 <= i < |s.lots| ==> s.lots[i].card.code != code)
                  && s.locations[l].volume + q <= s.locations[l].capacity)
            && (r.Ok? ==> Deposited(s, p, l, q, cost, code, at, Some(order), r.value))
            && (r.Err? ==> r.error == if l >= |s.locations| || p >= |s.products| then NotFound
                                      else if exists i :: 0 <= i < |s.lots| && s.lots[i].card.code == code
                                      then DuplicateCode
                                      else Conflict)
  {
    hide Inv, Deposited, EnsureRow, RowOf;
    if Exec(s, Accept(p, l, q, cost, code, at, order)).Ok? {
      DepositLeaves(s, p, l, q, cost, code, at, Some(order));
    }
  }

  // ---------------------------------------------------------------- reservations

  /** An inventory row of a warehouse that is not hidden. */
  predicate Visible(s: Store, k: nat) {
    && k < |s.inventories| && s.inventories[k].location < |s.locations|
    && !s.locations[s.inventories[k].location].hidden
  }

  /** s with another reserved quantity in row k and other reservations. */
  ghost predicate OnlyReserved(s: Store, s': Store, k: nat, reserved: int, reservations: seq<Reservation>)
    requires k < |s.inventories|
  {
    s' == s.(inventories := s.inventories[k := Inventory(s.inventories[k].product, s.inventories[k].location,
                                                         s.inventories[k].onHand, reserved)],
             reservations := reservations)
  }

  /** A reservation commits exactly when its row is visible and holds enough that is not reserved yet. */
  lemma ReserveCommitsIff(s: Store, k: nat, q: Units, expiresAt: int)
    ensures var r := Exec(s, Reserve(k, q, expiresAt));
            && (r.Ok? <==> Visible(s, k) && s.inventories[k].reserved + q <= s.inventories[k].onHand)
            && (r.Err? ==> r.error == if !Visible(s, k) then NotFound else Insufficient)
            && (r.Ok? ==> OnlyReserved(s, r.value, k, s.inventories[k].reserved + q,
                                       s.reservations + [Reservation(k, q, Active, expiresAt)]))
  {
  }

  /** The reservation named in a release, when it is an active one of the row. */
  predicate Names(s: Store, k: nat, named: Option<nat>) {
    named.Some? ==>
      && named.value < |s.reservations| && s.reservations[named.value].inventory == k
      && s.reservations[named.value].status == Active
  }

  /** What a release takes off: the quantity of the reservation it names, otherwise what was asked. */
  function ReleaseQuantity(s: Store, q: int, named: Option<nat>): int {
    if named.Some? && named.value < |s.reservations| then s.reservations[named.value].quantity else q
  }

  /**
   A release commits exactly when its row is visible, the asked quantity and the quantity of a named
   reservation are both reserved there, and a named reservation is an active one of the row.
   */
  lemma ReleaseCommitsIff(s: Store, k: nat, q: Units, named: Option<nat>)
    ensures var r, units := Exec(s, Release(k, q, named)), ReleaseQuantity(s, q, named);
            && (r.Ok? <==>
                  Visible(s, k) && q <= s.inventories[k].reserved
                  && Names(s, k, named) && units <= s.inventories[k].reserved)
            && (r.Err? ==> r.error == if !Visible(s, k) then NotFound
                                      else if s.inventories[k].reserved < q then Conflict
                                      else if !Names(s, k, named) then NotFound
                                      else CheckFailed)
            && (r.Ok? ==>
                  OnlyReserved(s, r.value, k, s.inventories[k].reserved - units,
                               if named.None? then s.reservations
                               else s.reservations[named.value :=
                                      Reservation(k, units, Released, s.reservations[named.value].expiresAt)]))
  {
  }

  /**
   An expiry does nothing to a reservation that is not active; otherwise it commits exactly when the row
   reserves what the reservation holds.
   */
  lemma ExpireCommitsIff(s: Store, r: nat)
    requires ReservationsOk(s)
    ensures (r < |s.reservations| && s.reservations[r].status == Active) || Exec(s, Expire(r)) == Ok(s)
    ensures r < |s.reservations| && s.reservations[r].status == Active ==>
              var x := s.reservations[r];
              if s.inventories[x.inventory].reserved < x.quantity then Exec(s, Expire(r)) == Err(CheckFailed)
              else
                && Exec(s, Expire(r)).Ok?
                && OnlyReserved(s, Exec(s, Expire(r)).value, x.inventory,
                                s.inventories[x.inventory].reserved - x.quantity,
                                s.reservations[r := Reservation(x.inventory, x.quantity, Expired, x.expiresAt)])
  {
  }
}
