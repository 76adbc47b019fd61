/**
 The agreement between the five representations of the stock: inventory rows, lots, location
 volumes, the movement log and the sold counters. No single transaction states it; every
 transaction keeps it.
 */
module Ledger {
  import opened Options
  import opened Sums
  import opened Stock
  import opened FifoLoop

  /** Parts of the stock: one product at one location, a whole location, or a whole product. */
  datatype Region = At(product: nat, location: nat) | InLocation(location: nat) | OfProduct(product: nat) {
    predicate Has(p: nat, l: nat) {
      match this
      case At(a, b) => p == a && l == b
      case InLocation(b) => l == b
      case OfProduct(a) => p == a
    }
  }

  function If(b: bool, n: int): int { if b then n else 0 }

  /** Stock of the region according to the inventory rows. */
  function OnHand(r: Region): Inventory -> int {
    (inv: Inventory) => If(r.Has(inv.product, inv.location), inv.onHand)
  }

  /** What a movement adds to the region: replaying the log from empty is summing this. */
  function Net(r: Region): Movement -> int {
    (m: Movement) =>
      match m
      case Incoming(p, dest, q, _) => If(r.Has(p, dest), q)
      case Outgoing(p, source, q) => 0 - If(r.Has(p, source), q)
      case Moved(p, source, dest, q) => If(r.Has(p, dest), q) - If(r.Has(p, source), q)
  }

  function SoldOut(p: nat): Movement -> int {
    (m: Movement) => if m.Outgoing? && m.product == p then m.quantity else 0
  }

  function ReceivedIn(p: nat): Movement -> int {
    (m: Movement) => if m.Incoming? && m.product == p then m.quantity else 0
  }

  function ActiveOn(k: nat): Reservation -> int {
    (r: Reservation) => if r.inventory == k && r.status == Active then r.quantity else 0
  }

  // ---------------------------------------------------------------- the invariant

  ghost predicate RowsOk(rows: seq<Inventory>, products: nat, locations: nat) {
    && (forall k :: 0 <= k < |rows| ==> rows[k].product < products && rows[k].location < locations)
    && (forall j, k :: 0 <= j < k < |rows| ==>
        rows[j].product != rows[k].product || rows[j].location != rows[k].location)
    && (forall k :: 0 <= k < |rows| ==> 0 <= rows[k].reserved <= rows[k].onHand)
  }

  ghost predicate LotsOk(s: Store) {
    && Numbered(s.lots)
    && (forall i :: 0 <= i < |s.lots| ==> s.lots[i].card.inventory < |s.inventories|)
  }

  ghost predicate ReservationsOk(s: Store) {
    forall r :: 0 <= r < |s.reservations| ==>
                  s.reservations[r].inventory < |s.inventories| && 0 < s.reservations[r].quantity
  }

  /** The aggregate row says what its lots say. */
  ghost predicate LotsAgree(s: Store, k: nat) {
    k < |s.inventories| ==> s.inventories[k].onHand == LotsOnHand(s.lots, k)
  }

  /** The rows of a region say what the movement log says. */
  ghost predicate LogAgrees(s: Store, r: Region) {
    SumBy(s.inventories, OnHand(r)) == SumBy(s.movements, Net(r))
  }

  ghost predicate VolumeAgrees(s: Store, l: nat) {
    l < |s.locations| ==>
      s.locations[l].volume == SumBy(s.inventories, OnHand(InLocation(l)))
      && s.locations[l].volume <= s.locations[l].capacity
  }

  ghost predicate SoldAgrees(s: Store, p: nat) {
    p < |s.products| ==> s.products[p].soldCount == SumBy(s.movements, SoldOut(p))
  }

  /** Units held by active reservations beyond quantity_reserved. */
  function Drift(s: Store, k: nat): int
    requires k < |s.inventories|
  {
    SumBy(s.reservations, ActiveOn(k)) - s.inventories[k].reserved
  }

  ghost predicate ReservedAgrees(s: Store, k: nat) {
    k < |s.inventories| ==> 0 <= Drift(s, k)
  }

  ghost predicate Inv(s: Store) {
    && RowsOk(s.inventories, |s.products|, |s.locations|)
    && LotsOk(s)
    && ReservationsOk(s)
    && (forall k :: LotsAgree(s, k))
    && (forall r :: LogAgrees(s, r))
    && (forall l :: VolumeAgrees(s, l))
    && (forall p :: SoldAgrees(s, p))
    && (forall k :: ReservedAgrees(s, k))
  }

  lemma FreshInv(s: Store)
    requires Fresh(s)
    ensures Inv(s)
  {
    forall r
      ensures LogAgrees(s, r)
    {
    }
  }

  // ---------------------------------------------------------------- rows

  lemma {:induction false} FindRowUnique(rows: seq<Inventory>, k: nat)
    requires k < |rows|
    requires forall i, j :: 0 <= i < j < |rows| ==>
               rows[i].product != rows[j].product || rows[i].location != rows[j].location
    ensures FindRow(rows, rows[k].product, rows[k].location) == Some(k)
    decreases |rows|
  {
    var n := |rows| - 1;
    if k < n {
      assert rows[k].product != rows[n].product || rows[k].location != rows[n].location;
      FindRowUnique(rows[..n], k);
    }
  }

  lemma EnsureRowOk(rows: seq<Inventory>, p: nat, l: nat, products: nat, locations: nat)
    requires RowsOk(rows, products, locations) && p < products && l < locations
    ensures RowsOk(EnsureRow(rows, p, l), products, locations)
    ensures |EnsureRow(rows, p, l)| <= |rows| + 1
    ensures |EnsureRow(rows, p, l)| == |rows| + 1 ==>
              EnsureRow(rows, p, l)[|rows|] == Inventory(p, l, 0, 0) && RowOf(rows, p, l) == |rows|
    ensures EnsureRow(rows, p, l)[RowOf(rows, p, l)].product == p
            && EnsureRow(rows, p, l)[RowOf(rows, p, l)].location == l
  {
    if FindRow(rows, p, l).None? {
      FindRowUnique(EnsureRow(rows, p, l), |rows|);
    }
  }

  lemma EnsureRowTotal(rows: seq<Inventory>, p: nat, l: nat, f: Inventory -> int)
    requires f(Inventory(p, l, 0, 0)) == 0
    ensures SumBy(EnsureRow(rows, p, l), f) == SumBy(rows, f)
  {
    if FindRow(rows, p, l).None? {
      SumAppend(rows, Inventory(p, l, 0, 0), f);
    }
  }

  lemma AddOnHandTotal(rows: seq<Inventory>, k: nat, q: int, r: Region)
    requires k < |rows|
    ensures SumBy(AddOnHand(rows, k, q), OnHand(r)) ==
            SumBy(rows, OnHand(r)) + If(r.Has(rows[k].product, rows[k].location), q)
  {
    SumUpdate(rows, k, rows[k].(onHand := rows[k].onHand + q), OnHand(r));
  }

  /** A row that holds no lots and no reservation yet adds nothing to either total. */
  lemma NoLotsYet(s: Store, k: nat)
    requires LotsOk(s) && |s.inventories| <= k
    ensures LotsOnHand(s.lots, k) == 0
  {
    SumAgree(s.lots, Weigh(InRow(k)), (l: Lot) => 0);
    SumNothing(s.lots, (l: Lot) => 0);
  }

  lemma NoReservationsYet(s: Store, k: nat)
    requires ReservationsOk(s) && |s.inventories| <= k
    ensures SumBy(s.reservations, ActiveOn(k)) == 0
  {
    SumNothing(s.reservations, ActiveOn(k));
  }

  // ---------------------------------------------------------------- receipts

  lemma DepositRows(s: Store, p: nat, l: nat, q: Units, s': Store, k: nat)
    requires Inv(s) && p < |s.products| && l < |s.locations|
    requires s'.inventories == AddOnHand(EnsureRow(s.inventories, p, l), RowOf(s.inventories, p, l), q)
    requires k == RowOf(s.inventories, p, l)
    ensures RowsOk(s'.inventories, |s.products|, |s.locations|)
    ensures |s.inventories| <= |s'.inventories| && k < |s'.inventories|
    ensures forall r :: SumBy(s'.inventories, OnHand(r)) == SumBy(s.inventories, OnHand(r)) + If(r.Has(p, l), q)
  {
    hide SumBy, LotsOk, ReservationsOk, LotsAgree, LogAgrees, VolumeAgrees, SoldAgrees, ReservedAgrees, FindRow;
    var rows := EnsureRow(s.inventories, p, l);
    EnsureRowOk(s.inventories, p, l, |s.products|, |s.locations|);
    forall r: Region
      ensures SumBy(s'.inventories, OnHand(r)) == SumBy(s.inventories, OnHand(r)) + If(r.Has(p, l), q)
    {
      EnsureRowTotal(s.inventories, p, l, OnHand(r));
      AddOnHandTotal(rows, k, q, r);
    }
  }

  lemma DepositInv(s: Store, p: nat, l: nat, q: Units, cost: int, code: string, at: int, order: Option<nat>)
    requires Inv(s) && p < |s.products| && l < |s.locations|
    requires s.locations[l].volume + q <= s.locations[l].capacity
    requires Deposit(s, p, l, q, cost, code, at, order).Ok?
    ensures Inv(Deposit(s, p, l, q, cost, code, at, order).value)
  {
    hide SumBy, FindRow, CodeTaken;
    var s' := Deposit(s, p, l, q, cost, code, at, order).value;
    var k := RowOf(s.inventories, p, l);
    var rows := EnsureRow(s.inventories, p, l);
    var lot := Lot(Card(|s.lots|, k, None, code, q, cost, at), q, 0);
    DepositRows(s, p, l, q, s', k);
    EnsureRowOk(s.inventories, p, l, |s.products|, |s.locations|);
    forall j
      ensures LotsAgree(s', j)
    {
      assert LotsAgree(s, j);
      SumAppend(s.lots, lot, Weigh(InRow(j)));
      if |s.inventories| <= j {
        NoLotsYet(s, j);
      }
    }
    forall r
      ensures LogAgrees(s', r)
    {
      assert LogAgrees(s, r);
      SumAppend(s.movements, Incoming(p, l, q, order), Net(r));
    }
    forall m
      ensures VolumeAgrees(s', m)
    {
      assert VolumeAgrees(s, m);
    }
    forall a
      ensures SoldAgrees(s', a)
    {
      assert SoldAgrees(s, a);
      SumAppend(s.movements, Incoming(p, l, q, order), SoldOut(a));
    }
    forall j
      ensures ReservedAgrees(s', j)
    {
      assert ReservedAgrees(s, j);
      if |s.inventories| <= j {
        NoReservationsYet(s, j);
      }
    }
  }

  // ---------------------------------------------------------------- taking units out of a row

  /** The FIFO loop on row k moves q units out of k, and for a transfer into the destination row. */
  lemma DrainRowTotals(lots: seq<Lot>, seen: seq<Seen>, q: nat, use: Use, k: nat, j: nat)
    requires Observed(lots, seen) && AllIn(seen, k) && Drain(lots, seen, q, use).Ok?
    ensures LotsOnHand(Drain(lots, seen, q, use).value, j) ==
            LotsOnHand(lots, j) - If(j == k, q) + If(use.ForMove? && j == use.dest, q)
  {
    var h: Weight := (c: Card, n: nat) => if use.ForMove? && j == use.dest then n else 0;
    assert Linear(InRow(j)) && Linear(h) && ChildrenWeigh(use, InRow(j), h);
    DrainWeight(lots, seen, q, use, InRow(j), h);
    DrainTakesAll(lots, seen, q, use, InRow(j), j == k);
    DrainTakesAll(lots, seen, q, use, h, use.ForMove? && j == use.dest);
  }

  /** The lots table stays well formed, and new lots are in the destination row. */
  lemma DrainLotsOk(lots: seq<Lot>, seen: seq<Seen>, q: nat, use: Use, rows: nat)
    requires Numbered(lots) && Observed(lots, seen) && Drain(lots, seen, q, use).Ok?
    requires forall i :: 0 <= i < |lots| ==> lots[i].card.inventory < rows
    requires use.ForMove? ==> use.dest < rows
    ensures Numbered(Drain(lots, seen, q, use).value)
    ensures forall i :: 0 <= i < |Drain(lots, seen, q, use).value| ==>
              Drain(lots, seen, q, use).value[i].card.inventory < rows
  {
    DrainRows(lots, seen, q, use);
  }

  /** Lowering row k keeps the table, as long as the row keeps what is reserved. */
  lemma DecrementRowTotals(rows: seq<Inventory>, k: nat, q: int, products: nat, locations: nat)
    requires RowsOk(rows, products, locations) && k < |rows| && rows[k].reserved <= rows[k].onHand - q
    ensures RowsOk(AddOnHand(rows, k, 0 - q), products, locations)
    ensures forall r :: SumBy(AddOnHand(rows, k, 0 - q), OnHand(r)) ==
                        SumBy(rows, OnHand(r)) - If(r.Has(rows[k].product, rows[k].location), q)
  {
    forall r
      ensures SumBy(AddOnHand(rows, k, 0 - q), OnHand(r)) ==
              SumBy(rows, OnHand(r)) - If(r.Has(rows[k].product, rows[k].location), q)
    {
      AddOnHandTotal(rows, k, 0 - q, r);
    }
  }

  /** The stock of a location is non-negative and at least the stock of each of its rows. */
  lemma VolumeCoversRow(s: Store, k: nat)
    requires Inv(s) && k < |s.inventories|
    ensures s.inventories[k].onHand <= s.locations[s.inventories[k].location].volume
  {
    var l := s.inventories[k].location;
    assert VolumeAgrees(s, l);
    SumNonNegative(s.inventories, OnHand(InLocation(l)));
    assert OnHand(InLocation(l))(s.inventories[k]) == s.inventories[k].onHand;
  }

  lemma VolumeBounds(s: Store, l: nat)
    requires Inv(s) && l < |s.locations|
    ensures 0 <= s.locations[l].volume <= s.locations[l].capacity
  {
    assert VolumeAgrees(s, l);
    SumNonNegative(s.inventories, OnHand(InLocation(l)));
  }

  /** What a reader of row k sees, when the reader finds enough unreserved stock. */
  ghost predicate GoodTaking(s: Store, read: Taking, p: nat, l: nat, q: nat) {
    && read.row < |s.inventories|
    && s.inventories[read.row] == Inventory(p, l, read.onHand, read.reserved)
    && read.reserved + q <= read.onHand
    && read.seen == Fifo(s.lots, read.row)
  }

  /** A committed sale: what it read, and the lots it left. */
  lemma SellShape(s: Store, p: nat, l: nat, q: Units) returns (read: Taking)
    requires Exec(s, Sell(p, l, q)).Ok?
    ensures GoodTaking(s, read, p, l, q) && ReadSell(s, p, l, q) == Ok(read)
    ensures FindRow(s.inventories, p, l) == Some(read.row)
    ensures WriteSell(s, read, p, l, q) == Exec(s, Sell(p, l, q))
    ensures Drain(s.lots, read.seen, q, ForSale) == Ok(Exec(s, Sell(p, l, q)).value.lots)
    ensures Exec(s, Sell(p, l, q)).value.reservations == s.reservations
  {
    hide Drain, Fifo;
    read := ReadSell(s, p, l, q).value;
  }

  lemma SellInv(s: Store, read: Taking, p: nat, l: nat, q: Units)
    requires Inv(s) && GoodTaking(s, read, p, l, q) && WriteSell(s, read, p, l, q).Ok?
    ensures Inv(WriteSell(s, read, p, l, q).value)
  {
    hide SumBy, Fifo, Drain;
    var s' := WriteSell(s, read, p, l, q).value;
    var k := read.row;
    FifoList(s.lots, k);
    DrainLotsOk(s.lots, read.seen, q, ForSale, |s.inventories|);
    DecrementRowTotals(s.inventories, k, q, |s.products|, |s.locations|);
    forall j
      ensures LotsAgree(s', j)
    {
      assert LotsAgree(s, j);
      DrainRowTotals(s.lots, read.seen, q, ForSale, k, j);
    }
    forall r
      ensures LogAgrees(s', r)
    {
      assert LogAgrees(s, r);
      SumAppend(s.movements, Outgoing(p, l, q), Net(r));
    }
    forall m
      ensures VolumeAgrees(s', m)
    {
      assert VolumeAgrees(s, m);
    }
    forall a
      ensures SoldAgrees(s', a)
    {
      assert SoldAgrees(s, a);
      SumAppend(s.movements, Outgoing(p, l, q), SoldOut(a));
    }
    forall j
      ensures ReservedAgrees(s', j)
    {
      assert ReservedAgrees(s, j);
    }
  }

  ghost predicate GoodMoving(s: Store, read: Moving, p: nat, a: nat, b: nat, q: Units) {
    && GoodTaking(s, read.taking, p, a, q) && a != b && b < |s.locations|
    && read.capacity == s.locations[b].capacity
  }

  /** A committed transfer: what it read, and the lots and rows it left. */
  lemma TransferShape(s: Store, p: nat, a: nat, b: nat, q: Units, tag: string) returns (read: Moving)
    requires Exec(s, Transfer(p, a, b, q, tag)).Ok?
    ensures GoodMoving(s, read, p, a, b, q) && ReadTransfer(s, p, a, b, q) == Ok(read)
    ensures FindRow(s.inventories, p, a) == Some(read.taking.row)
    ensures WriteTransfer(s, read, p, a, b, q, tag) == Exec(s, Transfer(p, a, b, q, tag))
    ensures Drain(s.lots, read.taking.seen, q, ForMove(RowOf(s.inventories, p, b), tag)) ==
            Ok(Exec(s, Transfer(p, a, b, q, tag)).value.lots)
    ensures Exec(s, Transfer(p, a, b, q, tag)).value.reservations == s.reservations
  {
    hide Drain, Fifo, EnsureRow, RowOf;
    read := ReadTransfer(s, p, a, b, q).value;
  }

  lemma TransferRows(s: Store, read: Moving, p: nat, a: nat, b: nat, q: Units, tag: string)
    requires Inv(s) && GoodMoving(s, read, p, a, b, q) && WriteTransfer(s, read, p, a, b, q, tag).Ok?
    ensures var s' := WriteTransfer(s, read, p, a, b, q, tag).value;
            && RowsOk(s'.inventories, |s.products|, |s.locations|)
            && |s.inventories| <= |s'.inventories|
            && forall r :: SumBy(s'.inventories, OnHand(r)) ==
                           SumBy(s.inventories, OnHand(r)) - If(r.Has(p, a), q) + If(r.Has(p, b), q)
    ensures var s' := WriteTransfer(s, read, p, a, b, q, tag).value;
            forall j :: 0 <= j < |s'.inventories| ==>
              s'.inventories[j].onHand == (if j < |s.inventories| then s.inventories[j].onHand else 0)
                                          - If(j == read.taking.row, q) + If(j == RowOf(s.inventories, p, b), q)
              && s'.inventories[j].reserved == if j < |s.inventories| then s.inventories[j].reserved else 0
  {
    hide SumBy, Fifo, Drain, FindRow, LotsAgree, LogAgrees, VolumeAgrees,
         SoldAgrees, ReservedAgrees, LotsOk, ReservationsOk;
    var s' := WriteTransfer(s, read, p, a, b, q, tag).value;
    var k, d := read.taking.row, RowOf(s.inventories, p, b);
    var ensured := EnsureRow(s.inventories, p, b);
    EnsureRowOk(s.inventories, p, b, |s.products|, |s.locations|);
    DecrementRowTotals(ensured, k, q, |s.products|, |s.locations|);
    var lowered := AddOnHand(ensured, k, 0 - q);
    assert s'.inventories == AddOnHand(lowered, d, q);
    forall r
      ensures SumBy(s'.inventories, OnHand(r)) ==
                SumBy(s.inventories, OnHand(r)) - If(r.Has(p, a), q) + If(r.Has(p, b), q)
    {
      EnsureRowTotal(s.inventories, p, b, OnHand(r));
      AddOnHandTotal(lowered, d, q, r);
    }
  }

  /** A transfer keeps every row's product and location; its destination row is one of the product. */
  lemma TransferKeys(s: Store, read: Moving, p: nat, a: nat, b: nat, q: Units, tag: string)
    requires Inv(s) && GoodMoving(s, read, p, a, b, q) && WriteTransfer(s, read, p, a, b, q, tag).Ok?
    ensures var s', d := WriteTransfer(s, read, p, a, b, q, tag).value, RowOf(s.inventories, p, b);
            && |s.inventories| <= |s'.inventories|
            && d < |s'.inventories| && s'.inventories[d].product == p && d != read.taking.row
            && (forall k :: 0 <= k < |s.inventories| ==>
                  s'.inventories[k].product == s.inventories[k].product
                  && s'.inventories[k].location == s.inventories[k].location)
            && Drain(s.lots, read.taking.seen, q, ForMove(d, tag)) == Ok(s'.lots)
  {
    hide SumBy, Drain, Fifo, FindRow, LotsAgree, LogAgrees, VolumeAgrees,
         SoldAgrees, ReservedAgrees, LotsOk, ReservationsOk;
    EnsureRowOk(s.inventories, p, b, |s.products|, |s.locations|);
  }

  lemma TransferLots(s: Store, read: Moving, p: nat, a: nat, b: nat, q: Units, tag: string)
    requires Inv(s) && GoodMoving(s, read, p, a, b, q) && WriteTransfer(s, read, p, a, b, q, tag).Ok?
    ensures var s' := WriteTransfer(s, read, p, a, b, q, tag).value;
            LotsOk(s') && forall j :: LotsAgree(s', j)
  {
    hide SumBy, Fifo, Drain, FindRow;
    var s' := WriteTransfer(s, read, p, a, b, q, tag).value;
    var k, d := read.taking.row, RowOf(s.inventories, p, b);
    var use := ForMove(d, tag);
    TransferRows(s, read, p, a, b, q, tag);
    EnsureRowOk(s.inventories, p, b, |s.products|, |s.locations|);
    FifoList(s.lots, k);
    DrainLotsOk(s.lots, read.taking.seen, q, use, |s'.inventories|);
    forall j
      ensures LotsAgree(s', j)
    {
      assert LotsAgree(s, j);
      DrainRowTotals(s.lots, read.taking.seen, q, use, k, j);
      if |s.inventories| <= j {
        NoLotsYet(s, j);
      }
    }
  }

  lemma TransferInv(s: Store, read: Moving, p: nat, a: nat, b: nat, q: Units, tag: string)
    requires Inv(s) && GoodMoving(s, read, p, a, b, q) && WriteTransfer(s, read, p, a, b, q, tag).Ok?
    ensures Inv(WriteTransfer(s, read, p, a, b, q, tag).value)
  {
    hide SumBy, Fifo, Drain, FindRow, EnsureRow, RowOf;
    var s' := WriteTransfer(s, read, p, a, b, q, tag).value;
    TransferRows(s, read, p, a, b, q, tag);
    TransferLots(s, read, p, a, b, q, tag);
    forall r
      ensures LogAgrees(s', r)
    {
      assert LogAgrees(s, r);
      SumAppend(s.movements, Movement.Moved(p, a, b, q), Net(r));
    }
    forall m
      ensures VolumeAgrees(s', m)
    {
      assert VolumeAgrees(s, m);
    }
    forall x
      ensures SoldAgrees(s', x)
    {
      assert SoldAgrees(s, x);
      SumAppend(s.movements, Movement.Moved(p, a, b, q), SoldOut(x));
    }
    forall j
      ensures ReservedAgrees(s', j)
    {
      assert ReservedAgrees(s, j);
      if |s.inventories| <= j {
        NoReservationsYet(s, j);
      }
    }
  }

  // ---------------------------------------------------------------- reservations

  /** Changing what a row reserves changes no stock total. */
  lemma SetReservedTotal(rows: seq<Inventory>, k: nat, reserved: int, r: Region)
    requires k < |rows|
    ensures SumBy(rows[k := rows[k].(reserved := reserved)], OnHand(r)) == SumBy(rows, OnHand(r))
  {
    SumUpdate(rows, k, rows[k].(reserved := reserved), OnHand(r));
  }

  /** A step that only changes what row k reserves, and the reservations with it. */
  lemma ReservedStepInv(s: Store, s': Store, k: nat, reserved: int)
    requires Inv(s) && k < |s.inventories| && 0 <= reserved <= s.inventories[k].onHand
    requires s' == s.(inventories := s.inventories[k := s.inventories[k].(reserved := reserved)],
                      reservations := s'.reservations)
    requires ReservationsOk(s') && forall j :: ReservedAgrees(s', j)
    ensures Inv(s')
  {
    hide SumBy;
    forall j
      ensures LotsAgree(s', j)
    {
      assert LotsAgree(s, j);
    }
    forall r
      ensures SumBy(s'.inventories, OnHand(r)) == SumBy(s.inventories, OnHand(r)) && LogAgrees(s', r)
    {
      SetReservedTotal(s.inventories, k, reserved, r);
      assert LogAgrees(s, r);
    }
    forall m
      ensures VolumeAgrees(s', m)
    {
      assert VolumeAgrees(s, m);
    }
    forall a
      ensures SoldAgrees(s', a)
    {
      assert SoldAgrees(s, a);
    }
  }

  lemma ReserveInv(s: Store, read: Inventory, k: nat, q: Units, expiresAt: int)
    requires Inv(s) && WriteReserve(s, read, k, q, expiresAt).Ok? && q <= read.Available()
    ensures Inv(WriteReserve(s, read, k, q, expiresAt).value)
    ensures forall j :: 0 <= j < |s.inventories| ==>
              Drift(WriteReserve(s, read, k, q, expiresAt).value, j) == Drift(s, j)
  {
    hide SumBy;
    var s' := WriteReserve(s, read, k, q, expiresAt).value;
    forall j: nat
      ensures ReservedAgrees(s', j) && (j < |s.inventories| ==> Drift(s', j) == Drift(s, j))
    {
      assert ReservedAgrees(s, j);
      SumAppend(s.reservations, Reservation(k, q, Active, expiresAt), ActiveOn(j));
    }
    ReservedStepInv(s, s', k, read.reserved + q);
  }

  /** Taking q units off a row's reserved quantity without touching a reservation. */
  lemma UnnamedReleaseInv(s: Store, k: nat, q: nat)
    requires Inv(s) && Unreserve(s, k, q).Ok?
    ensures Inv(Unreserve(s, k, q).value)
    ensures forall j :: 0 <= j < |s.inventories| ==> Drift(Unreserve(s, k, q).value, j) == Drift(s, j) + If(j == k, q)
  {
    hide SumBy;
    var s' := Unreserve(s, k, q).value;
    forall j: nat
      ensures ReservedAgrees(s', j) && (j < |s.inventories| ==> Drift(s', j) == Drift(s, j) + If(j == k, q))
    {
      assert ReservedAgrees(s, j);
    }
    ReservedStepInv(s, s', k, s.inventories[k].reserved - q);
  }

  /** Ending an active reservation and returning its units. */
  lemma EndReservationInv(s: Store, r: nat, status: Status)
    requires Inv(s) && r < |s.reservations| && s.reservations[r].status == Active && status != Active
    requires Unreserve(s, s.reservations[r].inventory, s.reservations[r].quantity).Ok?
    ensures var s' := SetStatus(Unreserve(s, s.reservations[r].inventory, s.reservations[r].quantity).value, r, status);
            Inv(s') && forall j :: 0 <= j < |s.inventories| ==> Drift(s', j) == Drift(s, j)
  {
    hide SumBy;
    var x := s.reservations[r];
    var s' := SetStatus(Unreserve(s, x.inventory, x.quantity).value, r, status);
    forall j: nat
      ensures ReservedAgrees(s', j) && (j < |s.inventories| ==> Drift(s', j) == Drift(s, j))
    {
      assert ReservedAgrees(s, j);
      SumUpdate(s.reservations, r, x.(status := status), ActiveOn(j));
    }
    ReservedStepInv(s, s', x.inventory, s.inventories[x.inventory].reserved - x.quantity);
  }

  // ---------------------------------------------------------------- every transaction, every run

  lemma AcceptInv(s: Store, p: nat, l: nat, q: Units, cost: int, code: string, at: int, order: nat)
    requires Inv(s) && ExecAccept(s, p, l, q, cost, code, at, order).Ok?
    ensures Inv(ExecAccept(s, p, l, q, cost, code, at, order).value)
  {
    hide Inv, Deposit;
    DepositInv(s, p, l, q, cost, code, at, Some(order));
  }

  /** A transaction that commits keeps the five representations in agreement. */
  lemma ExecInv(s: Store, op: Op)
    requires Inv(s) && Exec(s, op).Ok?
    ensures Inv(Exec(s, op).value)
  {
    hide SumBy, Inv, Drain, Fifo, WriteSell, WriteTransfer, Deposit;
    match op
    case Accept(p, l, q, cost, code, at, order) => AcceptInv(s, p, l, q, cost, code, at, order);
    case Receive(p, l, q, cost, code, at) => DepositInv(s, p, l, q, cost, code, at, None);
    case Sell(p, l, q) =>
      var read := SellShape(s, p, l, q);
      SellInv(s, read, p, l, q);
    case Transfer(p, a, b, q, tag) =>
      var read := TransferShape(s, p, a, b, q, tag);
      TransferInv(s, read, p, a, b, q, tag);
    case Reserve(k, q, expiresAt) => ReserveInv(s, ReadReserve(s, k, q).value, k, q, expiresAt);
    case Release(k, q, None) => UnnamedReleaseInv(s, k, q);
    case Release(k, q, Some(r)) => EndReservationInv(s, r, Released);
    case Expire(r) =>
      if r < |s.reservations| && s.reservations[r].status == Active {
        EndReservationInv(s, r, Expired);
      }
  }

  /** In every state that any run reaches from an empty store, the representations agree. */
  lemma {:induction false} RunInv(s: Store, ops: seq<Op>)
    requires Inv(s)
    ensures Inv(Run(s, ops))
    decreases |ops|
  {
    if ops != [] {
      var before := Run(s, ops[..|ops| - 1]);
      RunInv(s, ops[..|ops| - 1]);
      if Exec(before, ops[|ops| - 1]).Ok? {
        ExecInv(before, ops[|ops| - 1]);
      }
    }
  }

  // ---------------------------------------------------------------- what the agreement gives

  /**
   From an empty store, whatever transactions ran: the inventory rows of any region, the volumes and
   the sold counters are what replaying the movement log gives.
   */
  lemma LogIsTheStock(s: Store, ops: seq<Op>, p: nat, l: nat)
    requires Fresh(s)
    ensures var s' := Run(s, ops);
            && SumBy(s'.inventories, OnHand(At(p, l))) == SumBy(s'.movements, Net(At(p, l)))
            && (l < |s'.locations| ==> s'.locations[l].volume == SumBy(s'.movements, Net(InLocation(l))))
            && (p < |s'.products| ==> s'.products[p].soldCount == SumBy(s'.movements, SoldOut(p)))
  {
    hide SumBy;
    var s' := Run(s, ops);
    FreshInv(s);
    RunInv(s, ops);
    assert LogAgrees(s', At(p, l)) && LogAgrees(s', InLocation(l)) && VolumeAgrees(s', l) && SoldAgrees(s', p);
  }

  /** One product at one location has at most one row, so the region total is that row's quantity. */
  lemma RegionIsRow(s: Store, k: nat)
    requires RowsOk(s.inventories, |s.products|, |s.locations|) && k < |s.inventories|
    ensures SumBy(s.inventories, OnHand(At(s.inventories[k].product, s.inventories[k].location))) ==
              s.inventories[k].onHand
  {
    var row := s.inventories[k];
    var f := OnHand(At(row.product, row.location));
    var others := s.inventories[k := row.(onHand := 0)];
    SumUpdate(s.inventories, k, row.(onHand := 0), f);
    forall i | 0 <= i < |others|
      ensures f(others[i]) == 0
    {
    }
    SumNothing(others, f);
  }

  lemma UnitsConserved(s: Store, p: nat)
    requires Inv(s) && p < |s.products|
    ensures SumBy(s.inventories, OnHand(OfProduct(p))) + s.products[p].soldCount == SumBy(s.movements, ReceivedIn(p))
  {
    assert LogAgrees(s, OfProduct(p)) && SoldAgrees(s, p);
    SumSplit(s.movements, Net(OfProduct(p)), SoldOut(p), ReceivedIn(p));
  }

  /** Units of a product are conserved: on hand everywhere plus sold is what was ever received. */
  lemma Conservation(s: Store, ops: seq<Op>, p: nat)
    requires Fresh(s) && p < |s.products|
    ensures var s' := Run(s, ops);
            && p < |s'.products|
            && SumBy(s'.inventories, OnHand(OfProduct(p))) + s'.products[p].soldCount ==
                 SumBy(s'.movements, ReceivedIn(p))
  {
    var s' := Run(s, ops);
    FreshInv(s);
    RunInv(s, ops);
    RunKeepsTables(s, ops);
    UnitsConserved(s', p);
  }

  lemma ExecKeepsTables(s: Store, op: Op)
    requires Exec(s, op).Ok?
    ensures |Exec(s, op).value.products| == |s.products| && |Exec(s, op).value.locations| == |s.locations|
    ensures forall l :: 0 <= l < |s.locations| ==>
              Exec(s, op).value.locations[l] == s.locations[l].(volume := Exec(s, op).value.locations[l].volume)
  {
    hide Drain, Fifo, ReadTaking, DecrementRow, EnsureRow, RowOf;
  }

  lemma {:induction false} RunKeepsTables(s: Store, ops: seq<Op>)
    ensures |Run(s, ops).products| == |s.products| && |Run(s, ops).locations| == |s.locations|
    ensures forall l :: 0 <= l < |s.locations| ==>
              Run(s, ops).locations[l] == s.locations[l].(volume := Run(s, ops).locations[l].volume)
    decreases |ops|
  {
    hide Exec;
    if ops != [] {
      var before, op := Run(s, ops[..|ops| - 1]), ops[|ops| - 1];
      RunKeepsTables(s, ops[..|ops| - 1]);
      if Exec(before, op).Ok? {
        ExecKeepsTables(before, op);
      }
    }
  }

  /** No location is ever over its capacity or below zero, although a transfer's source decrement has no guard. */
  lemma VolumesStayInBounds(s: Store, ops: seq<Op>, l: nat)
    requires Fresh(s) && l < |s.locations|
    ensures |Run(s, ops).locations| == |s.locations|
    ensures 0 <= Run(s, ops).locations[l].volume <= s.locations[l].capacity
  {
    FreshInv(s);
    RunInv(s, ops);
    RunKeepsTables(s, ops);
    VolumeBounds(Run(s, ops), l);
  }
}
