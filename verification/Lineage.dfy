/** Lots form a forest by parent_lot_id, and every receipt is conserved inside its tree. */
module Lineage {
  import opened Options
  import opened Sums
  import opened Stock
  import opened FifoLoop
  import opened Ledger

  function ReceivedFrom(i: nat): Lot -> int {
    (l: Lot) => if l.card.parent == Some(i) then l.card.received as int else 0
  }

  /** A child comes after its parent and inherits its cost and its receipt time. */
  ghost predicate Inherits(lots: seq<Lot>, i: nat)
    requires i < |lots|
  {
    var c := lots[i].card;
    c.parent.Some? ==>
      c.parent.value < i && lots[c.parent.value].card.cost == c.cost
      && lots[c.parent.value].card.receivedAt == c.receivedAt
  }

  /** What a lot received is still there, was sold from it, or was handed to its children. */
  ghost predicate Conserves(lots: seq<Lot>, i: nat)
    requires i < |lots|
  {
    lots[i].card.received == lots[i].onHand + lots[i].sold + SumBy(lots, ReceivedFrom(i))
  }

  ghost predicate CodesUnique(lots: seq<Lot>) {
    forall i, j :: 0 <= i < j < |lots| ==> lots[i].card.code != lots[j].card.code
  }

  ghost predicate Forest(lots: seq<Lot>) {
    && Numbered(lots)
    && CodesUnique(lots)
    && (forall i :: 0 <= i < |lots| ==> Inherits(lots, i))
    && (forall i :: 0 <= i < |lots| ==> Conserves(lots, i))
    && (forall i :: 0 <= i < |lots| ==> 0 < lots[i].card.received)
  }

  /** Nothing is a child of a lot that does not exist yet. */
  lemma NoChildrenYet(lots: seq<Lot>, i: nat)
    requires forall j :: 0 <= j < |lots| ==> Inherits(lots, j)
    requires |lots| <= i
    ensures SumBy(lots, ReceivedFrom(i)) == 0
  {
    forall j | 0 <= j < |lots|
      ensures ReceivedFrom(i)(lots[j]) == 0
    {
      assert Inherits(lots, j);
    }
    SumNothing(lots, ReceivedFrom(i));
  }

  lemma AppendForest(lots: seq<Lot>, l: Lot)
    requires Forest(lots) && l.card.id == |lots| && l.card.parent.None? && !CodeTaken(lots, l.card.code)
    requires 0 < l.card.received && l.onHand == l.card.received && l.sold == 0
    ensures Forest(lots + [l])
  {
    hide SumBy;
    var lots' := lots + [l];
    forall i | 0 <= i < |lots'|
      ensures Conserves(lots', i) && Inherits(lots', i)
    {
      SumAppend(lots, l, ReceivedFrom(i));
      if i < |lots| {
        assert Conserves(lots, i) && Inherits(lots, i);
      } else {
        NoChildrenYet(lots, i);
      }
    }
  }

  lemma SaleForest(lots: seq<Lot>, c: Card, t: nat)
    requires Forest(lots) && c.id < |lots| && lots[c.id].card == c && t <= lots[c.id].onHand
    ensures Forest(TakeFrom(lots, c, t, ForSale))
  {
    hide SumBy;
    var lots' := TakeFrom(lots, c, t, ForSale);
    forall i | 0 <= i < |lots'|
      ensures Conserves(lots', i) && Inherits(lots', i)
    {
      assert Conserves(lots, i) && Inherits(lots, i);
      SumUpdate(lots, c.id, lots'[c.id], ReceivedFrom(i));
    }
  }

  lemma MoveForest(lots: seq<Lot>, c: Card, t: nat, dest: nat, tag: string)
    requires Forest(lots) && c.id < |lots| && lots[c.id].card == c && 0 < t <= lots[c.id].onHand
    requires !CodeTaken(lots, Child(c, |lots|, dest, tag, t).code)
    ensures Forest(TakeFrom(lots, c, t, ForMove(dest, tag)))
  {
    hide SumBy;
    var lots' := TakeFrom(lots, c, t, ForMove(dest, tag));
    var lowered := lots[c.id := Lot(c, lots[c.id].onHand - t, lots[c.id].sold)];
    var child := Lot(Child(c, |lots|, dest, tag, t), t, 0);
    assert lots' == lowered + [child];
    forall i | 0 <= i < |lots'|
      ensures Conserves(lots', i) && Inherits(lots', i)
    {
      SumUpdate(lots, c.id, lowered[c.id], ReceivedFrom(i));
      SumAppend(lowered, child, ReceivedFrom(i));
      if i < |lots| {
        assert Conserves(lots, i) && Inherits(lots, i);
      } else {
        NoChildrenYet(lots, i);
      }
    }
  }

  /** The FIFO loop keeps the forest, for a sale and for a transfer. */
  lemma {:induction false} DrainForest(lots: seq<Lot>, seen: seq<Seen>, q: nat, use: Use)
    requires Forest(lots) && Observed(lots, seen) && Drain(lots, seen, q, use).Ok?
    ensures Forest(Drain(lots, seen, q, use).value)
    decreases |seen|
  {
    hide Forest;
    if q > 0 {
      var t := Min(seen[0].onHand, q);
      if t == 0 {
        assert Observed(lots, seen[1..]);
        DrainForest(lots, seen[1..], q, use);
      } else {
        TakeKeepsObserved(lots, seen, t, use);
        match use {
          case ForSale => SaleForest(lots, seen[0].card, t);
          case ForMove(dest, tag) => MoveForest(lots, seen[0].card, t, dest, tag);
        }
        DrainForest(TakeFrom(lots, seen[0].card, t, use), seen[1..], q - t, use);
      }
    }
  }

  // ---------------------------------------------------------------- products along the tree

  function ProductOf(s: Store, i: nat): nat
    requires i < |s.lots| && s.lots[i].card.inventory < |s.inventories|
  {
    s.inventories[s.lots[i].card.inventory].product
  }

  ghost predicate SameProduct(s: Store)
    requires LotsOk(s)
  {
    forall i :: 0 <= i < |s.lots| && s.lots[i].card.parent.Some? && s.lots[i].card.parent.value < i ==>
                  ProductOf(s, i) == ProductOf(s, s.lots[i].card.parent.value)
  }

  ghost predicate LineageInv(s: Store) {
    Inv(s) && Forest(s.lots) && SameProduct(s)
  }

  lemma DepositLineage(s: Store, p: nat, l: nat, q: Units, cost: int, code: string, at: int, order: Option<nat>)
    requires LineageInv(s) && p < |s.products| && l < |s.locations|
    requires s.locations[l].volume + q <= s.locations[l].capacity
    requires Deposit(s, p, l, q, cost, code, at, order).Ok?
    ensures LineageInv(Deposit(s, p, l, q, cost, code, at, order).value)
  {
    hide Inv, FindRow;
    var lot := Lot(Card(|s.lots|, RowOf(s.inventories, p, l), None, code, q, cost, at), q, 0);
    InvLots(s);
    DepositInv(s, p, l, q, cost, code, at, order);
    InvLots(Deposit(s, p, l, q, cost, code, at, order).value);
    AppendForest(s.lots, lot);
  }

  lemma SellLineage(s: Store, read: Taking, p: nat, l: nat, q: Units)
    requires LineageInv(s) && GoodTaking(s, read, p, l, q) && WriteSell(s, read, p, l, q).Ok?
    ensures LineageInv(WriteSell(s, read, p, l, q).value)
  {
    hide Forest, Inv, Drain, Fifo;
    SellInv(s, read, p, l, q);
    InvLots(s);
    InvLots(WriteSell(s, read, p, l, q).value);
    assert Numbered(s.lots);
    FifoList(s.lots, read.row);
    DrainForest(s.lots, read.seen, q, ForSale);
    DrainRows(s.lots, read.seen, q, ForSale);
  }

  /** A child lot is in a row of its parent's product. */
  lemma TransferProducts(s: Store, read: Moving, p: nat, a: nat, b: nat, q: Units, tag: string)
    requires LineageInv(s) && GoodMoving(s, read, p, a, b, q) && WriteTransfer(s, read, p, a, b, q, tag).Ok?
    requires LotsOk(WriteTransfer(s, read, p, a, b, q, tag).value)
    ensures SameProduct(WriteTransfer(s, read, p, a, b, q, tag).value)
  {
    hide Forest, Inv, Drain, Fifo, RowOf, WriteTransfer;
    var s' := WriteTransfer(s, read, p, a, b, q, tag).value;
    var seen, use := read.taking.seen, ForMove(RowOf(s.inventories, p, b), tag);
    TransferKeys(s, read, p, a, b, q, tag);
    InvLots(s);
    FifoList(s.lots, read.taking.row);
    DrainRows(s.lots, seen, q, use);
    forall i | 0 <= i < |s'.lots| && s'.lots[i].card.parent.Some? && s'.lots[i].card.parent.value < i
      ensures ProductOf(s', i) == ProductOf(s', s'.lots[i].card.parent.value)
    {
      if i < |s.lots| {
        assert ProductOf(s, i) == ProductOf(s, s.lots[i].card.parent.value);
      } else {
        ParentIn(s.lots, seen, q, use, i, read.taking.row);
      }
    }
  }

  /** The parent of a created lot is in the row that was taken from. */
  lemma ParentIn(lots: seq<Lot>, seen: seq<Seen>, q: nat, use: Use, i: nat, k: nat)
    requires Observed(lots, seen) && AllIn(seen, k) && Drain(lots, seen, q, use).Ok?
    requires |lots| <= i < |Drain(lots, seen, q, use).value|
    ensures var parent := Drain(lots, seen, q, use).value[i].card.parent;
            parent.Some? && parent.value < |lots| && lots[parent.value].card.inventory == k
  {
    hide Drain;
    ParentObserved(lots, seen, q, use, i);
  }

  lemma TransferLineage(s: Store, read: Moving, p: nat, a: nat, b: nat, q: Units, tag: string)
    requires LineageInv(s) && GoodMoving(s, read, p, a, b, q) && WriteTransfer(s, read, p, a, b, q, tag).Ok?
    ensures LineageInv(WriteTransfer(s, read, p, a, b, q, tag).value)
  {
    hide Forest, Inv, Drain, Fifo, SameProduct, WriteTransfer;
    var s' := WriteTransfer(s, read, p, a, b, q, tag).value;
    TransferInv(s, read, p, a, b, q, tag);
    TransferKeys(s, read, p, a, b, q, tag);
    InvLots(s);
    InvLots(s');
    TransferProducts(s, read, p, a, b, q, tag);
    FifoList(s.lots, read.taking.row);
    DrainForest(s.lots, read.taking.seen, q, ForMove(RowOf(s.inventories, p, b), tag));
  }

  /** Reservation transactions keep the lots and the products of rows. */
  lemma LotsUntouched(s: Store, op: Op)
    requires LineageInv(s) && Exec(s, op).Ok? && (op.Reserve? || op.Release? || op.Expire?)
    ensures LineageInv(Exec(s, op).value)
  {
    hide Forest, Inv;
    ExecInv(s, op);
    InvLots(s);
    InvLots(Exec(s, op).value);
    assert Exec(s, op).value.lots == s.lots;
    assert forall k :: 0 <= k < |s.inventories| ==>
             Exec(s, op).value.inventories[k].product == s.inventories[k].product;
  }

  lemma InvLots(s: Store)
    requires Inv(s)
    ensures LotsOk(s)
  {
  }

  lemma ExecLineage(s: Store, op: Op)
    requires LineageInv(s) && Exec(s, op).Ok?
    ensures LineageInv(Exec(s, op).value)
  {
    hide LineageInv, Drain, Fifo, WriteSell, WriteTransfer, Deposit;
    match op
    case Receive(p, l, q, cost, code, at) => DepositLineage(s, p, l, q, cost, code, at, None);
    case Accept(p, l, q, cost, code, at, order) => DepositLineage(s, p, l, q, cost, code, at, Some(order));
    case Sell(p, l, q) =>
      var read := SellShape(s, p, l, q);
      SellLineage(s, read, p, l, q);
    case Transfer(p, a, b, q, tag) =>
      var read := TransferShape(s, p, a, b, q, tag);
      TransferLineage(s, read, p, a, b, q, tag);
    case Reserve(_, _, _) => LotsUntouched(s, op);
    case Release(_, _, _) => LotsUntouched(s, op);
    case Expire(_) => LotsUntouched(s, op);
  }

  lemma {:induction false} RunLineage(s: Store, ops: seq<Op>)
    requires LineageInv(s)
    ensures LineageInv(Run(s, ops))
    decreases |ops|
  {
    if ops != [] {
      var before := Run(s, ops[..|ops| - 1]);
      RunLineage(s, ops[..|ops| - 1]);
      if Exec(before, ops[|ops| - 1]).Ok? {
        ExecLineage(before, ops[|ops| - 1]);
      }
    }
  }

  // ---------------------------------------------------------------- trees

  /** Lot i is r or comes from r by a chain of transfers. */
  predicate Descends(lots: seq<Lot>, i: nat, r: nat)
    decreases i
  {
    i == r || (i < |lots| && lots[i].card.parent.Some? && lots[i].card.parent.value < i
               && Descends(lots, lots[i].card.parent.value, r))
  }

  /** Units of a lot that are on hand or sold, when the lot is in the tree of r. */
  function InTree(lots: seq<Lot>, r: nat): Lot -> int {
    (l: Lot) => if Descends(lots, l.card.id, r) then l.onHand + l.sold else 0
  }

  function ReceivedInTree(lots: seq<Lot>, r: nat): Lot -> int {
    (l: Lot) => if Descends(lots, l.card.id, r) then l.card.received as int else 0
  }

  function ReceivedBelow(lots: seq<Lot>, r: nat): Lot -> int {
    (l: Lot) =>
      if l.card.parent.Some? && Descends(lots, l.card.parent.value, r) then l.card.received as int else 0
  }

  /** What the first m lots received from lot l, when l is in the tree. */
  function FromTree(lots: seq<Lot>, r: nat, m: nat): Lot -> int
    requires m <= |lots|
  {
    (l: Lot) => if Descends(lots, l.card.id, r) then SumBy(lots[..m], ReceivedFrom(l.card.id)) else 0
  }

  lemma {:induction false} DescendantsComeLater(lots: seq<Lot>, i: nat, r: nat)
    requires Descends(lots, i, r)
    ensures r <= i
    decreases i
  {
    if i != r {
      DescendantsComeLater(lots, lots[i].card.parent.value, r);
    }
  }

  /** Summing over parents and then over their children is summing over the children. */
  lemma {:induction false} SwapSums(lots: seq<Lot>, r: nat, m: nat)
    requires Numbered(lots) && m <= |lots|
    requires forall i :: 0 <= i < |lots| ==> Inherits(lots, i)
    ensures SumBy(lots, FromTree(lots, r, m)) == SumBy(lots[..m], ReceivedBelow(lots, r))
    decreases m
  {
    if m == 0 {
      SumNothing(lots, FromTree(lots, r, 0));
    } else {
      hide SumBy;
      var c := lots[m - 1];
      var one := (l: Lot) => if Descends(lots, l.card.id, r) then ReceivedFrom(l.card.id)(c) else 0;
      assert lots[..m] == lots[..m - 1] + [c];
      forall i | 0 <= i < |lots|
        ensures FromTree(lots, r, m)(lots[i]) == FromTree(lots, r, m - 1)(lots[i]) + one(lots[i])
      {
        SumAppend(lots[..m - 1], c, ReceivedFrom(i));
      }
      SumSplit(lots, FromTree(lots, r, m - 1), one, FromTree(lots, r, m));
      SumAppend(lots[..m - 1], c, ReceivedBelow(lots, r));
      SwapSums(lots, r, m - 1);
      assert Inherits(lots, m - 1);
      var j := if c.card.parent.Some? then c.card.parent.value else |lots|;
      SumPoint(lots, |lots|, one, j);
      assert lots[..|lots|] == lots;
    }
  }

  /** A lot's receipt is exactly what is on hand or sold in the whole tree below it. */
  lemma TreeConserved(lots: seq<Lot>, r: nat)
    requires Forest(lots) && r < |lots|
    ensures SumBy(lots, InTree(lots, r)) == lots[r].card.received
  {
    hide SumBy;
    var n := |lots|;
    var own := (l: Lot) => if l.card.id == r then l.card.received as int else 0;
    assert lots[..n] == lots;
    forall i | 0 <= i < n
      ensures ReceivedInTree(lots, r)(lots[i]) == InTree(lots, r)(lots[i]) + FromTree(lots, r, n)(lots[i])
      ensures ReceivedInTree(lots, r)(lots[i]) == own(lots[i]) + ReceivedBelow(lots, r)(lots[i])
    {
      assert Conserves(lots, i) && Inherits(lots, i);
      if i == r && lots[r].card.parent.Some? && Descends(lots, lots[r].card.parent.value, r) {
        DescendantsComeLater(lots, lots[r].card.parent.value, r);
      }
    }
    SumSplit(lots, InTree(lots, r), FromTree(lots, r, n), ReceivedInTree(lots, r));
    SumSplit(lots, own, ReceivedBelow(lots, r), ReceivedInTree(lots, r));
    SwapSums(lots, r, n);
    SumPoint(lots, n, own, r);
  }

  /** Every lot of a tree has the cost, the receipt time and the product of its root. */
  lemma {:induction false} TreeInherits(s: Store, i: nat, r: nat)
    requires LineageInv(s) && i < |s.lots| && Descends(s.lots, i, r)
    ensures r <= i
    ensures s.lots[i].card.cost == s.lots[r].card.cost && s.lots[i].card.receivedAt == s.lots[r].card.receivedAt
    ensures ProductOf(s, i) == ProductOf(s, r)
    decreases i
  {
    if i != r {
      assert Inherits(s.lots, i);
      TreeInherits(s, s.lots[i].card.parent.value, r);
    }
  }

  /**
   In any run from an empty store: parent links lead to earlier lots, every lot's receipt is conserved
   inside its tree, and every lot of the tree carries the root's cost, receipt time and product.
   */
  lemma LineageOfRuns(s: Store, ops: seq<Op>, r: nat)
    requires Fresh(s) && r < |Run(s, ops).lots|
    ensures var s' := Run(s, ops);
            && LotsOk(s')
            && SumBy(s'.lots, InTree(s'.lots, r)) == s'.lots[r].card.received
            && (s'.lots[r].card.parent.Some? ==> s'.lots[r].card.parent.value < r)
            && forall i :: 0 <= i < |s'.lots| && Descends(s'.lots, i, r) ==>
                 && s'.lots[i].card.cost == s'.lots[r].card.cost
                 && s'.lots[i].card.receivedAt == s'.lots[r].card.receivedAt
                 && ProductOf(s', i) == ProductOf(s', r)
  {
    var s' := Run(s, ops);
    FreshInv(s);
    RunLineage(s, ops);
    TreeConserved(s'.lots, r);
    assert Inherits(s'.lots, r);
    forall i | 0 <= i < |s'.lots| && Descends(s'.lots, i, r)
      ensures s'.lots[i].card.cost == s'.lots[r].card.cost && s'.lots[i].card.receivedAt == s'.lots[r].card.receivedAt
      ensures ProductOf(s', i) == ProductOf(s', r)
    {
      TreeInherits(s', i, r);
    }
  }
}
