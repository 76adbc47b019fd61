/** Cost layers: what transfers and sales do to the value of the stock. */
module Valuation {
  import opened Options
  import opened Sums
  import opened Stock
  import opened FifoLoop
  import opened Ledger
  import opened Lineage

  /** Units of a product received at one time for one cost, over all locations. */
  function Layer(rows: seq<Inventory>, p: nat, at: int, cost: int): Weight {
    (c: Card, n: nat) =>
      if c.inventory < |rows| && rows[c.inventory].product == p && c.receivedAt == at && c.cost == cost then n else 0
  }

  /** Cost of units of a lot. */
  function Worth(): Weight { (c: Card, n: nat) => n * c.cost }

  function LayerUnits(s: Store, p: nat, at: int, cost: int): int {
    SumBy(s.lots, Weigh(Layer(s.inventories, p, at, cost)))
  }

  function Value(s: Store): int { SumBy(s.lots, Weigh(Worth())) }

  /** Cost of everything that was ever sold, lot by lot. */
  function CostOfSales(s: Store): int { SumBy(s.lots, WeighSold(Worth())) }

  /** Cost of everything that was ever received from outside. */
  function ReceiptCost(): Lot -> int {
    (l: Lot) => if l.card.parent.None? then l.card.received * l.card.cost else 0
  }

  lemma WorthLinear()
    ensures Linear(Worth())
  {
    forall c: Card, a: nat, b: nat
      ensures Adds(Worth(), c, a, b)
    {
      assert (a + b) * c.cost == a * c.cost + b * c.cost;
    }
  }

  /** The units taken weigh in the child lots what they weighed in the parents. */
  lemma LayersMeet(lots: seq<Lot>, seen: seq<Seen>, q: nat, use: Use, w: Weight, h: Weight,
                   rows: seq<Inventory>, x: nat, at: int, cost: int)
    requires Observed(lots, seen) && Drain(lots, seen, q, use).Ok? && use.ForMove?
    requires w == Layer(rows, x, at, cost) && use.dest < |rows|
    requires forall m, n: nat :: 0 <= m < |seen| ==> w(seen[m].card, n) == h(seen[m].card, n)
    requires forall c, n: nat ::
               h(c, n) == if rows[use.dest].product == x && c.receivedAt == at && c.cost == cost then n else 0
    ensures SumBy(Drain(lots, seen, q, use).value, Weigh(w)) == SumBy(lots, Weigh(w))
  {
    hide SumBy;
    assert Linear(w) && Linear(h) && ChildrenWeigh(use, w, h);
    DrainWeight(lots, seen, q, use, w, h);
    SameTaken(seen, q, w, h);
  }

  /** Rows that keep their products give a lot the same place in every layer. */
  lemma LayersStable(lots: seq<Lot>, rows: seq<Inventory>, rows': seq<Inventory>, x: nat, at: int, cost: int)
    requires |rows| <= |rows'| && forall k :: 0 <= k < |rows| ==> rows'[k].product == rows[k].product
    requires forall i :: 0 <= i < |lots| ==> lots[i].card.inventory < |rows|
    ensures SumBy(lots, Weigh(Layer(rows', x, at, cost))) == SumBy(lots, Weigh(Layer(rows, x, at, cost)))
  {
    SumAgree(lots, Weigh(Layer(rows, x, at, cost)), Weigh(Layer(rows', x, at, cost)));
  }

  /** No transfer changes any cost layer of any product. */
  lemma TransferKeepsLayers(s: Store, p: nat, a: nat, b: nat, q: Units, tag: string, x: nat, at: int, cost: int)
    requires Inv(s) && Exec(s, Transfer(p, a, b, q, tag)).Ok?
    ensures LayerUnits(Exec(s, Transfer(p, a, b, q, tag)).value, x, at, cost) == LayerUnits(s, x, at, cost)
  {
    hide SumBy, Inv, Exec, WriteTransfer, Drain, Fifo, Weigh, RowOf;
    var s' := Exec(s, Transfer(p, a, b, q, tag)).value;
    var read := TransferShape(s, p, a, b, q, tag);
    var row, seen, d := read.taking.row, read.taking.seen, RowOf(s.inventories, p, b);
    var w': Weight := Layer(s'.inventories, x, at, cost);
    var h: Weight := (c: Card, n: nat) => if p == x && c.receivedAt == at && c.cost == cost then n else 0;
    TransferKeys(s, read, p, a, b, q, tag);
    InvLots(s);
    FifoList(s.lots, row);
    LayersStable(s.lots, s.inventories, s'.inventories, x, at, cost);
    LayersMeet(s.lots, seen, q, ForMove(d, tag), w', h, s'.inventories, x, at, cost);
  }

  /** A transfer leaves the value of the stock alone, and the cost of sales too. */
  lemma TransferKeepsValue(s: Store, p: nat, a: nat, b: nat, q: Units, tag: string)
    requires Inv(s) && Exec(s, Transfer(p, a, b, q, tag)).Ok?
    ensures Value(Exec(s, Transfer(p, a, b, q, tag)).value) == Value(s)
    ensures CostOfSales(Exec(s, Transfer(p, a, b, q, tag)).value) == CostOfSales(s)
  {
    hide SumBy, Exec, Fifo, Drain, Weigh, WeighSold;
    var moving := TransferShape(s, p, a, b, q, tag);
    var read := moving.taking;
    var use := ForMove(RowOf(s.inventories, p, b), tag);
    FifoList(s.lots, read.row);
    WorthLinear();
    assert ChildrenWeigh(use, Worth(), Worth());
    DrainWeight(s.lots, read.seen, q, use, Worth(), Worth());
  }

  /** A sale turns exactly the cost of the units it takes, oldest first, from value into cost of sales. */
  lemma SaleMovesValue(s: Store, p: nat, l: nat, q: Units)
    requires Inv(s) && Exec(s, Sell(p, l, q)).Ok?
    ensures var cost := TakenWeight(Fifo(s.lots, FindRow(s.inventories, p, l).value), q, Worth());
            && Value(Exec(s, Sell(p, l, q)).value) == Value(s) - cost
            && CostOfSales(Exec(s, Sell(p, l, q)).value) == CostOfSales(s) + cost
  {
    hide SumBy, Exec, Fifo, Drain, Weigh, WeighSold;
    var read := SellShape(s, p, l, q);
    FifoList(s.lots, read.row);
    WorthLinear();
    DrainWeight(s.lots, read.seen, q, ForSale, Worth(), Worth());
  }

  /** Either kind of receipt adds its units at its cost. */
  lemma DepositAddsValue(s: Store, p: nat, l: nat, q: Units, cost: int, code: string, at: int, order: Option<nat>)
    requires l < |s.locations| && Deposit(s, p, l, q, cost, code, at, order).Ok?
    ensures var s' := Deposit(s, p, l, q, cost, code, at, order).value;
            && Value(s') == Value(s) + q * cost
            && CostOfSales(s') == CostOfSales(s)
            && SumBy(s'.lots, ReceiptCost()) == SumBy(s.lots, ReceiptCost()) + q * cost
  {
    hide SumBy, CodeTaken;
    var lot := Lot(Card(|s.lots|, RowOf(s.inventories, p, l), None, code, q, cost, at), q, 0);
    SumAppend(s.lots, lot, Weigh(Worth()));
    SumAppend(s.lots, lot, WeighSold(Worth()));
    SumAppend(s.lots, lot, ReceiptCost());
  }

  lemma ReceiptAddsValue(s: Store, op: Op)
    requires (op.Receive? || op.Accept?) && Exec(s, op).Ok?
    ensures Value(Exec(s, op).value) == Value(s) + op.quantity * op.cost
    ensures CostOfSales(Exec(s, op).value) == CostOfSales(s)
    ensures SumBy(Exec(s, op).value.lots, ReceiptCost()) == SumBy(s.lots, ReceiptCost()) + op.quantity * op.cost
  {
    hide SumBy, Value, CostOfSales, Deposit;
    var order := if op.Accept? then Some(op.order) else None;
    DepositAddsValue(s, op.product, op.location, op.quantity, op.cost, op.code, op.at, order);
  }

  /** The FIFO loop creates only child lots, which are not receipts. */
  lemma DrainKeepsReceipts(lots: seq<Lot>, seen: seq<Seen>, q: nat, use: Use)
    requires Observed(lots, seen) && Drain(lots, seen, q, use).Ok?
    ensures SumBy(Drain(lots, seen, q, use).value, ReceiptCost()) == SumBy(lots, ReceiptCost())
  {
    var lots' := Drain(lots, seen, q, use).value;
    DrainRows(lots, seen, q, use);
    SumPrefix(lots, lots', ReceiptCost());
  }

  lemma {:induction false} SumPrefix(s: seq<Lot>, t: seq<Lot>, f: Lot -> int)
    requires |s| <= |t| && (forall i :: 0 <= i < |s| ==> f(s[i]) == f(t[i]))
    requires forall i :: |s| <= i < |t| ==> f(t[i]) == 0
    ensures SumBy(t, f) == SumBy(s, f)
    decreases |t|
  {
    if t != [] {
      var t0 := t[..|t| - 1];
      SumPrefix(if |s| == |t| then s[..|s| - 1] else s, t0, f);
    }
  }

  /** Value on hand plus cost of sales is the cost of all receipts. */
  ghost predicate ValueBalanced(s: Store) {
    Value(s) + CostOfSales(s) == SumBy(s.lots, ReceiptCost())
  }

  lemma DrainBalanced(s: Store, read: Taking, q: nat, use: Use)
    requires Inv(s) && read.seen == Fifo(s.lots, read.row) && Drain(s.lots, read.seen, q, use).Ok?
    ensures SumBy(Drain(s.lots, read.seen, q, use).value, ReceiptCost()) == SumBy(s.lots, ReceiptCost())
  {
    FifoList(s.lots, read.row);
    DrainKeepsReceipts(s.lots, read.seen, q, use);
  }

  lemma SaleBalanced(s: Store, p: nat, l: nat, q: Units)
    requires Inv(s) && ValueBalanced(s) && Exec(s, Sell(p, l, q)).Ok?
    ensures ValueBalanced(Exec(s, Sell(p, l, q)).value)
  {
    hide SumBy, Exec, Drain, Fifo, Value, CostOfSales;
    var read := SellShape(s, p, l, q);
    SaleMovesValue(s, p, l, q);
    DrainBalanced(s, read, q, ForSale);
  }

  lemma TransferBalanced(s: Store, p: nat, a: nat, b: nat, q: Units, tag: string)
    requires Inv(s) && ValueBalanced(s) && Exec(s, Transfer(p, a, b, q, tag)).Ok?
    ensures ValueBalanced(Exec(s, Transfer(p, a, b, q, tag)).value)
  {
    hide SumBy, Exec, Drain, Fifo, Value, CostOfSales;
    var read := TransferShape(s, p, a, b, q, tag);
    TransferKeepsValue(s, p, a, b, q, tag);
    DrainBalanced(s, read.taking, q, ForMove(RowOf(s.inventories, p, b), tag));
  }

  lemma ExecBalanced(s: Store, op: Op)
    requires Inv(s) && ValueBalanced(s) && Exec(s, op).Ok?
    ensures ValueBalanced(Exec(s, op).value)
  {
    hide SumBy;
    match op
    case Receive(_, _, _, _, _, _) => ReceiptAddsValue(s, op);
    case Accept(_, _, _, _, _, _, _) => ReceiptAddsValue(s, op);
    case Sell(p, l, q) => SaleBalanced(s, p, l, q);
    case Transfer(p, a, b, q, tag) => TransferBalanced(s, p, a, b, q, tag);
    case Reserve(_, _, _) => assert Exec(s, op).value.lots == s.lots;
    case Release(_, _, _) => assert Exec(s, op).value.lots == s.lots;
    case Expire(_) => assert Exec(s, op).value.lots == s.lots;
  }

  /** In every run from an empty store. */
  lemma {:induction false} RunBalanced(s: Store, ops: seq<Op>)
    requires Inv(s) && ValueBalanced(s)
    ensures ValueBalanced(Run(s, ops))
    decreases |ops|
  {
    hide ValueBalanced;
    if ops != [] {
      var before := Run(s, ops[..|ops| - 1]);
      RunBalanced(s, ops[..|ops| - 1]);
      RunInv(s, ops[..|ops| - 1]);
      if Exec(before, ops[|ops| - 1]).Ok? {
        ExecBalanced(before, ops[|ops| - 1]);
      }
    }
  }

  lemma ValueOfRuns(s: Store, ops: seq<Op>)
    requires Fresh(s)
    ensures Value(Run(s, ops)) + CostOfSales(Run(s, ops)) == SumBy(Run(s, ops).lots, ReceiptCost())
  {
    FreshInv(s);
    RunBalanced(s, ops);
  }

  /** Any run of transfers leaves every cost layer of every product, and so the value, unchanged. */
  lemma {:induction false} TransfersKeepLayers(s: Store, ops: seq<Op>, x: nat, at: int, cost: int)
    requires Inv(s) && forall i :: 0 <= i < |ops| ==> ops[i].Transfer?
    ensures LayerUnits(Run(s, ops), x, at, cost) == LayerUnits(s, x, at, cost)
    ensures Value(Run(s, ops)) == Value(s)
    decreases |ops|
  {
    hide LayerUnits, Value, Exec, Inv;
    if ops != [] {
      var init, op := ops[..|ops| - 1], ops[|ops| - 1];
      var before := Run(s, init);
      TransfersKeepLayers(s, init, x, at, cost);
      RunInv(s, init);
      if Exec(before, op).Ok? {
        TransferKeepsLayers(before, op.product, op.source, op.dest, op.quantity, op.tag, x, at, cost);
        TransferKeepsValue(before, op.product, op.source, op.dest, op.quantity, op.tag);
      }
    }
  }
}
