/** Purchase orders: life cycle, multi-line receipts into stock, and their agreement with the ledger. */
module PurchaseOrders {
  import opened Options
  import opened Sums
  import opened Stock
  import opened Ledger
  import opened Lineage
  import Valuation

  datatype OrderStatus = Draft | Submitted | Approved | Received | Closed | Cancelled

  datatype Line = Line(order: nat, product: nat, location: nat, ordered: int, received: int, cost: int)

  datatype NewLine = NewLine(product: nat, location: nat, ordered: Units, cost: int)

  /** One entry of a receipt: code and time are those the receipt uses for its lot. */
  datatype Item = Item(line: nat, quantity: Units, code: string, at: int)

  datatype Purchasing = Purchasing(stock: Store, orders: seq<OrderStatus>, lines: seq<Line>)

  // ---------------------------------------------------------------- operations

  predicate InScope(s: Store, l: NewLine) {
    l.product < |s.products| && l.location < |s.locations| && !s.locations[l.location].hidden
  }

  function NewLines(order: nat, lines: seq<NewLine>): seq<Line> {
    seq(|lines|, i requires 0 <= i < |lines| =>
      Line(order, lines[i].product, lines[i].location, lines[i].ordered, 0, lines[i].cost))
  }

  /** createPurchaseOrder, after request validation (at least one line); supplier says whether it was found. */
  function CreateOrder(y: Purchasing, supplier: bool, lines: seq<NewLine>): Result<Purchasing> {
    if !supplier then Err(NotFound)
    else if exists i :: 0 <= i < |lines| && !InScope(y.stock, lines[i]) then Err(NotFound)
    else Ok(y.(orders := y.orders + [Draft], lines := y.lines + NewLines(|y.orders|, lines)))
  }

  predicate Allowed(from: OrderStatus, to: OrderStatus) {
    match to
    case Submitted => from == Draft
    case Approved => from == Submitted
    case Cancelled => from == Draft || from == Submitted || from == Approved
    case _ => false
  }

  /** transitionPurchaseOrder. */
  function ChangeStatus(y: Purchasing, o: nat, to: OrderStatus): Result<Purchasing> {
    if o >= |y.orders| then Err(NotFound)
    else if !Allowed(y.orders[o], to) then Err(Conflict)
    else Ok(y.(orders := y.orders[o := to]))
  }

  /** One turn of the receipt loop. before holds the order's lines as read ahead of the transaction. */
  function ReceiveItem(y: Purchasing, o: nat, before: seq<Line>, item: Item): Result<Purchasing> {
    if !(item.line < |before| && before[item.line].order == o) then Err(NotFound)
    else
      var line := before[item.line];
      if item.quantity > line.ordered - line.received then Err(Conflict)
      else if item.line >= |y.lines| then Err(NotFound)
      else
        var stock :- ExecAccept(y.stock, line.product, line.location, item.quantity, line.cost, item.code, item.at, o);
        var was := y.lines[item.line];
        Ok(y.(stock := stock, lines := y.lines[item.line := was.(received := was.received + item.quantity)]))
  }

  function ReceiveItems(y: Purchasing, o: nat, before: seq<Line>, items: seq<Item>): Result<Purchasing>
  {
    if items == [] then Ok(y)
    else
      var y1 :- ReceiveItems(y, o, before, items[..|items| - 1]);
      ReceiveItem(y1, o, before, items[|items| - 1])
  }

  predicate Full(lines: seq<Line>, o: nat) {
    forall j :: 0 <= j < |lines| && lines[j].order == o ==> lines[j].received >= lines[j].ordered
  }

  /** receivePurchaseOrder: one transaction over all items, then the status is recomputed. */
  function ReceiveOrder(y: Purchasing, o: nat, items: seq<Item>): Result<Purchasing> {
    if o >= |y.orders| then Err(NotFound)
    else if y.orders[o] != Approved && y.orders[o] != Received then Err(Conflict)
    else
      var y1 :- ReceiveItems(y, o, y.lines, items);
      Ok(y1.(orders := y.orders[o := if Full(y1.lines, o) then Received else Approved]))
  }

  datatype Action =
    | OnStock(op: Op)
    | Create(supplier: bool, lines: seq<NewLine>)
    | Change(order: nat, to: OrderStatus)
    | Receipt(order: nat, items: seq<Item>)

  function Perform(y: Purchasing, a: Action): Result<Purchasing> {
    match a
    case OnStock(op) => (match Exec(y.stock, op) case Ok(s') => Ok(y.(stock := s')) case Err(e) => Err(e))
    case Create(supplier, lines) => CreateOrder(y, supplier, lines)
    case Change(o, to) => ChangeStatus(y, o, to)
    case Receipt(o, items) => ReceiveOrder(y, o, items)
  }

  function AfterAction(y: Purchasing, a: Action): Purchasing {
    match Perform(y, a)
    case Ok(y') => y'
    case Err(_) => y
  }

  function RunActions(y: Purchasing, actions: seq<Action>): Purchasing
  {
    if actions == [] then y else AfterAction(RunActions(y, actions[..|actions| - 1]), actions[|actions| - 1])
  }

  // ---------------------------------------------------------------- invariant

  function ForOrder(o: nat): Movement -> int {
    (m: Movement) => if m.Incoming? && m.order == Some(o) then m.quantity else 0
  }

  function ReceivedOn(o: nat): Line -> int { (l: Line) => if l.order == o then l.received else 0 }

  ghost predicate LinesOk(y: Purchasing) {
    forall j :: 0 <= j < |y.lines| ==>
                  && y.lines[j].order < |y.orders| && y.lines[j].product < |y.stock.products|
                  && y.lines[j].location < |y.stock.locations|
                  && 0 < y.lines[j].ordered && 0 <= y.lines[j].received
  }

  /** The status of an order agrees with its lines, and its lines agree with the movement log. */
  ghost predicate OrderOk(y: Purchasing, o: nat)
    requires o < |y.orders|
  {
    && y.orders[o] != Closed
    && (y.orders[o] == Received <==> Full(y.lines, o))
    && (y.orders[o] == Draft || y.orders[o] == Submitted ==>
          forall j :: 0 <= j < |y.lines| && y.lines[j].order == o ==> y.lines[j].received == 0)
    && (exists j :: 0 <= j < |y.lines| && y.lines[j].order == o)
  }

  ghost predicate OrderLogAgrees(y: Purchasing, o: nat) {
    SumBy(y.stock.movements, ForOrder(o)) == SumBy(y.lines, ReceivedOn(o))
  }

  ghost predicate PurchasingInv(y: Purchasing) {
    && LineageInv(y.stock) && LinesOk(y)
    && (forall o :: 0 <= o < |y.orders| ==> OrderOk(y, o))
    && (forall o :: OrderLogAgrees(y, o))
  }

  // ---------------------------------------------------------------- receipts

  function ItemsFor(j: nat): Item -> int { (i: Item) => if i.line == j then i.quantity as int else 0 }

  function ItemsAt(before: seq<Line>, l: nat): Item -> int {
    (i: Item) => if i.line < |before| && before[i.line].location == l then i.quantity as int else 0
  }

  /** What a successful receipt has done after its items. */
  ghost predicate ReceivedSoFar(y: Purchasing, o: nat, items: seq<Item>, y': Purchasing) {
    && y'.orders == y.orders && |y'.lines| == |y.lines|
    && |y'.stock.locations| == |y.stock.locations| && |y'.stock.products| == |y.stock.products|
    && (forall j :: 0 <= j < |y.lines| ==>
          y'.lines[j] == y.lines[j].(received := y.lines[j].received + SumBy(items, ItemsFor(j))))
    && (forall j :: 0 <= j < |y.lines| ==>
          0 <= SumBy(items, ItemsFor(j)) && (y.lines[j].order != o ==> SumBy(items, ItemsFor(j)) == 0))
  }

  lemma ReceiveItemEffect(y: Purchasing, o: nat, before: seq<Line>, item: Item)
    requires ReceiveItem(y, o, before, item).Ok? && |before| == |y.lines|
    requires forall j :: 0 <= j < |before| ==> before[j] == y.lines[j].(received := before[j].received)
    requires LineageInv(y.stock) && LinesOk(y)
    ensures var y' := ReceiveItem(y, o, before, item).value;
            && LineageInv(y'.stock) && LinesOk(y')
            && (forall x :: OrderLogAgrees(y, x) ==> OrderLogAgrees(y', x))
            && (forall l :: 0 <= l < |y.stock.locations| ==>
                  var place := y.stock.locations[l];
                  y'.stock.locations[l] == place.(volume := place.volume + ItemsAt(before, l)(item)))
  {
    hide SumBy, Forest, Inv;
    var y' := ReceiveItem(y, o, before, item).value;
    var line := before[item.line];
    DepositLineage(y.stock, line.product, line.location, item.quantity, line.cost, item.code, item.at, Some(o));
    forall x | OrderLogAgrees(y, x)
      ensures OrderLogAgrees(y', x)
    {
      SumAppend(y.stock.movements, Incoming(line.product, line.location, item.quantity, Some(o)), ForOrder(x));
      SumUpdate(y.lines, item.line, y'.lines[item.line], ReceivedOn(x));
    }
  }

  lemma {:induction false} ReceiveItemsEffect(y: Purchasing, o: nat, items: seq<Item>)
    requires LineageInv(y.stock) && LinesOk(y) && ReceiveItems(y, o, y.lines, items).Ok?
    ensures var y' := ReceiveItems(y, o, y.lines, items).value;
            && LineageInv(y'.stock) && LinesOk(y') && ReceivedSoFar(y, o, items, y')
            && (forall x :: OrderLogAgrees(y, x) ==> OrderLogAgrees(y', x))
            && (forall l :: 0 <= l < |y.stock.locations| ==>
                  var place := y.stock.locations[l];
                  y'.stock.locations[l] == place.(volume := place.volume + SumBy(items, ItemsAt(y.lines, l))))
    decreases |items|
  {
    hide LineageInv, OrderLogAgrees, Deposit;
    if items != [] {
      var init, item := items[..|items| - 1], items[|items| - 1];
      ReceiveItemsEffect(y, o, init);
      var mid := ReceiveItems(y, o, y.lines, init).value;
      ReceiveItemEffect(mid, o, y.lines, item);
      OneMoreItem(y, o, init, item, mid);
    }
  }

  lemma OneMoreItem(y: Purchasing, o: nat, init: seq<Item>, item: Item, mid: Purchasing)
    requires ReceivedSoFar(y, o, init, mid) && ReceiveItem(mid, o, y.lines, item).Ok?
    ensures ReceivedSoFar(y, o, init + [item], ReceiveItem(mid, o, y.lines, item).value)
  {
    hide SumBy;
    forall j | 0 <= j < |y.lines|
      ensures SumBy(init + [item], ItemsFor(j)) == SumBy(init, ItemsFor(j)) + ItemsFor(j)(item)
    {
      SumAppend(init, item, ItemsFor(j));
    }
  }

  /** A receipt of an order, before the status is recomputed. */
  ghost predicate CanReceive(y: Purchasing, o: nat, items: seq<Item>) {
    PurchasingInv(y) && o < |y.orders| && ReceiveOrder(y, o, items).Ok?
  }

  lemma ReceiptInv(y: Purchasing, o: nat, items: seq<Item>)
    requires CanReceive(y, o, items)
    ensures PurchasingInv(ReceiveOrder(y, o, items).value)
  {
    hide SumBy, LineageInv;
    var y' := ReceiveOrder(y, o, items).value;
    ReceiveItemsEffect(y, o, items);
    forall x | 0 <= x < |y'.orders|
      ensures OrderOk(y', x)
    {
      assert OrderOk(y, x);
      var j :| 0 <= j < |y.lines| && y.lines[j].order == x;
      assert y'.lines[j].order == x;
      if x != o {
        assert forall i :: 0 <= i < |y.lines| && y.lines[i].order == x ==> y'.lines[i] == y.lines[i];
      }
    }
    forall x
      ensures OrderLogAgrees(y', x)
    {
      assert OrderLogAgrees(y, x);
    }
  }

  // ---------------------------------------------------------------- the other actions

  /** Stock transactions write no movement for an order. */
  lemma StockKeepsOrderLog(s: Store, op: Op, o: nat)
    requires Exec(s, op).Ok? && !op.Accept?
    ensures SumBy(Exec(s, op).value.movements, ForOrder(o)) == SumBy(s.movements, ForOrder(o))
    ensures |Exec(s, op).value.products| == |s.products| && |Exec(s, op).value.locations| == |s.locations|
  {
    hide SumBy, Drain, Fifo, EnsureRow, RowOf, CodeTaken;
    match op
    case Receive(p, l, q, _, _, _) => SumAppend(s.movements, Incoming(p, l, q, None), ForOrder(o));
    case Sell(p, l, q) => SumAppend(s.movements, Outgoing(p, l, q), ForOrder(o));
    case Transfer(p, a, b, q, _) => SumAppend(s.movements, Movement.Moved(p, a, b, q), ForOrder(o));
    case Reserve(_, _, _) =>
    case Release(_, _, _) =>
    case Expire(_) =>
  }

  lemma OnStockInv(y: Purchasing, op: Op)
    requires PurchasingInv(y) && Exec(y.stock, op).Ok? && !op.Accept?
    ensures PurchasingInv(y.(stock := Exec(y.stock, op).value))
  {
    hide SumBy, LineageInv, Exec;
    var y' := y.(stock := Exec(y.stock, op).value);
    ExecLineage(y.stock, op);
    StockKeepsOrderLog(y.stock, op, 0);
    forall o
      ensures OrderLogAgrees(y', o)
    {
      assert OrderLogAgrees(y, o);
      StockKeepsOrderLog(y.stock, op, o);
    }
    forall o | 0 <= o < |y'.orders|
      ensures OrderOk(y', o)
    {
      assert OrderOk(y, o);
    }
  }

  /** Lines of other orders do not matter to an order. */
  lemma OtherLines(y: Purchasing, y': Purchasing, o: nat)
    requires o < |y.orders| && OrderOk(y, o) && o < |y'.orders| && y'.orders[o] == y.orders[o]
    requires |y.lines| <= |y'.lines| && forall j :: 0 <= j < |y.lines| ==> y'.lines[j] == y.lines[j]
    requires forall j :: |y.lines| <= j < |y'.lines| ==> y'.lines[j].order != o
    ensures OrderOk(y', o)
  {
    var j :| 0 <= j < |y.lines| && y.lines[j].order == o;
    assert y'.lines[j].order == o;
    if !Full(y.lines, o) {
      var i :| 0 <= i < |y.lines| && y.lines[i].order == o && y.lines[i].received < y.lines[i].ordered;
      assert y'.lines[i] == y.lines[i];
    }
  }

  lemma CreateInv(y: Purchasing, lines: seq<NewLine>)
    requires PurchasingInv(y) && lines != [] && CreateOrder(y, true, lines).Ok?
    ensures PurchasingInv(CreateOrder(y, true, lines).value)
  {
    hide SumBy, LineageInv;
    var n, added := |y.orders|, NewLines(|y.orders|, lines);
    var y' := CreateOrder(y, true, lines).value;
    assert forall j :: |y.lines| <= j < |y'.lines| ==>
             y'.lines[j] == added[j - |y.lines|] && InScope(y.stock, lines[j - |y.lines|]);
    forall o
      ensures OrderLogAgrees(y', o)
    {
      assert OrderLogAgrees(y, o);
      SumConcat(y.lines, added, ReceivedOn(o));
      SumNothing(added, ReceivedOn(o));
    }
    forall o | 0 <= o < |y'.orders|
      ensures OrderOk(y', o)
    {
      if o < n {
        assert OrderOk(y, o);
        assert forall j :: 0 <= j < |y.lines| ==> y'.lines[j] == y.lines[j];
        OtherLines(y, y', o);
      } else {
        assert y'.lines[|y.lines|] == added[0];
      }
    }
  }

  lemma ChangeInv(y: Purchasing, o: nat, to: OrderStatus)
    requires PurchasingInv(y) && ChangeStatus(y, o, to).Ok?
    ensures PurchasingInv(ChangeStatus(y, o, to).value)
  {
    hide SumBy, LineageInv;
    var y' := ChangeStatus(y, o, to).value;
    forall x
      ensures OrderLogAgrees(y', x)
    {
      assert OrderLogAgrees(y, x);
    }
    forall x | 0 <= x < |y'.orders|
      ensures OrderOk(y', x)
    {
      assert OrderOk(y, x);
    }
  }

  /** What requests can ask for: an order has lines, and receipt entries come only from receipts. */
  predicate Proper(a: Action) {
    && (a.Create? ==> a.lines != [])
    && (a.OnStock? ==> !a.op.Accept?)
  }

  lemma PerformInv(y: Purchasing, a: Action)
    requires PurchasingInv(y) && Proper(a) && Perform(y, a).Ok?
    ensures PurchasingInv(Perform(y, a).value)
  {
    hide PurchasingInv, Exec;
    match a
    case OnStock(op) => OnStockInv(y, op);
    case Create(_, lines) => CreateInv(y, lines);
    case Change(o, to) => ChangeInv(y, o, to);
    case Receipt(o, items) => ReceiptInv(y, o, items);
  }

  /**
   Whatever is requested: an order is RECEIVED exactly when all its lines are full, drafts and submitted
   orders have received nothing, the ledger holds, and the log has received for an order what its lines
   say.
   */
  lemma {:induction false} RunActionsInv(y: Purchasing, actions: seq<Action>)
    requires PurchasingInv(y) && forall i :: 0 <= i < |actions| ==> Proper(actions[i])
    ensures PurchasingInv(RunActions(y, actions))
    decreases |actions|
  {
    hide PurchasingInv, Perform;
    if actions != [] {
      var before := RunActions(y, actions[..|actions| - 1]);
      RunActionsInv(y, actions[..|actions| - 1]);
      assert Proper(actions[|actions| - 1]);
      if Perform(before, actions[|actions| - 1]).Ok? {
        PerformInv(before, actions[|actions| - 1]);
      }
    }
  }

  lemma EmptyPurchasing(s: Store)
    requires Fresh(s)
    ensures PurchasingInv(Purchasing(s, [], []))
  {
    FreshInv(s);
    forall o
      ensures OrderLogAgrees(Purchasing(s, [], []), o)
    {
    }
  }

  /** CANCELLED is final, and a cancelled order receives nothing more. */
  lemma {:induction false} CancelledIsFinal(y: Purchasing, actions: seq<Action>, o: nat)
    requires PurchasingInv(y) && o < |y.orders| && y.orders[o] == Cancelled
    requires forall i :: 0 <= i < |actions| ==> Proper(actions[i])
    ensures o < |RunActions(y, actions).orders| && RunActions(y, actions).orders[o] == Cancelled
    ensures SumBy(RunActions(y, actions).lines, ReceivedOn(o)) == SumBy(y.lines, ReceivedOn(o))
    decreases |actions|
  {
    hide SumBy, PurchasingInv, Exec, Perform;
    if actions != [] {
      var before, a := RunActions(y, actions[..|actions| - 1]), actions[|actions| - 1];
      CancelledIsFinal(y, actions[..|actions| - 1], o);
      RunActionsInv(y, actions[..|actions| - 1]);
      if Perform(before, a).Ok? {
        CancelledStep(before, a, o);
      }
    }
  }

  lemma CancelledStep(y: Purchasing, a: Action, o: nat)
    requires PurchasingInv(y) && o < |y.orders| && y.orders[o] == Cancelled && Perform(y, a).Ok?
    ensures o < |Perform(y, a).value.orders| && Perform(y, a).value.orders[o] == Cancelled
    ensures SumBy(Perform(y, a).value.lines, ReceivedOn(o)) == SumBy(y.lines, ReceivedOn(o))
  {
    hide SumBy, Exec, LineageInv;
    var y' := Perform(y, a).value;
    match a
    case OnStock(_) =>
    case Create(_, lines) =>
      SumConcat(y.lines, NewLines(|y.orders|, lines), ReceivedOn(o));
      SumNothing(NewLines(|y.orders|, lines), ReceivedOn(o));
    case Change(_, _) =>
    case Receipt(x, items) =>
      ReceiveItemsEffect(y, x, items);
      SameLines(y.lines, y'.lines, o);
  }

  lemma {:induction false} SameLines(s: seq<Line>, t: seq<Line>, o: nat)
    requires |s| == |t| && forall j :: 0 <= j < |s| ==> t[j].order == s[j].order && (s[j].order == o ==> t[j] == s[j])
    ensures SumBy(t, ReceivedOn(o)) == SumBy(s, ReceivedOn(o))
    decreases |s|
  {
    if s != [] {
      SameLines(s[..|s| - 1], t[..|t| - 1], o);
    }
  }

  /**
   A receipt that commits put exactly its listed units into every location and none is over capacity;
   so a receipt with an entry that does not fit commits none of its entries.
   */
  lemma ReceiptFits(y: Purchasing, o: nat, items: seq<Item>, l: nat)
    requires PurchasingInv(y) && o < |y.orders| && l < |y.stock.locations|
    ensures ReceiveOrder(y, o, items).Ok? ==>
              && l < |ReceiveOrder(y, o, items).value.stock.locations|
              && ReceiveOrder(y, o, items).value.stock.locations[l].volume ==
                   y.stock.locations[l].volume + SumBy(items, ItemsAt(y.lines, l))
              && y.stock.locations[l].volume + SumBy(items, ItemsAt(y.lines, l)) <= y.stock.locations[l].capacity
    ensures y.stock.locations[l].volume + SumBy(items, ItemsAt(y.lines, l)) > y.stock.locations[l].capacity ==>
              AfterAction(y, Receipt(o, items)) == y
  {
    hide SumBy, Forest;
    if ReceiveOrder(y, o, items).Ok? {
      ReceiveItemsEffect(y, o, items);
      VolumeBounds(ReceiveOrder(y, o, items).value.stock, l);
    }
  }

  /** What the entries cost at the prices of their lines. */
  function CostAt(lines: seq<Line>): Item -> int {
    (i: Item) => if i.line < |lines| then i.quantity * lines[i.line].cost else 0
  }

  /** A receipt adds to the value of the stock what its entries cost at the order's prices, and sells nothing. */
  lemma {:induction false} ReceiptAddsLineCosts(y: Purchasing, o: nat, before: seq<Line>, items: seq<Item>)
    requires ReceiveItems(y, o, before, items).Ok?
    ensures var stock := ReceiveItems(y, o, before, items).value.stock;
            && Valuation.Value(stock) == Valuation.Value(y.stock) + SumBy(items, CostAt(before))
            && Valuation.CostOfSales(stock) == Valuation.CostOfSales(y.stock)
    decreases |items|
  {
    hide Valuation.Value, Valuation.CostOfSales, Deposit;
    if items != [] {
      var init, item := items[..|items| - 1], items[|items| - 1];
      ReceiptAddsLineCosts(y, o, before, init);
      var mid, line := ReceiveItems(y, o, before, init).value, before[item.line];
      Valuation.DepositAddsValue(mid.stock, line.product, line.location, item.quantity,
                                 line.cost, item.code, item.at, Some(o));
    }
  }

  // ---------------------------------------------------------------- life cycle

  /** The order was submitted in the run, and later approved. */
  ghost predicate WasSubmitted(actions: seq<Action>, o: nat) {
    exists i :: 0 <= i < |actions| && actions[i] == Change(o, Submitted)
  }

  ghost predicate WasApproved(actions: seq<Action>, o: nat) {
    exists i, j :: 0 <= i < j < |actions| && actions[i] == Change(o, Submitted) && actions[j] == Change(o, Approved)
  }

  /** An order that can receive went through submission and then approval, in this order. */
  lemma {:induction false} ApprovedThroughSubmission(s: Store, actions: seq<Action>, o: nat)
    requires o < |RunActions(Purchasing(s, [], []), actions).orders|
    ensures var status := RunActions(Purchasing(s, [], []), actions).orders[o];
            && (status == Submitted ==> WasSubmitted(actions, o))
            && (status == Approved || status == Received ==> WasApproved(actions, o))
    decreases |actions|
  {
    hide Exec, ReceiveItems;
    if actions != [] {
      var n := |actions| - 1;
      var init, a := actions[..n], actions[n];
      var before := RunActions(Purchasing(s, [], []), init);
      if o < |before.orders| {
        ApprovedThroughSubmission(s, init, o);
        if WasSubmitted(init, o) {
          var i :| 0 <= i < n && init[i] == Change(o, Submitted);
          assert actions[i] == Change(o, Submitted);
          assert a == Change(o, Approved) ==> WasApproved(actions, o);
        }
        if WasApproved(init, o) {
          var i, j :| 0 <= i < j < n && init[i] == Change(o, Submitted) && init[j] == Change(o, Approved);
          assert actions[i] == Change(o, Submitted) && actions[j] == Change(o, Approved);
        }
        assert a == Change(o, Submitted) ==> actions[n] == Change(o, Submitted);
        ReceiptKeepsOthers(before, a, o);
      }
    }
  }

  /** A receipt changes only its own order's status, which was approved or received before. */
  lemma ReceiptKeepsOthers(y: Purchasing, a: Action, o: nat)
    requires o < |y.orders|
    ensures a.Receipt? && Perform(y, a).Ok? ==>
              && |Perform(y, a).value.orders| == |y.orders|
              && (Perform(y, a).value.orders[o] != y.orders[o] ==> y.orders[o] == Approved || y.orders[o] == Received)
  {
    hide Exec;
    if a.Receipt? && Perform(y, a).Ok? {
      ReceiveKeepsOrders(y, a.order, y.lines, a.items);
    }
  }

  lemma {:induction false} ReceiveKeepsOrders(y: Purchasing, o: nat, before: seq<Line>, items: seq<Item>)
    requires ReceiveItems(y, o, before, items).Ok?
    ensures ReceiveItems(y, o, before, items).value.orders == y.orders
    decreases |items|
  {
    if items != [] {
      ReceiveKeepsOrders(y, o, before, items[..|items| - 1]);
    }
  }

  /**
   Purchase orders over every serial run from an empty store, payloads of any shape: an order is
   RECEIVED exactly when its lines are full, drafts and submitted orders have received nothing, and
   the movement log has booked for an order exactly the sum of its lines.
   */
  lemma OrdersAgreeWithLines(s: Store, actions: seq<Action>, o: nat)
    requires Fresh(s) && forall i :: 0 <= i < |actions| ==> Proper(actions[i])
    requires o < |RunActions(Purchasing(s, [], []), actions).orders|
    ensures var y := RunActions(Purchasing(s, [], []), actions);
            && (forall j :: 0 <= j < |y.lines| ==> 0 <= y.lines[j].received)
            && (y.orders[o] == Received <==>
                  forall j :: 0 <= j < |y.lines| && y.lines[j].order == o ==> y.lines[j].ordered <= y.lines[j].received)
            && (y.orders[o] == Draft || y.orders[o] == Submitted ==> SumBy(y.lines, ReceivedOn(o)) == 0)
            && SumBy(y.stock.movements, ForOrder(o)) == SumBy(y.lines, ReceivedOn(o))
            && LineageInv(y.stock)
  {
    hide LineageInv;
    var y := RunActions(Purchasing(s, [], []), actions);
    EmptyPurchasing(s);
    RunActionsInv(Purchasing(s, [], []), actions);
    assert OrderOk(y, o) && OrderLogAgrees(y, o);
    if y.orders[o] == Draft || y.orders[o] == Submitted {
      SumNothing(y.lines, ReceivedOn(o));
    }
  }
}
