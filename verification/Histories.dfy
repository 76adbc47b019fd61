/**
 Runs of requests of every kind, purchase orders and their receipts included. To the stock such a run
 is a run of transactions, in which a committed receipt appears as its entries one after the other, so
 what holds of all runs of transactions holds of it.
 */
module Histories {
  import opened Sums
  import opened Stock
  import opened FifoLoop
  import opened Ledger
  import opened Lineage
  import opened Valuation
  import opened Reservations
  import opened PurchaseOrders

  // ---------------------------------------------------------------- requests as transactions

  function EntryOps(before: seq<Line>, o: nat, items: seq<Item>): seq<Op>
  {
    if items == [] then []
    else
      var item := items[|items| - 1];
      EntryOps(before, o, items[..|items| - 1]) +
      (if item.line < |before| then
         var line := before[item.line];
         [Accept(line.product, line.location, item.quantity, line.cost, item.code, item.at, o)]
       else [])
  }

  /** The transactions on stock that an action comes to; none for a receipt that does not commit. */
  function OpsOf(y: Purchasing, a: Action): seq<Op> {
    match a
    case OnStock(op) => [op]
    case Create(_, _) => []
    case Change(_, _) => []
    case Receipt(o, items) => if ReceiveOrder(y, o, items).Ok? then EntryOps(y.lines, o, items) else []
  }

  function AllOps(y: Purchasing, actions: seq<Action>): seq<Op>
  {
    if actions == [] then []
    else AllOps(y, actions[..|actions| - 1]) + OpsOf(RunActions(y, actions[..|actions| - 1]), actions[|actions| - 1])
  }

  lemma {:induction false} RunConcat(s: Store, a: seq<Op>, b: seq<Op>)
    ensures Run(s, a + b) == Run(Run(s, a), b)
    decreases |b|
  {
    hide Exec;
    if b == [] {
      assert a + b == a;
    } else {
      assert (a + b)[..|a + b| - 1] == a + b[..|b| - 1];
      RunConcat(s, a, b[..|b| - 1]);
    }
  }

  lemma AcceptAfter(s: Store, op: Op)
    requires op.Accept?
    ensures var done := ExecAccept(s, op.product, op.location, op.quantity, op.cost, op.code, op.at, op.order);
            done.Ok? ==> After(s, op) == done.value
  {
    hide ExecAccept;
  }

  lemma {:induction false} EntriesAreOps(y: Purchasing, o: nat, before: seq<Line>, items: seq<Item>)
    requires ReceiveItems(y, o, before, items).Ok?
    ensures Run(y.stock, EntryOps(before, o, items)) == ReceiveItems(y, o, before, items).value.stock
    decreases |items|
  {
    hide ExecAccept, After;
    if items != [] {
      var init, item := items[..|items| - 1], items[|items| - 1];
      var line := before[item.line];
      var op := Accept(line.product, line.location, item.quantity, line.cost, item.code, item.at, o);
      EntriesAreOps(y, o, before, init);
      RunOneMore(y.stock, EntryOps(before, o, init), op);
      AcceptAfter(ReceiveItems(y, o, before, init).value.stock, op);
    }
  }

  lemma ActionIsOps(y: Purchasing, a: Action)
    ensures AfterAction(y, a).stock == Run(y.stock, OpsOf(y, a))
  {
    hide Exec, EntryOps, ReceiveItems, CreateOrder, ChangeStatus;
    match a
    case OnStock(op) =>
      RunOneMore(y.stock, [], op);
      assert [] + [op] == [op];
    case Create(_, _) => OrdersOnly(y, a);
    case Change(_, _) => OrdersOnly(y, a);
    case Receipt(o, items) =>
      if ReceiveOrder(y, o, items).Ok? {
        EntriesAreOps(y, o, y.lines, items);
      }
  }

  lemma OrdersOnly(y: Purchasing, a: Action)
    requires a.Create? || a.Change?
    ensures AfterAction(y, a).stock == y.stock
  {
  }

  /** Every run of requests leaves the stock that a run of transactions leaves. */
  lemma {:induction false} ActionsAreOps(y: Purchasing, actions: seq<Action>)
    ensures RunActions(y, actions).stock == Run(y.stock, AllOps(y, actions))
    decreases |actions|
  {
    hide AfterAction, OpsOf;
    if actions != [] {
      var init, a := actions[..|actions| - 1], actions[|actions| - 1];
      ActionsAreOps(y, init);
      ActionIsOps(RunActions(y, init), a);
      RunConcat(y.stock, AllOps(y, init), OpsOf(RunActions(y, init), a));
    }
  }

  // ---------------------------------------------------------------- what every history keeps

  /** The stock after a run of requests that started with nothing. */
  function StockAfter(s: Store, actions: seq<Action>): Store {
    RunActions(Purchasing(s, [], []), actions).stock
  }

  lemma StockAfterIsRun(s: Store, actions: seq<Action>)
    ensures StockAfter(s, actions) == Run(s, AllOps(Purchasing(s, [], []), actions))
  {
    ActionsAreOps(Purchasing(s, [], []), actions);
  }

  /** The rows, the volumes and the sold counters are what replaying the movement log gives. */
  lemma LogIsTheStockAlways(s: Store, actions: seq<Action>, p: nat, l: nat)
    requires Fresh(s)
    ensures var s' := StockAfter(s, actions);
            && SumBy(s'.inventories, OnHand(At(p, l))) == SumBy(s'.movements, Net(At(p, l)))
            && (l < |s'.locations| ==> s'.locations[l].volume == SumBy(s'.movements, Net(InLocation(l))))
            && (p < |s'.products| ==> s'.products[p].soldCount == SumBy(s'.movements, SoldOut(p)))
  {
    hide StockAfter, Run, SumBy;
    StockAfterIsRun(s, actions);
    LogIsTheStock(s, AllOps(Purchasing(s, [], []), actions), p, l);
  }

  /** Units of a product are conserved: on hand everywhere plus sold is what was ever received, from orders too. */
  lemma ConservationAlways(s: Store, actions: seq<Action>, p: nat)
    requires Fresh(s) && p < |s.products|
    ensures var s' := StockAfter(s, actions);
            && p < |s'.products|
            && SumBy(s'.inventories, OnHand(OfProduct(p))) + s'.products[p].soldCount ==
                 SumBy(s'.movements, ReceivedIn(p))
  {
    hide StockAfter, Run, SumBy;
    StockAfterIsRun(s, actions);
    Conservation(s, AllOps(Purchasing(s, [], []), actions), p);
  }

  lemma VolumesAlwaysInBounds(s: Store, actions: seq<Action>, l: nat)
    requires Fresh(s) && l < |s.locations|
    ensures |StockAfter(s, actions).locations| == |s.locations|
    ensures 0 <= StockAfter(s, actions).locations[l].volume <= s.locations[l].capacity
  {
    hide StockAfter, Run;
    StockAfterIsRun(s, actions);
    VolumesStayInBounds(s, AllOps(Purchasing(s, [], []), actions), l);
  }

  /** Every row holds what its lots hold, and each receipt is conserved in its tree of lots. */
  lemma LotsAlwaysAgree(s: Store, actions: seq<Action>, k: nat, r: nat)
    requires Fresh(s)
    ensures var s' := StockAfter(s, actions);
            && (k < |s'.inventories| ==> s'.inventories[k].onHand == LotsOnHand(s'.lots, k))
            && (r < |s'.lots| ==> SumBy(s'.lots, InTree(s'.lots, r)) == s'.lots[r].card.received)
  {
    hide StockAfter, Run, SumBy;
    var ops := AllOps(Purchasing(s, [], []), actions);
    StockAfterIsRun(s, actions);
    FreshInv(s);
    RunInv(s, ops);
    assert LotsAgree(Run(s, ops), k);
    if r < |Run(s, ops).lots| {
      LineageOfRuns(s, ops, r);
    }
  }

  /** Value on hand plus cost of sales is the cost of all receipts. */
  lemma ValueAlwaysBalances(s: Store, actions: seq<Action>)
    requires Fresh(s)
    ensures ValueBalanced(StockAfter(s, actions))
  {
    hide StockAfter, Run;
    StockAfterIsRun(s, actions);
    ValueOfRuns(s, AllOps(Purchasing(s, [], []), actions));
  }

  /** Reserved quantities plus what was released without an id are what active reservations hold. */
  lemma ReservationsAlwaysBalance(s: Store, actions: seq<Action>, k: nat)
    requires Fresh(s) && k < |StockAfter(s, actions).inventories|
    ensures var s' := StockAfter(s, actions);
            && 0 <= s'.inventories[k].reserved <= s'.inventories[k].onHand
            && s'.inventories[k].reserved + Unnamed(s, AllOps(Purchasing(s, [], []), actions), k) ==
                 SumBy(s'.reservations, ActiveOn(k))
  {
    hide StockAfter, Run, SumBy;
    StockAfterIsRun(s, actions);
    ReservationsBalance(s, AllOps(Purchasing(s, [], []), actions), k);
  }

  /** The whole invariant, so every result that asks for it holds of the stock of any history. */
  lemma LineageAlways(s: Store, actions: seq<Action>)
    requires Fresh(s)
    ensures LineageInv(StockAfter(s, actions))
  {
    StockAfterIsRun(s, actions);
    hide StockAfter, LineageInv;
    assert LineageInv(s) by { FreshLineage(s); }
    RunLineage(s, AllOps(Purchasing(s, [], []), actions));
  }

  lemma FreshLineage(s: Store)
    requires Fresh(s)
    ensures LineageInv(s)
  {
    FreshInv(s);
  }

  predicate ReleasesByName(actions: seq<Action>) {
    forall i :: 0 <= i < |actions| && actions[i].OnStock? ==> NamesReservation(actions[i].op)
  }

  lemma {:induction false} EntriesNameNothing(before: seq<Line>, o: nat, items: seq<Item>)
    ensures forall i :: 0 <= i < |EntryOps(before, o, items)| ==> NamesReservation(EntryOps(before, o, items)[i])
    decreases |items|
  {
    if items != [] {
      EntriesNameNothing(before, o, items[..|items| - 1]);
    }
  }

  lemma {:induction false} AllOpsByName(y: Purchasing, actions: seq<Action>)
    requires ReleasesByName(actions)
    ensures forall i :: 0 <= i < |AllOps(y, actions)| ==> NamesReservation(AllOps(y, actions)[i])
    decreases |actions|
  {
    hide RunActions, ReceiveOrder;
    if actions != [] {
      var a := actions[|actions| - 1];
      AllOpsByName(y, actions[..|actions| - 1]);
      if a.Receipt? {
        EntriesNameNothing(RunActions(y, actions[..|actions| - 1]).lines, a.order, a.items);
      }
    }
  }

  /** When every release names its reservation, reserved quantities are exact and every expiry commits. */
  lemma NamedHistoriesAreExact(s: Store, actions: seq<Action>)
    requires Fresh(s) && ReleasesByName(actions)
    ensures forall k :: 0 <= k < |StockAfter(s, actions).inventories| ==>
              StockAfter(s, actions).inventories[k].reserved == SumBy(StockAfter(s, actions).reservations, ActiveOn(k))
    ensures forall r: nat :: Exec(StockAfter(s, actions), Expire(r)).Ok?
  {
    hide StockAfter, Run, SumBy, Exec;
    StockAfterIsRun(s, actions);
    AllOpsByName(Purchasing(s, [], []), actions);
    NamedRunsAreExact(s, AllOps(Purchasing(s, [], []), actions));
  }
}
