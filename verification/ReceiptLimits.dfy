/** Whether order lines stay within what was ordered. */
module ReceiptLimits {
  import opened Sums
  import opened Stock
  import opened Lineage
  import opened PurchaseOrders

  ghost predicate WithinOrdered(lines: seq<Line>) {
    forall j :: 0 <= j < |lines| ==> lines[j].received <= lines[j].ordered
  }

  /**
   After a receipt no line has more than was ordered exactly when, for every line, the listed
   quantities together are within what remained. Each entry alone is checked against the lines as
   they were read before the first entry.
   */
  lemma ReceiptWithinOrderedIff(y: Purchasing, o: nat, items: seq<Item>)
    requires CanReceive(y, o, items)
    ensures WithinOrdered(ReceiveOrder(y, o, items).value.lines) <==>
            forall j :: 0 <= j < |y.lines| ==> SumBy(items, ItemsFor(j)) <= y.lines[j].ordered - y.lines[j].received
  {
    hide SumBy;
    ReceiveItemsEffect(y, o, items);
    var y' := ReceiveOrder(y, o, items).value;
    if WithinOrdered(y'.lines) {
      forall j | 0 <= j < |y.lines|
        ensures SumBy(items, ItemsFor(j)) <= y.lines[j].ordered - y.lines[j].received
      {
        assert y'.lines[j].received <= y'.lines[j].ordered;
      }
    }
  }

  ghost predicate DistinctLines(items: seq<Item>) {
    forall i, j :: 0 <= i < j < |items| ==> items[i].line != items[j].line
  }

  lemma {:induction false} DistinctWithin(y: Purchasing, o: nat, items: seq<Item>, j: nat)
    requires DistinctLines(items) && ReceiveItems(y, o, y.lines, items).Ok? && j < |y.lines|
    requires WithinOrdered(y.lines)
    ensures SumBy(items, ItemsFor(j)) <= y.lines[j].ordered - y.lines[j].received
    decreases |items|
  {
    if items != [] {
      var init, item := items[..|items| - 1], items[|items| - 1];
      DistinctWithin(y, o, init, j);
      if item.line == j {
        SumNothing(init, ItemsFor(j));
      }
    }
  }

  // ---------------------------------------------------------------- over runs

  /** The action is no receipt that commits and lists, in total, more of some line than remained. */
  ghost predicate ListsWithin(y: Purchasing, a: Action) {
    a.Receipt? && Perform(y, a).Ok? ==>
      forall j :: 0 <= j < |y.lines| ==> SumBy(a.items, ItemsFor(j)) <= y.lines[j].ordered - y.lines[j].received
  }

  ghost predicate AlwaysWithin(y: Purchasing, actions: seq<Action>)
  {
    actions == [] ||
    (AlwaysWithin(y, actions[..|actions| - 1])
     && ListsWithin(RunActions(y, actions[..|actions| - 1]), actions[|actions| - 1]))
  }

  lemma WithinStepIff(y: Purchasing, a: Action)
    requires PurchasingInv(y) && Proper(a) && Perform(y, a).Ok?
    ensures WithinOrdered(Perform(y, a).value.lines) <==> WithinOrdered(y.lines) && ListsWithin(y, a)
  {
    hide SumBy, LineageInv, Exec;
    var y' := Perform(y, a).value;
    match a
    case OnStock(_) =>
    case Create(_, lines) =>
      assert y'.lines == y.lines + NewLines(|y.orders|, lines);
      if WithinOrdered(y'.lines) {
        forall j | 0 <= j < |y.lines|
          ensures y.lines[j].received <= y.lines[j].ordered
        {
          assert y'.lines[j] == y.lines[j];
        }
      }
    case Change(_, _) =>
    case Receipt(o, items) =>
      ReceiptWithinOrderedIff(y, o, items);
      if ListsWithin(y, a) {
        forall j | 0 <= j < |y.lines|
          ensures y.lines[j].received <= y.lines[j].ordered
        {
          assert SumBy(items, ItemsFor(j)) <= y.lines[j].ordered - y.lines[j].received;
          ItemsNonNegative(items, j);
        }
      }
  }

  lemma ItemsNonNegative(items: seq<Item>, j: nat)
    ensures 0 <= SumBy(items, ItemsFor(j))
  {
    SumNonNegative(items, ItemsFor(j));
  }

  /** No line ever has more than was ordered exactly when no committed receipt lists more than remained. */
  lemma {:induction false} WithinOrderedIff(y: Purchasing, actions: seq<Action>)
    requires PurchasingInv(y) && WithinOrdered(y.lines) && forall i :: 0 <= i < |actions| ==> Proper(actions[i])
    ensures WithinOrdered(RunActions(y, actions).lines) <==> AlwaysWithin(y, actions)
    decreases |actions|
  {
    hide PurchasingInv, Perform, WithinOrdered;
    if actions != [] {
      var before, a := RunActions(y, actions[..|actions| - 1]), actions[|actions| - 1];
      WithinOrderedIff(y, actions[..|actions| - 1]);
      RunActionsInv(y, actions[..|actions| - 1]);
      assert Proper(a);
      if Perform(before, a).Ok? {
        WithinStepIff(before, a);
      }
    }
  }

  /** Receipts that list no line twice keep every line within what was ordered. */
  lemma {:induction false} DistinctStaysWithin(y: Purchasing, actions: seq<Action>)
    requires PurchasingInv(y) && WithinOrdered(y.lines) && forall i :: 0 <= i < |actions| ==> Proper(actions[i])
    requires forall i :: 0 <= i < |actions| && actions[i].Receipt? ==> DistinctLines(actions[i].items)
    ensures WithinOrdered(RunActions(y, actions).lines)
    decreases |actions|
  {
    hide PurchasingInv, Perform, WithinOrdered, SumBy;
    if actions != [] {
      var before, a := RunActions(y, actions[..|actions| - 1]), actions[|actions| - 1];
      DistinctStaysWithin(y, actions[..|actions| - 1]);
      RunActionsInv(y, actions[..|actions| - 1]);
      assert Proper(a);
      if Perform(before, a).Ok? {
        WithinStepIff(before, a);
        if a.Receipt? {
          DistinctLists(before, a);
        }
      }
    }
  }

  lemma DistinctLists(y: Purchasing, a: Action)
    requires a.Receipt? && DistinctLines(a.items) && WithinOrdered(y.lines)
    ensures ListsWithin(y, a)
  {
    hide SumBy, ReceiveItems;
    if Perform(y, a).Ok? {
      forall j | 0 <= j < |y.lines|
        ensures SumBy(a.items, ItemsFor(j)) <= y.lines[j].ordered - y.lines[j].received
      {
        DistinctWithin(y, a.order, a.items, j);
      }
    }
  }

  // ---------------------------------------------------------------- a line listed twice

  /** Receiving one unit of line 0, checked against the lines as they were before. */
  lemma OneUnit(y: Purchasing, before: seq<Line>, code: string)
    requires y.lines != [] && before != [] && before[0].order == 0 && before[0].received < before[0].ordered
    requires before[0].location < |y.stock.locations| && before[0].product < |y.stock.products|
    requires var l := y.stock.locations[before[0].location]; l.volume < l.capacity
    requires !CodeTaken(y.stock.lots, code)
    ensures ReceiveItem(y, 0, before, Item(0, 1, code, 0)).Ok?
    ensures var y' := ReceiveItem(y, 0, before, Item(0, 1, code, 0)).value;
            && y'.lines == y.lines[0 := y.lines[0].(received := y.lines[0].received + 1)]
            && |y'.stock.locations| == |y.stock.locations| && |y'.stock.products| == |y.stock.products|
            && y'.stock.locations[before[0].location] ==
                 y.stock.locations[before[0].location].(volume := y.stock.locations[before[0].location].volume + 1)
            && |y'.stock.lots| == |y.stock.lots| + 1 && y.stock.lots <= y'.stock.lots
            && y'.stock.lots[|y.stock.lots|].card.code == code
  {
    hide CodeTaken, EnsureRow, RowOf;
  }

  lemma TwoItems(y: Purchasing, a: Item, b: Item, y1: Purchasing, y2: Purchasing)
    requires ReceiveItem(y, 0, y.lines, a) == Ok(y1) && ReceiveItem(y1, 0, y.lines, b) == Ok(y2)
    ensures ReceiveItems(y, 0, y.lines, [a, b]) == Ok(y2)
  {
    hide ReceiveItem;
    assert [a][..0] == [] && ReceiveItems(y, 0, y.lines, [a]) == Ok(y1);
    assert [a, b][..1] == [a];
  }

  lemma OneMoreAction(y: Purchasing, actions: seq<Action>, a: Action)
    ensures RunActions(y, actions + [a]) == AfterAction(RunActions(y, actions), a)
  {
    assert (actions + [a])[..|actions|] == actions;
  }

  /** An order of one unit, created and approved. */
  function Approving(): seq<Action> {
    [Create(true, [NewLine(0, 0, 1, 1)])] + [Change(0, Submitted)] + [Change(0, Approved)]
  }

  lemma ApprovedOrder(s: Store)
    requires s == OnePlace()
    ensures RunActions(Purchasing(s, [], []), Approving()) == Purchasing(s, [Approved], [Line(0, 0, 0, 1, 0, 1)])
  {
    hide OnePlace;
    var y := Purchasing(s, [], []);
    var line := Line(0, 0, 0, 1, 0, 1);
    var create := Create(true, [NewLine(0, 0, 1, 1)]);
    OneMoreAction(y, [], create);
    assert [] + [create] == [create];
    assert NewLines(0, create.lines) == [line] && InScope(s, create.lines[0]) by { OnePlaceIs(); }
    assert AfterAction(y, create) == Purchasing(s, [Draft], [line]);
    OneMoreAction(y, [create], Change(0, Submitted));
    OneMoreAction(y, [create] + [Change(0, Submitted)], Change(0, Approved));
    assert [Draft][0 := Submitted] == [Submitted] && [Submitted][0 := Approved] == [Approved];
  }

  lemma OnePlaceIs()
    ensures OnePlace() == Store([Location(10, 0, false, true)], [Product(0)], [], [], [], [])
  {
  }

  /**
   Listing a line twice can exceed the order: one unit is ordered and approved, and a receipt lists its
   line twice with one unit each.
   */
  lemma RepeatedLineOverReceives()
    ensures Fresh(OnePlace())
    ensures var receipt := Receipt(0, [Item(0, 1, "A", 0), Item(0, 1, "B", 0)]);
            var y := RunActions(Purchasing(OnePlace(), [], []), Approving() + [receipt]);
            y.lines == [Line(0, 0, 0, 1, 2, 1)] && y.orders == [Received] && !WithinOrdered(y.lines)
  {
    hide ReceiveItem, ReceiveItems, RunActions, Approving;
    var s, line := OnePlace(), Line(0, 0, 0, 1, 0, 1);
    var y := Purchasing(s, [Approved], [line]);
    var a, b := Item(0, 1, "A", 0), Item(0, 1, "B", 0);
    ApprovedOrder(s);
    OneMoreAction(Purchasing(s, [], []), Approving(), Receipt(0, [a, b]));
    OneUnit(y, y.lines, "A");
    var y1 := ReceiveItem(y, 0, y.lines, a).value;
    assert "A"[0] != "B"[0];
    OneUnit(y1, y.lines, "B");
    var y2 := ReceiveItem(y1, 0, y.lines, b).value;
    TwoItems(y, a, b, y1, y2);
    assert y2.lines == [Line(0, 0, 0, 1, 2, 1)] && Full(y2.lines, 0);
    assert y2.lines[0].received > y2.lines[0].ordered;
    assert [Approved][0 := Received] == [Received];
    assert ReceiveOrder(y, 0, [a, b]) == Ok(y2.(orders := [Received]));
  }
}
