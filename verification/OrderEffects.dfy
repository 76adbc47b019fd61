/** Exactly when a purchase-order request commits and what it leaves, on the columns themselves. */
module OrderEffects {
  import opened Options
  import opened Sums
  import opened Stock
  import opened Ledger
  import opened Lineage
  import opened Effects
  import opened PurchaseOrders

  // ---------------------------------------------------------------- creation and transitions

  /**
   Creating an order commits exactly when the supplier was found and every line is for a product and a
   location that is not hidden; it adds a draft whose lines carry what was asked, nothing received.
   */
  lemma CreateCommitsIff(y: Purchasing, supplier: bool, lines: seq<NewLine>)
    ensures var r := Perform(y, Create(supplier, lines));
            && (r.Ok? <==>
                  && supplier
                  && forall i :: 0 <= i < |lines| ==>
                       && lines[i].product < |y.stock.products| && lines[i].location < |y.stock.locations|
                       && !y.stock.locations[lines[i].location].hidden)
            && (r.Err? ==> r.error == NotFound)
            && (r.Ok? ==>
                  && r.value.stock == y.stock && r.value.orders == y.orders + [Draft]
                  && |r.value.lines| == |y.lines| + |lines| && r.value.lines[..|y.lines|] == y.lines
                  && forall i :: 0 <= i < |lines| ==>
                       r.value.lines[|y.lines| + i] ==
                         Line(|y.orders|, lines[i].product, lines[i].location, lines[i].ordered, 0, lines[i].cost))
  {
    forall i | 0 <= i < |lines|
      ensures InScope(y.stock, lines[i]) <==>
                && lines[i].product < |y.stock.products| && lines[i].location < |y.stock.locations|
                && !y.stock.locations[lines[i].location].hidden
    {
    }
  }

  /** The steps of an order's life: submission of a draft, approval, and cancellation of an order not yet received. */
  lemma ChangeCommitsIff(y: Purchasing, o: nat, to: OrderStatus)
    ensures var r := Perform(y, Change(o, to));
            && (r.Ok? <==>
                  && o < |y.orders|
                  && ((to == Submitted && y.orders[o] == Draft)
                      || (to == Approved && y.orders[o] == Submitted)
                      || (to == Cancelled && y.orders[o] in {Draft, Submitted, Approved})))
            && (r.Err? ==> r.error == if o >= |y.orders| then NotFound else Conflict)
            && (r.Ok? ==> r.value == Purchasing(y.stock, y.orders[o := to], y.lines))
  {
  }

  /** A transaction on stock changes the stock as it does alone, and no order. */
  lemma StockCommitsIff(y: Purchasing, op: Op)
    ensures var r, alone := Perform(y, OnStock(op)), Exec(y.stock, op);
            && (r.Ok? <==> alone.Ok?)
            && (r.Err? ==> r.error == alone.error)
            && (r.Ok? ==> r.value == Purchasing(alone.value, y.orders, y.lines))
  {
    hide Exec;
  }

  // ---------------------------------------------------------------- receipts

  /**
   One entry of a receipt commits exactly when its line is one of the order, the quantity is within what
   remained before the receipt, the lot code is unused and the units fit.
   */
  lemma EntryCommitsIff(y: Purchasing, o: nat, before: seq<Line>, item: Item)
    requires Inv(y.stock) && |before| == |y.lines|
    requires forall j :: 0 <= j < |before| ==>
               before[j].product < |y.stock.products| && before[j].location < |y.stock.locations|
    ensures var r := ReceiveItem(y, o, before, item);
            var listed := item.line < |before| && before[item.line].order == o;
            && (r.Ok? <==>
                  && listed && item.quantity <= before[item.line].ordered - before[item.line].received
                  && (forall i :: 0 <= i < |y.stock.lots| ==> y.stock.lots[i].card.code != item.code)
                  && var place := y.stock.locations[before[item.line].location];
                     place.volume + item.quantity <= place.capacity)
            && (r.Err? ==> r.error == if !listed then NotFound
                                      else if item.quantity > before[item.line].ordered - before[item.line].received
                                      then Conflict
                                      else if CodeTaken(y.stock.lots, item.code)
                                      then DuplicateCode
                                      else Conflict)
            && (r.Ok? ==>
                  var line, counter := before[item.line], y.lines[item.line];
                  && r.value.orders == y.orders
                  && r.value.lines == y.lines[item.line := counter.(received := counter.received + item.quantity)]
                  && Deposited(y.stock, line.product, line.location, item.quantity, line.cost, item.code, item.at,
                               Some(o), r.value.stock))
  {
    hide Inv, Deposited, Deposit;
    if item.line < |before| {
      var line := before[item.line];
      AcceptCommitsIff(y.stock, line.product, line.location, item.quantity, line.cost, item.code, item.at, o);
    }
  }

  /** Each entry left one lot and one movement, in the order of the payload. */
  ghost predicate Booked(y: Purchasing, o: nat, items: seq<Item>, y': Purchasing) {
    && |y'.stock.lots| == |y.stock.lots| + |items| && y'.stock.lots[..|y.stock.lots|] == y.stock.lots
    && |y'.stock.movements| == |y.stock.movements| + |items|
    && y'.stock.movements[..|y.stock.movements|] == y.stock.movements
    && forall i :: 0 <= i < |items| ==>
         && items[i].line < |y.lines|
         && var line, lot := y.lines[items[i].line], y'.stock.lots[|y.stock.lots| + i];
            && lot.onHand == items[i].quantity == lot.card.received && lot.sold == 0 && lot.card.parent == None
            && lot.card.code == items[i].code && lot.card.cost == line.cost && lot.card.receivedAt == items[i].at
            && y'.stock.movements[|y.stock.movements| + i] ==
                 Incoming(line.product, line.location, items[i].quantity, Some(o))
  }

  lemma {:induction false} ReceiptBooks(y: Purchasing, o: nat, items: seq<Item>)
    requires LineageInv(y.stock) && LinesOk(y) && ReceiveItems(y, o, y.lines, items).Ok?
    ensures Booked(y, o, items, ReceiveItems(y, o, y.lines, items).value)
    decreases |items|
  {
    hide LineageInv, ReceiveItem, Booked, Gains;
    if items == [] {
      NothingBooked(y, o);
    } else {
      var init, item := items[..|items| - 1], items[|items| - 1];
      var mid := ReceiveItems(y, o, y.lines, init).value;
      ReceiptBooks(y, o, init);
      ReceiveItemsEffect(y, o, init);
      LedgerOf(mid.stock);
      EntryCommitsIff(mid, o, y.lines, item);
      OneMoreBooked(y, o, init, item, mid, ReceiveItem(mid, o, y.lines, item).value);
      assert init + [item] == items;
    }
  }

  lemma LedgerOf(s: Store)
    requires LineageInv(s)
    ensures Inv(s)
  {
  }

  lemma NothingBooked(y: Purchasing, o: nat)
    ensures Booked(y, o, [], y)
  {
  }

  lemma OneMoreBooked(y: Purchasing, o: nat, init: seq<Item>, item: Item, mid: Purchasing, y': Purchasing)
    requires Booked(y, o, init, mid) && item.line < |y.lines|
    requires var line := y.lines[item.line];
             Deposited(mid.stock, line.product, line.location, item.quantity,
                       line.cost, item.code, item.at, Some(o), y'.stock)
    ensures Booked(y, o, init + [item], y')
  {
    hide Gains;
    var items, lots, movements := init + [item], y'.stock.lots, y'.stock.movements;
    assert forall i :: 0 <= i < |mid.stock.lots| ==> lots[i] == lots[..|mid.stock.lots|][i];
    assert movements[..|mid.stock.movements|] == mid.stock.movements;
    assert lots[..|y.stock.lots|] == mid.stock.lots[..|y.stock.lots|];
    assert movements[..|y.stock.movements|] == mid.stock.movements[..|y.stock.movements|];
  }

  // ---------------------------------------------------------------- when a receipt commits

  ghost predicate AllListed(y: Purchasing, o: nat, items: seq<Item>) {
    forall i :: 0 <= i < |items| ==>
      && items[i].line < |y.lines| && y.lines[items[i].line].order == o
      && items[i].quantity <= y.lines[items[i].line].ordered - y.lines[items[i].line].received
  }

  ghost predicate AllNew(y: Purchasing, items: seq<Item>) {
    && (forall i, k :: 0 <= i < |items| && 0 <= k < |y.stock.lots| ==> items[i].code != y.stock.lots[k].card.code)
    && (forall i, k :: 0 <= i < k < |items| ==> items[i].code != items[k].code)
  }

  ghost predicate Fits(y: Purchasing, items: seq<Item>, l: nat) {
    l < |y.stock.locations| ==>
      y.stock.locations[l].volume + SumBy(items, ItemsAt(y.lines, l)) <= y.stock.locations[l].capacity
  }

  lemma FitsOneMore(y: Purchasing, init: seq<Item>, item: Item)
    requires item.line < |y.lines| && y.lines[item.line].location < |y.stock.locations|
    ensures (forall l :: Fits(y, init + [item], l)) <==>
            && (forall l :: Fits(y, init, l))
            && Fits(y, init + [item], y.lines[item.line].location)
  {
    hide SumBy;
    forall l: nat
      ensures SumBy(init + [item], ItemsAt(y.lines, l)) == SumBy(init, ItemsAt(y.lines, l)) + ItemsAt(y.lines, l)(item)
    {
      SumAppend(init, item, ItemsAt(y.lines, l));
    }
    if forall l :: Fits(y, init + [item], l) {
      forall l: nat
        ensures Fits(y, init, l)
      {
        assert Fits(y, init + [item], l);
      }
    }
    if (forall l :: Fits(y, init, l)) && Fits(y, init + [item], y.lines[item.line].location) {
      forall l: nat
        ensures Fits(y, init + [item], l)
      {
        assert Fits(y, init, l);
      }
    }
  }

  lemma NewOneMore(y: Purchasing, o: nat, init: seq<Item>, item: Item, mid: Purchasing)
    requires Booked(y, o, init, mid)
    ensures AllNew(y, init + [item]) <==>
            AllNew(y, init) && forall k :: 0 <= k < |mid.stock.lots| ==> mid.stock.lots[k].card.code != item.code
  {
    NewSplits(y, init, item);
    var lots, n := mid.stock.lots, |y.stock.lots|;
    assert forall k :: 0 <= k < n ==> lots[k] == lots[..n][k];
    assert forall i :: 0 <= i < |init| ==> lots[n + i].card.code == init[i].code;
    forall k | n <= k < |lots|
      ensures lots[k].card.code == init[k - n].code
    {
      assert lots[n + (k - n)].card.code == init[k - n].code;
    }
  }

  lemma NewSplits(y: Purchasing, init: seq<Item>, item: Item)
    ensures AllNew(y, init + [item]) <==>
              && AllNew(y, init)
              && (forall k :: 0 <= k < |y.stock.lots| ==> y.stock.lots[k].card.code != item.code)
              && (forall i :: 0 <= i < |init| ==> init[i].code != item.code)
  {
    var items := init + [item];
    assert items[|init|] == item && forall i :: 0 <= i < |init| ==> items[i] == init[i];
  }

  /** The entries of a receipt commit exactly when all are listed, all codes are new, and all together fit. */
  lemma {:induction false} EntriesCommitIff(y: Purchasing, o: nat, items: seq<Item>)
    requires LineageInv(y.stock) && LinesOk(y)
    ensures ReceiveItems(y, o, y.lines, items).Ok? <==>
            AllListed(y, o, items) && AllNew(y, items) && forall l :: Fits(y, items, l)
    decreases |items|
  {
    hide LineageInv, ReceiveItem, Booked, Deposited, Fits, AllNew, OrderLogAgrees;
    if items == [] {
      NoEntries(y);
    } else {
      var init, item := items[..|items| - 1], items[|items| - 1];
      assert init + [item] == items;
      EntriesCommitIff(y, o, init);
      ListedOneMore(y, o, init, item);
      if ReceiveItems(y, o, y.lines, init).Ok? {
        var mid := ReceiveItems(y, o, y.lines, init).value;
        ReceiptBooks(y, o, init);
        ReceiveItemsEffect(y, o, init);
        LedgerOf(mid.stock);
        EntryCommitsIff(mid, o, y.lines, item);
        NewOneMore(y, o, init, item, mid);
        if item.line < |y.lines| {
          FitsOneMore(y, init, item);
          FitsNow(y, init, item, mid.stock);
        }
      } else {
        NewSplits(y, init, item);
        if item.line < |y.lines| {
          FitsOneMore(y, init, item);
        }
      }
    }
  }

  lemma ListedOneMore(y: Purchasing, o: nat, init: seq<Item>, item: Item)
    ensures AllListed(y, o, init + [item]) <==>
            && AllListed(y, o, init)
            && item.line < |y.lines| && y.lines[item.line].order == o
            && item.quantity <= y.lines[item.line].ordered - y.lines[item.line].received
  {
    var items := init + [item];
    assert items[|init|] == item && forall i :: 0 <= i < |init| ==> items[i] == init[i];
  }

  /** The capacity check of one entry, when those before it are in. */
  lemma FitsNow(y: Purchasing, init: seq<Item>, item: Item, mid: Store)
    requires item.line < |y.lines| && y.lines[item.line].location < |y.stock.locations| == |mid.locations|
    requires var l := y.lines[item.line].location;
             var place := y.stock.locations[l];
             mid.locations[l] == place.(volume := place.volume + SumBy(init, ItemsAt(y.lines, l)))
    ensures var place := mid.locations[y.lines[item.line].location];
            place.volume + item.quantity <= place.capacity <==> Fits(y, init + [item], y.lines[item.line].location)
  {
    SumAppend(init, item, ItemsAt(y.lines, y.lines[item.line].location));
  }

  lemma NoEntries(y: Purchasing)
    requires LineageInv(y.stock)
    ensures AllNew(y, []) && forall l :: Fits(y, [], l)
  {
    forall l: nat
      ensures Fits(y, [], l)
    {
      if l < |y.stock.locations| {
        VolumeBounds(y.stock, l);
      }
    }
  }

  /**
   A receipt commits exactly when its order is approved or received, every entry is a line of the order
   with a quantity within what remained, every lot code is new, also within the payload, and at every
   location all entries together fit. The order is then RECEIVED if every line has what was ordered, and
   otherwise APPROVED.
   */
  lemma ReceiptCommitsIff(y: Purchasing, o: nat, items: seq<Item>)
    requires PurchasingInv(y)
    ensures var r := Perform(y, Receipt(o, items));
            && (r.Ok? <==>
                  && o < |y.orders| && y.orders[o] in {Approved, Received}
                  && AllListed(y, o, items) && AllNew(y, items) && forall l :: Fits(y, items, l))
            && (o >= |y.orders| ==> r == Err(NotFound))
            && (o < |y.orders| && y.orders[o] !in {Approved, Received} ==> r == Err(Conflict))
            && (r.Ok? ==>
                  && |r.value.orders| == |y.orders|
                  && (forall x :: 0 <= x < |y.orders| && x != o ==> r.value.orders[x] == y.orders[x])
                  && (if forall j :: 0 <= j < |r.value.lines| && r.value.lines[j].order == o ==>
                           r.value.lines[j].ordered <= r.value.lines[j].received
                      then r.value.orders[o] == Received
                      else r.value.orders[o] == Approved))
  {
    hide LineageInv, ReceiveItems, AllListed, AllNew, Fits, OrderLogAgrees, OrderOk;
    EntriesCommitIff(y, o, items);
  }
}
