/**
 The database as a mutable object, and the services as methods on it. A method works on local
 copies of the tables it changes and assigns them at its end, as a transaction commits; a throw is an
 early return, before anything was assigned. Each method is proved against the function of Stock,
 Sweeps or PurchaseOrders that the theorems are about.
 */
module Database {
  import opened Options
  import opened Sums
  import opened Stock
  import opened FifoLoop
  import opened Ledger
  import opened Concurrent
  import opened Sweeps
  import opened PurchaseOrders

  /** The outcome as a caller sees it. */
  function Done<T>(x: Result<T>): Result<()> {
    match x
    case Ok(_) => Ok(())
    case Err(e) => Err(e)
  }

  /** The state a transaction leaves. */
  function Left<T>(before: T, x: Result<T>): T {
    match x
    case Ok(after) => after
    case Err(_) => before
  }

  /** The FIFO loop shared by sales and transfers. */
  method ConsumeLots(table: seq<Lot>, seen: seq<Seen>, quantity: nat, use: Use) returns (r: Result<seq<Lot>>)
    ensures r == Drain(table, seen, quantity, use)
  {
    var lots, i := table, 0;
    var remaining: nat := quantity;
    while i < |seen|
      invariant 0 <= i <= |seen|
      invariant Drain(table, seen, quantity, use) == Drain(lots, seen[i..], remaining, use)
    {
      if remaining <= 0 {
        break;
      }
      var lot := seen[i];
      assert seen[i..][1..] == seen[i + 1..];
      i := i + 1;
      if lot.onHand <= 0 {
        continue;
      }
      var moveQty: nat := Min(lot.onHand, remaining);
      if !(lot.card.id < |lots| && lots[lot.card.id].onHand == lot.onHand) {
        return Err(Conflict);
      }
      if use.ForMove? && CodeTaken(lots, Child(lot.card, |lots|, use.dest, use.tag, moveQty).code) {
        return Err(DuplicateCode);
      }
      lots := TakeFrom(lots, lot.card, moveQty, use);
      remaining := remaining - moveQty;
    }
    if remaining > 0 {
      return Err(LotsShort);
    }
    return Ok(lots);
  }

  /** The body of the receipt loop, on the transaction's own view of the tables. */
  method ReceiveEntry(tx: Purchasing, id: nat, before: seq<Line>, item: Item) returns (r: Result<Purchasing>)
    ensures r == ReceiveItem(tx, id, before, item)
  {
    if !(item.line < |before| && before[item.line].order == id) {
      return Err(NotFound);
    }
    var line := before[item.line];
    var remaining := line.ordered - line.received;
    if item.quantity > remaining {
      return Err(Conflict);
    }
    var stock := tx.stock;
    if item.line >= |tx.lines| || line.location >= |stock.locations| || line.product >= |stock.products| {
      return Err(NotFound);
    }
    var place := stock.locations[line.location];
    var row := RowOf(stock.inventories, line.product, line.location);
    var rows := EnsureRow(stock.inventories, line.product, line.location);
    rows := rows[row := rows[row].(onHand := rows[row].onHand + item.quantity)];
    stock := stock.(inventories := rows);
    if CodeTaken(stock.lots, item.code) {
      return Err(DuplicateCode);
    }
    var card := Card(|stock.lots|, row, None, item.code, item.quantity, line.cost, item.at);
    stock := stock.(lots := stock.lots + [Lot(card, item.quantity, 0)]);
    stock := stock.(movements := stock.movements + [Incoming(line.product, line.location, item.quantity, Some(id))]);
    stock := stock.(locations := stock.locations[line.location := place.(volume := place.volume + item.quantity)]);
    if place.volume + item.quantity > place.capacity {
      return Err(Conflict);
    }
    var counter := tx.lines[item.line];
    counter := counter.(received := counter.received + item.quantity);
    return Ok(tx.(stock := stock, lines := tx.lines[item.line := counter]));
  }

  /** The receipt loop, inside its transaction. */
  method ReceiveEntries(start: Purchasing, id: nat, before: seq<Line>, items: seq<Item>) returns (r: Result<Purchasing>)
    ensures r == ReceiveItems(start, id, before, items)
  {
    hide ReceiveItem;
    var tx, i := start, 0;
    while i < |items|
      invariant 0 <= i <= |items|
      invariant ReceiveItems(start, id, before, items[..i]) == Ok(tx)
    {
      assert items[..i + 1][..i] == items[..i];
      var entry := ReceiveEntry(tx, id, before, items[i]);
      if entry.Err? {
        ReceiptStops(start, id, before, items, i + 1);
        return entry;
      }
      tx := entry.value;
      i := i + 1;
    }
    assert items[..i] == items;
    return Ok(tx);
  }

  class Database {
    var locations: seq<Location>
    var products: seq<Product>
    var inventories: seq<Inventory>
    var lots: seq<Lot>
    var movements: seq<Movement>
    var reservations: seq<Reservation>
    var orders: seq<OrderStatus>
    var lines: seq<Line>

    ghost function Tables(): Store
      reads this
    {
      Store(locations, products, inventories, lots, movements, reservations)
    }

    ghost function All(): Purchasing
      reads this
    {
      Purchasing(Tables(), orders, lines)
    }

    /** The ledger, the forest of lots, and orders that agree with their lines and the log. */
    ghost predicate Valid()
      reads this
    {
      PurchasingInv(All())
    }

    constructor (places: seq<Location>, productCount: nat)
      requires forall l :: 0 <= l < |places| ==> places[l].volume == 0 && 0 <= places[l].capacity
      ensures Fresh(Tables()) && orders == [] && lines == []
      ensures locations == places && |products| == productCount
      ensures Valid()
    {
      locations := places;
      products := seq(productCount, _ => Product(0));
      inventories, lots, movements, reservations := [], [], [], [];
      orders, lines := [], [];
      new;
      EmptyPurchasing(Tables());
    }

    // -------------------------------------------------------------- sales

    method ReadForSale(product: nat, location: nat, quantity: Units) returns (r: Result<Taking>)
      ensures r == ReadSell(Tables(), product, location, quantity)
    {
      if location >= |locations| {
        return Err(NotFound);
      }
      if locations[location].hidden || !locations[location].active {
        return Err(Conflict);
      }
      if product >= |products| {
        return Err(NotFound);
      }
      var row := FindRow(inventories, product, location);
      if row == None {
        return Err(NotFound);
      }
      var inventory := inventories[row.value];
      if inventory.onHand - inventory.reserved < quantity {
        return Err(Insufficient);
      }
      return Ok(Taking(row.value, inventory.onHand, inventory.reserved, Fifo(lots, row.value)));
    }

    method CommitSale(read: Taking, product: nat, location: nat, quantity: Units) returns (r: Result<()>)
      modifies this
      ensures r == Done(WriteSell(old(Tables()), read, product, location, quantity))
      ensures Tables() == Left(old(Tables()), WriteSell(old(Tables()), read, product, location, quantity))
      ensures orders == old(orders) && lines == old(lines)
      ensures forall a ::
                (old(Valid()) && Inv(a) && Later(a, old(Tables()))
                 && ReadSell(a, product, location, quantity) == Ok(read))
                ==> Valid()
    {
      hide PurchasingInv, Drain, Inv, Later, ReadSell;
      var rows := inventories;
      if !(read.row < |rows| && rows[read.row].onHand == read.onHand && rows[read.row].reserved == read.reserved) {
        return Err(Conflict);
      }
      if read.onHand < quantity {
        return Err(CheckFailed);
      }
      rows := rows[read.row := rows[read.row].(onHand := read.onHand - quantity)];
      var drained := ConsumeLots(lots, read.seen, quantity, ForSale);
      if drained.Err? {
        return Err(drained.error);
      }
      if !(location < |locations| && locations[location].volume >= quantity) {
        return Err(VolumeConflict);
      }
      if product >= |products| {
        return Err(NotFound);
      }
      var place := locations[location];
      locations := locations[location := place.(volume := place.volume - quantity)];
      movements := movements + [Outgoing(product, location, quantity)];
      products := products[product := Product(products[product].soldCount + quantity)];
      inventories, lots := rows, drained.value;
      forall a | old(Valid()) && Inv(a) && Later(a, old(Tables()))
             && ReadSell(a, product, location, quantity) == Ok(read)
        ensures Valid()
      {
        LateSaleKeepsBooks(a, old(All()), read, product, location, quantity, All());
      }
      return Ok(());
    }

    method SellStock(product: nat, location: nat, quantity: Units) returns (r: Result<()>)
      modifies this
      ensures r == Done(Exec(old(Tables()), Sell(product, location, quantity)))
      ensures Tables() == After(old(Tables()), Sell(product, location, quantity))
      ensures orders == old(orders) && lines == old(lines)
      ensures old(Valid()) ==> Valid()
    {
      hide PurchasingInv, WriteSell, ReadSell;
      var read := ReadForSale(product, location, quantity);
      if read.Err? {
        return Err(read.error);
      }
      r := CommitSale(read.value, product, location, quantity);
      StockKeepsBooks(old(All()), Sell(product, location, quantity), All());
    }

    // -------------------------------------------------------------- transfers

    method ReadForTransfer(product: nat, source: nat, dest: nat, quantity: Units) returns (r: Result<Moving>)
      ensures r == ReadTransfer(Tables(), product, source, dest, quantity)
    {
      if source == dest {
        return Err(Conflict);
      }
      if source >= |locations| {
        return Err(NotFound);
      }
      if locations[source].hidden || !locations[source].active {
        return Err(Conflict);
      }
      if dest >= |locations| {
        return Err(NotFound);
      }
      if locations[dest].hidden || !locations[dest].active {
        return Err(Conflict);
      }
      if product >= |products| {
        return Err(NotFound);
      }
      var row := FindRow(inventories, product, source);
      if row == None {
        return Err(NotFound);
      }
      var inventory := inventories[row.value];
      if inventory.onHand - inventory.reserved < quantity {
        return Err(Insufficient);
      }
      if locations[dest].volume + quantity > locations[dest].capacity {
        return Err(CapacityExceeded);
      }
      return Ok(Moving(Taking(row.value, inventory.onHand, inventory.reserved, Fifo(lots, row.value)),
                       locations[dest].capacity));
    }

    method CommitTransfer(read: Moving, product: nat, source: nat, dest: nat, quantity: Units, tag: string)
      returns (r: Result<()>)
      modifies this
      ensures r == Done(WriteTransfer(old(Tables()), read, product, source, dest, quantity, tag))
      ensures Tables() == Left(old(Tables()), WriteTransfer(old(Tables()), read, product, source, dest, quantity, tag))
      ensures orders == old(orders) && lines == old(lines)
      ensures forall a ::
                (old(Valid()) && Inv(a) && Later(a, old(Tables()))
                 && ReadTransfer(a, product, source, dest, quantity) == Ok(read))
                ==> Valid()
    {
      hide PurchasingInv, Drain, Inv, Later, ReadTransfer, FindRow, EnsureRow, RowOf;
      var rows := EnsureRow(inventories, product, dest);
      var destRow := RowOf(inventories, product, dest);
      var sourceRow := read.taking.row;
      if !(sourceRow < |rows| && rows[sourceRow].onHand == read.taking.onHand
           && rows[sourceRow].reserved == read.taking.reserved) {
        return Err(Conflict);
      }
      if read.taking.onHand < quantity {
        return Err(CheckFailed);
      }
      rows := rows[sourceRow := rows[sourceRow].(onHand := read.taking.onHand - quantity)];
      var drained := ConsumeLots(lots, read.taking.seen, quantity, ForMove(destRow, tag));
      if drained.Err? {
        return Err(drained.error);
      }
      if !(dest < |locations| && locations[dest].volume <= read.capacity - quantity) {
        return Err(CapacityExceeded);
      }
      if source >= |locations| {
        return Err(NotFound);
      }
      rows := rows[destRow := rows[destRow].(onHand := rows[destRow].onHand + quantity)];
      var places := locations[dest := locations[dest].(volume := locations[dest].volume + quantity)];
      places := places[source := places[source].(volume := places[source].volume - quantity)];
      movements := movements + [Movement.Moved(product, source, dest, quantity)];
      inventories, lots, locations := rows, drained.value, places;
      forall a | old(Valid()) && Inv(a) && Later(a, old(Tables()))
             && ReadTransfer(a, product, source, dest, quantity) == Ok(read)
        ensures Valid()
      {
        LateTransferKeepsBooks(a, old(All()), read, product, source, dest, quantity, tag, All());
      }
      return Ok(());
    }

    method TransferStock(product: nat, source: nat, dest: nat, quantity: Units, tag: string) returns (r: Result<()>)
      modifies this
      ensures r == Done(Exec(old(Tables()), Transfer(product, source, dest, quantity, tag)))
      ensures Tables() == After(old(Tables()), Transfer(product, source, dest, quantity, tag))
      ensures orders == old(orders) && lines == old(lines)
      ensures old(Valid()) ==> Valid()
    {
      hide PurchasingInv, WriteTransfer, ReadTransfer;
      var read := ReadForTransfer(product, source, dest, quantity);
      if read.Err? {
        return Err(read.error);
      }
      r := CommitTransfer(read.value, product, source, dest, quantity, tag);
      StockKeepsBooks(old(All()), Transfer(product, source, dest, quantity, tag), All());
    }

    // -------------------------------------------------------------- receipts

    method ReceiveStock(product: nat, location: nat, quantity: Units, cost: int, code: string, at: int)
      returns (r: Result<()>)
      modifies this
      ensures r == Done(Exec(old(Tables()), Receive(product, location, quantity, cost, code, at)))
      ensures Tables() == After(old(Tables()), Receive(product, location, quantity, cost, code, at))
      ensures orders == old(orders) && lines == old(lines)
      ensures old(Valid()) ==> Valid()
    {
      hide PurchasingInv, FindRow, RowOf, CodeTaken;
      if location >= |locations| {
        return Err(NotFound);
      }
      if locations[location].hidden || !locations[location].active {
        return Err(Conflict);
      }
      if product >= |products| {
        return Err(NotFound);
      }
      if locations[location].volume + quantity > locations[location].capacity {
        return Err(CapacityExceeded);
      }
      if CodeTaken(lots, code) {
        return Err(DuplicateCode);
      }
      var rows := EnsureRow(inventories, product, location);
      var row := RowOf(inventories, product, location);
      var place := locations[location];
      locations := locations[location := place.(volume := place.volume + quantity)];
      inventories := rows[row := rows[row].(onHand := rows[row].onHand + quantity)];
      lots := lots + [Lot(Card(|lots|, row, None, code, quantity, cost, at), quantity, 0)];
      movements := movements + [Incoming(product, location, quantity, None)];
      StockKeepsBooks(old(All()), Receive(product, location, quantity, cost, code, at), All());
      return Ok(());
    }

    // -------------------------------------------------------------- reservations

    method ReserveInventory(row: nat, quantity: Units, expiresAt: int) returns (r: Result<()>)
      modifies this
      ensures r == Done(Exec(old(Tables()), Reserve(row, quantity, expiresAt)))
      ensures Tables() == After(old(Tables()), Reserve(row, quantity, expiresAt))
      ensures orders == old(orders) && lines == old(lines)
      ensures old(Valid()) ==> Valid()
    {
      hide PurchasingInv;
      if row >= |inventories| || inventories[row].location >= |locations|
         || locations[inventories[row].location].hidden {
        return Err(NotFound);
      }
      var inventory := inventories[row];
      if inventory.onHand - inventory.reserved < quantity {
        return Err(Insufficient);
      }
      inventories := inventories[row := inventory.(reserved := inventory.reserved + quantity)];
      reservations := reservations + [Reservation(row, quantity, Active, expiresAt)];
      StockKeepsBooks(old(All()), Reserve(row, quantity, expiresAt), All());
      return Ok(());
    }

    method ReleaseReservation(row: nat, quantity: Units, named: Option<nat>) returns (r: Result<()>)
      modifies this
      ensures r == Done(Exec(old(Tables()), Release(row, quantity, named)))
      ensures Tables() == After(old(Tables()), Release(row, quantity, named))
      ensures orders == old(orders) && lines == old(lines)
      ensures old(Valid()) ==> Valid()
    {
      hide PurchasingInv;
      if row >= |inventories| || inventories[row].location >= |locations|
         || locations[inventories[row].location].hidden {
        return Err(NotFound);
      }
      var inventory := inventories[row];
      if inventory.reserved < quantity {
        return Err(Conflict);
      }
      var released: int := quantity;
      var table := reservations;
      if named.Some? {
        var id := named.value;
        if !(id < |table| && table[id].inventory == row && table[id].status == Active) {
          return Err(NotFound);
        }
        released := table[id].quantity;
        table := table[id := table[id].(status := Released)];
      }
      if inventory.reserved < released {
        return Err(CheckFailed);
      }
      inventories := inventories[row := inventory.(reserved := inventory.reserved - released)];
      reservations := table;
      StockKeepsBooks(old(All()), Release(row, quantity, named), All());
      return Ok(());
    }

    /** One transaction of the sweep; the result says whether the reservation was still active. */
    method ExpireReservation(id: nat) returns (r: Result<bool>)
      modifies this
      ensures Done(r) == Done(ExecExpire(old(Tables()), id))
              && Tables() == Left(old(Tables()), ExecExpire(old(Tables()), id))
      ensures r.Ok? ==> r.value == (id < |old(reservations)| && old(reservations)[id].status == Active)
      ensures orders == old(orders) && lines == old(lines)
      ensures old(Valid()) ==> Valid()
    {
      hide PurchasingInv;
      if !(id < |reservations| && reservations[id].status == Active) {
        return Ok(false);
      }
      var reservation := reservations[id];
      var row := reservation.inventory;
      if row >= |inventories| {
        return Err(NotFound);
      }
      if inventories[row].reserved < reservation.quantity {
        return Err(CheckFailed);
      }
      var reserved := inventories[row].reserved - reservation.quantity;
      inventories := inventories[row := inventories[row].(reserved := reserved)];
      reservations := reservations[id := reservation.(status := Expired)];
      StockKeepsBooks(old(All()), Expire(id), All());
      return Ok(true);
    }

    /** The sweep: one transaction per scanned reservation; a failing one ends the sweep. */
    method ReleaseExpiredReservations(now: int, limit: nat) returns (scanned: nat, released: nat, threw: bool)
      modifies this
      ensures scanned == |Scan(old(Tables()), now, limit)|
      ensures Swept(Tables(), released, threw) == Sweep(old(Tables()), Scan(old(Tables()), now, limit))
      ensures orders == old(orders) && lines == old(lines)
      ensures old(Valid()) ==> Valid()
    {
      hide Scan, ExecExpire, PurchasingInv;
      ghost var start := Tables();
      var expired := Scan(Store(locations, products, inventories, lots, movements, reservations), now, limit);
      scanned, released, threw := |expired|, 0, false;
      var i := 0;
      while i < |expired|
        invariant 0 <= i <= |expired|
        invariant Swept(Tables(), released, false) == Sweep(start, expired[..i])
        invariant orders == old(orders) && lines == old(lines)
        invariant old(Valid()) ==> Valid()
      {
        assert expired[..i + 1][..i] == expired[..i];
        var active := ExpireReservation(expired[i].id);
        if active.Err? {
          SweepStops(start, expired, i + 1);
          threw := true;
          return;
        }
        if active.value {
          released := released + 1;
        }
        i := i + 1;
      }
      assert expired[..i] == expired;
    }

    // -------------------------------------------------------------- purchase orders

    method CreatePurchaseOrder(supplier: bool, newLines: seq<NewLine>) returns (r: Result<()>)
      modifies this
      ensures r == Done(CreateOrder(old(All()), supplier, newLines))
      ensures All() == Left(old(All()), CreateOrder(old(All()), supplier, newLines))
      ensures old(Valid()) && newLines != [] ==> Valid()
    {
      hide PurchasingInv;
      if !supplier {
        return Err(NotFound);
      }
      var stock := Store(locations, products, inventories, lots, movements, reservations);
      for i := 0 to |newLines|
        invariant All() == old(All())
        invariant forall j :: 0 <= j < i ==> InScope(stock, newLines[j])
      {
        if !InScope(stock, newLines[i]) {
          return Err(NotFound);
        }
      }
      lines := lines + NewLines(|orders|, newLines);
      orders := orders + [Draft];
      if newLines != [] {
        ActionKeepsBooks(old(All()), Create(supplier, newLines), All());
      }
      return Ok(());
    }

    method TransitionPurchaseOrder(id: nat, next: OrderStatus) returns (r: Result<()>)
      modifies this
      ensures r == Done(ChangeStatus(old(All()), id, next))
      ensures All() == Left(old(All()), ChangeStatus(old(All()), id, next))
      ensures old(Valid()) ==> Valid()
    {
      hide PurchasingInv;
      if id >= |orders| {
        return Err(NotFound);
      }
      if !Allowed(orders[id], next) {
        return Err(Conflict);
      }
      orders := orders[id := next];
      ActionKeepsBooks(old(All()), Change(id, next), All());
      return Ok(());
    }

    method ReceivePurchaseOrder(id: nat, items: seq<Item>) returns (r: Result<()>)
      modifies this
      ensures r == Done(ReceiveOrder(old(All()), id, items))
      ensures All() == Left(old(All()), ReceiveOrder(old(All()), id, items))
      ensures old(Valid()) ==> Valid()
    {
      hide PurchasingInv, ReceiveItems, Full;
      if id >= |orders| {
        return Err(NotFound);
      }
      if orders[id] != Approved && orders[id] != Received {
        return Err(Conflict);
      }
      var stock := Store(locations, products, inventories, lots, movements, reservations);
      var received := ReceiveEntries(Purchasing(stock, orders, lines), id, lines, items);
      if received.Err? {
        return Err(received.error);
      }
      var tx := received.value;
      var allReceived := Full(tx.lines, id);
      tx := tx.(orders := orders[id := if allReceived then Received else Approved]);
      assert ReceiveOrder(All(), id, items) == Ok(tx);
      ReceiptKeepsBooks(All(), id, items, tx);
      locations, products, inventories := tx.stock.locations, tx.stock.products, tx.stock.inventories;
      lots, movements, reservations := tx.stock.lots, tx.stock.movements, tx.stock.reservations;
      orders, lines := tx.orders, tx.lines;
      assert All() == tx;
      return Ok(());
    }
  }

  /** A receipt that fails at some entry fails as a whole, with that entry's error. */
  lemma {:induction false} ReceiptStops(y: Purchasing, o: nat, before: seq<Line>, items: seq<Item>, n: nat)
    requires n <= |items| && ReceiveItems(y, o, before, items[..n]).Err?
    ensures ReceiveItems(y, o, before, items) == ReceiveItems(y, o, before, items[..n])
    decreases |items| - n
  {
    hide ReceiveItem;
    if n < |items| {
      assert items[..n + 1][..n] == items[..n];
      ReceiptStops(y, o, before, items, n + 1);
    } else {
      assert items[..n] == items;
    }
  }

  // ---------------------------------------------------------------- what every method keeps

  /** An action that commits, or none, keeps the books. */
  lemma ActionKeepsBooks(y: Purchasing, a: Action, y': Purchasing)
    requires Proper(a) && y' == AfterAction(y, a)
    ensures PurchasingInv(y) ==> PurchasingInv(y')
  {
    hide PurchasingInv, Perform;
    if PurchasingInv(y) && Perform(y, a).Ok? {
      PerformInv(y, a);
    }
  }

  lemma ReceiptKeepsBooks(y: Purchasing, o: nat, items: seq<Item>, y': Purchasing)
    requires ReceiveOrder(y, o, items) == Ok(y')
    ensures PurchasingInv(y) ==> PurchasingInv(y')
  {
    hide PurchasingInv, ReceiveOrder;
    ActionKeepsBooks(y, Receipt(o, items), y');
  }

  lemma StockKeepsBooks(y: Purchasing, op: Op, y': Purchasing)
    requires !op.Accept? && y'.stock == After(y.stock, op) && y'.orders == y.orders && y'.lines == y.lines
    ensures PurchasingInv(y) ==> PurchasingInv(y')
  {
    hide PurchasingInv, Exec;
    ActionKeepsBooks(y, OnStock(op), y');
  }

  /** The writes of a sale that read any earlier store. */
  lemma LateSaleKeepsBooks(a: Store, y: Purchasing, read: Taking, p: nat, l: nat, q: Units, y': Purchasing)
    requires PurchasingInv(y) && Inv(a) && Later(a, y.stock) && ReadSell(a, p, l, q) == Ok(read)
    requires WriteSell(y.stock, read, p, l, q) == Ok(y'.stock) && y'.orders == y.orders && y'.lines == y.lines
    ensures PurchasingInv(y')
  {
    hide Inv, Later, ReadSell, WriteSell;
    BooksHaveLedger(y);
    SellLinearizes(a, y.stock, read, p, l, q);
    StockKeepsBooks(y, Sell(p, l, q), y');
  }

  lemma LateTransferKeepsBooks(a: Store, y: Purchasing, read: Moving, p: nat,
                               x: nat, z: nat, q: Units, tag: string, y': Purchasing)
    requires PurchasingInv(y) && Inv(a) && Later(a, y.stock) && ReadTransfer(a, p, x, z, q) == Ok(read)
    requires WriteTransfer(y.stock, read, p, x, z, q, tag) == Ok(y'.stock)
             && y'.orders == y.orders && y'.lines == y.lines
    ensures PurchasingInv(y')
  {
    hide Inv, Later, ReadTransfer, WriteTransfer;
    BooksHaveLedger(y);
    TransferLinearizes(a, y.stock, read, p, x, z, q, tag);
    StockKeepsBooks(y, Transfer(p, x, z, q, tag), y');
  }

  lemma BooksHaveLedger(y: Purchasing)
    requires PurchasingInv(y)
    ensures Inv(y.stock)
  {
    hide Inv;
  }

  /** What any client of the object can rely on, for each row, location, product and order. */
  lemma ObjectAgrees(db: Database, k: nat, l: nat, p: nat, o: nat)
    requires db.Valid()
    ensures k < |db.inventories| ==>
              && 0 <= db.inventories[k].reserved <= db.inventories[k].onHand
              && db.inventories[k].onHand == LotsOnHand(db.lots, k)
    ensures l < |db.locations| ==>
              && 0 <= db.locations[l].volume <= db.locations[l].capacity
              && db.locations[l].volume == SumBy(db.movements, Net(InLocation(l)))
    ensures p < |db.products| ==>
              SumBy(db.inventories, OnHand(OfProduct(p))) + db.products[p].soldCount ==
                SumBy(db.movements, ReceivedIn(p))
    ensures o < |db.orders| ==>
              && (db.orders[o] == Received <==>
                    forall j :: 0 <= j < |db.lines| && db.lines[j].order == o ==>
                      db.lines[j].ordered <= db.lines[j].received)
              && SumBy(db.movements, ForOrder(o)) == SumBy(db.lines, ReceivedOn(o))
  {
    hide SumBy;
    var s := db.Tables();
    assert Inv(s) && OrderLogAgrees(db.All(), o) && LotsAgree(s, k)
           && VolumeAgrees(s, l) && LogAgrees(s, InLocation(l));
    assert o < |db.orders| ==> OrderOk(db.All(), o);
    if l < |db.locations| {
      VolumeBounds(s, l);
    }
    if p < |db.products| {
      UnitsConserved(s, p);
    }
  }
}
