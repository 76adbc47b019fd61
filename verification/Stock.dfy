/**
 The stock tables and the transactions of inventoryService on them, as functions on values.

 A row's number is its place in its table: rows are only ever appended, so the numbers stand for
 the generated ids and also for the order of creation (created_at).
 Every transaction is split as the code splits it: a Read... part that looks at the store and
 decides, and a Write... part that repeats the observed values as update conditions. A throw is an
 Err, and an Err leaves the store as it was.
 */
module Stock {
  import opened Options
  import opened Sums
  import opened Ordering

  /** Quantities that passed request validation: integers above zero. */
  type Units = n: int | 0 < n witness 1

  datatype Error =
    | NotFound | Conflict | Insufficient | LotsShort | CapacityExceeded
    | VolumeConflict | CheckFailed | DuplicateCode

  datatype Result<+T> = Ok(value: T) | Err(error: Error) {
    predicate IsFailure() { Err? }

    function PropagateFailure<U>(): Result<U>
      requires Err?
    {
      Err(error)
    }

    function Extract(): T
      requires Ok?
    {
      value
    }
  }

  datatype Location = Location(capacity: int, volume: int, hidden: bool, active: bool)

  datatype Product = Product(soldCount: int)

  datatype Inventory = Inventory(product: nat, location: nat, onHand: int, reserved: int) {
    function Available(): int { onHand - reserved }
  }

  /** The columns of a lot that no statement ever updates. */
  datatype Card = Card(id: nat, inventory: nat, parent: Option<nat>, code: string,
                       received: nat, cost: int, receivedAt: int)

  /** sold is not a column: it records the units sales took straight from this lot. */
  datatype Lot = Lot(card: Card, onHand: nat, sold: nat)

  /** order is the purchase order named in the reason of a receipt. */
  datatype Movement =
    | Incoming(product: nat, dest: nat, quantity: int, order: Option<nat>)
    | Outgoing(product: nat, source: nat, quantity: int)
    | Moved(product: nat, source: nat, dest: nat, quantity: int)

  datatype Status = Active | Released | Expired

  datatype Reservation = Reservation(inventory: nat, quantity: int, status: Status, expiresAt: int)

  datatype Store = Store(locations: seq<Location>, products: seq<Product>, inventories: seq<Inventory>,
                         lots: seq<Lot>, movements: seq<Movement>, reservations: seq<Reservation>)

  // ---------------------------------------------------------------- inventory rows

  /** The row with this product and location, which are unique together. */
  function FindRow(rows: seq<Inventory>, product: nat, location: nat): (r: Option<nat>)
    ensures r.Some? ==> r.value < |rows| && rows[r.value].product == product && rows[r.value].location == location
    ensures r.None? ==> forall k :: 0 <= k < |rows| ==> rows[k].product != product || rows[k].location != location
  {
    if rows == [] then None
    else
      var n := |rows| - 1;
      if rows[n].product == product && rows[n].location == location then Some(n)
      else FindRow(rows[..n], product, location)
  }

  /** upsert with an empty update: the row is created with nothing in it when it is missing. */
  function EnsureRow(rows: seq<Inventory>, product: nat, location: nat): (r: seq<Inventory>)
    ensures rows <= r && FindRow(r, product, location).Some?
  {
    if FindRow(rows, product, location).Some? then rows
    else
      var r := rows + [Inventory(product, location, 0, 0)];
      assert r[..|rows|] == rows;
      r
  }

  function RowOf(rows: seq<Inventory>, product: nat, location: nat): (k: nat)
    ensures k < |EnsureRow(rows, product, location)|
  {
    FindRow(EnsureRow(rows, product, location), product, location).value
  }

  function AddOnHand(rows: seq<Inventory>, k: nat, quantity: int): seq<Inventory>
    requires k < |rows|
  {
    rows[k := rows[k].(onHand := rows[k].onHand + quantity)]
  }

  function AddVolume(locations: seq<Location>, l: nat, quantity: int): seq<Location>
    requires l < |locations|
  {
    locations[l := locations[l].(volume := locations[l].volume + quantity)]
  }

  /** Conditional decrement of a row; the database CHECK refuses a negative result. */
  function DecrementRow(rows: seq<Inventory>, k: nat, onHand: int, reserved: int, quantity: int): Result<seq<Inventory>>
  {
    if !(k < |rows| && rows[k].onHand == onHand && rows[k].reserved == reserved) then Err(Conflict)
    else if onHand < quantity then Err(CheckFailed)
    else Ok(AddOnHand(rows, k, 0 - quantity))
  }

  // ---------------------------------------------------------------- lots, oldest first

  /** A lot as findMany returned it. */
  datatype Seen = Seen(card: Card, onHand: nat)

  predicate Older(a: Card, b: Card) {
    a.receivedAt < b.receivedAt || (a.receivedAt == b.receivedAt && a.id < b.id)
  }

  predicate OlderSeen(a: Seen, b: Seen) { Older(a.card, b.card) }

  /** The lots of row k that still hold stock, in table order. */
  function LiveIn(lots: seq<Lot>, k: nat): seq<Seen>
  {
    if lots == [] then []
    else
      var l := lots[|lots| - 1];
      LiveIn(lots[..|lots| - 1], k) +
      (if l.card.inventory == k && l.onHand > 0 then [Seen(l.card, l.onHand)] else [])
  }

  /** The lots of row k that still hold stock, ordered by received_at and then creation. */
  function Fifo(lots: seq<Lot>, k: nat): seq<Seen> {
    Sort(LiveIn(lots, k), OlderSeen)
  }

  /** What happens to units taken from a lot: sold, or moved to a child lot in another row. */
  datatype Use = ForSale | ForMove(dest: nat, tag: string)

  predicate CodeTaken(lots: seq<Lot>, code: string) {
    exists i :: 0 <= i < |lots| && lots[i].card.code == code
  }

  function Child(c: Card, id: nat, dest: nat, tag: string, t: nat): Card {
    Card(id, dest, Some(c.id), c.code + "-XFER-" + tag, t, c.cost, c.receivedAt)
  }

  /** One turn of the FIFO loop on a lot whose update condition holds. */
  function TakeFrom(lots: seq<Lot>, c: Card, t: nat, use: Use): seq<Lot>
    requires c.id < |lots| && t <= lots[c.id].onHand
  {
    var l := lots[c.id];
    match use
    case ForSale => lots[c.id := Lot(l.card, l.onHand - t, l.sold + t)]
    case ForMove(dest, tag) =>
      lots[c.id := Lot(l.card, l.onHand - t, l.sold)] + [Lot(Child(c, |lots|, dest, tag, t), t, 0)]
  }

  /** The FIFO loop: take from the observed lots in order until nothing remains to be taken. */
  function Drain(lots: seq<Lot>, seen: seq<Seen>, remaining: nat, use: Use): Result<seq<Lot>>
    decreases |seen|
  {
    if remaining == 0 then Ok(lots)
    else if seen == [] then Err(LotsShort)
    else
      var h := seen[0];
      var t := Min(h.onHand, remaining);
      if t == 0 then Drain(lots, seen[1..], remaining, use)
      else if !(h.card.id < |lots| && lots[h.card.id].onHand == h.onHand) then Err(Conflict)
      else if use.ForMove? && CodeTaken(lots, Child(h.card, |lots|, use.dest, use.tag, t).code) then Err(DuplicateCode)
      else Drain(TakeFrom(lots, h.card, t, use), seen[1..], remaining - t, use)
  }

  // ---------------------------------------------------------------- shared checks

  function Operational(s: Store, l: nat): Result<()> {
    if l >= |s.locations| then Err(NotFound)
    else if s.locations[l].hidden || !s.locations[l].active then Err(Conflict)
    else Ok(())
  }

  function Known(s: Store, product: nat): Result<()> {
    if product < |s.products| then Ok(()) else Err(NotFound)
  }

  /** The lines shared by both kinds of receipt: row, lot, movement and volume. */
  function Deposit(s: Store, product: nat, location: nat, quantity: Units, cost: int, code: string,
                   at: int, order: Option<nat>): Result<Store>
    requires location < |s.locations|
  {
    var rows := EnsureRow(s.inventories, product, location);
    var k := RowOf(s.inventories, product, location);
    if CodeTaken(s.lots, code) then Err(DuplicateCode)
    else Ok(s.(locations := AddVolume(s.locations, location, quantity),
               inventories := AddOnHand(rows, k, quantity),
               lots := s.lots + [Lot(Card(|s.lots|, k, None, code, quantity, cost, at), quantity, 0)],
               movements := s.movements + [Incoming(product, location, quantity, order)]))
  }

  // ---------------------------------------------------------------- receiveStock

  /** Returns the capacity that was read. */
  function ReadReceive(s: Store, product: nat, location: nat, quantity: Units): Result<int> {
    var _ :- Operational(s, location);
    var _ :- Known(s, product);
    if s.locations[location].volume + quantity > s.locations[location].capacity then Err(CapacityExceeded)
    else Ok(s.locations[location].capacity)
  }

  function WriteReceive(s: Store, capacity: int, product: nat, location: nat, quantity: Units, cost: int,
                        code: string, at: int): Result<Store>
  {
    if !(location < |s.locations| && s.locations[location].volume <= capacity - quantity) then Err(CapacityExceeded)
    else Deposit(s, product, location, quantity, cost, code, at, None)
  }

  // ---------------------------------------------------------------- sellStock

  /** The inventory row and the lots as they were read. */
  datatype Taking = Taking(row: nat, onHand: int, reserved: int, seen: seq<Seen>)

  function ReadTaking(s: Store, product: nat, location: nat, quantity: Units): Result<Taking> {
    match FindRow(s.inventories, product, location)
    case None => Err(NotFound)
    case Some(k) =>
      var inv := s.inventories[k];
      if inv.Available() < quantity then Err(Insufficient)
      else Ok(Taking(k, inv.onHand, inv.reserved, Fifo(s.lots, k)))
  }

  function ReadSell(s: Store, product: nat, location: nat, quantity: Units): Result<Taking> {
    var _ :- Operational(s, location);
    var _ :- Known(s, product);
    ReadTaking(s, product, location, quantity)
  }

  function WriteSell(s: Store, read: Taking, product: nat, location: nat, quantity: Units): Result<Store> {
    var rows :- DecrementRow(s.inventories, read.row, read.onHand, read.reserved, quantity);
    var lots :- Drain(s.lots, read.seen, quantity, ForSale);
    if !(location < |s.locations| && quantity <= s.locations[location].volume) then Err(VolumeConflict)
    else if !(product < |s.products|) then Err(NotFound)
    else Ok(s.(locations := AddVolume(s.locations, location, 0 - quantity),
               products := s.products[product := Product(s.products[product].soldCount + quantity)],
               inventories := rows,
               lots := lots,
               movements := s.movements + [Outgoing(product, location, quantity)]))
  }

  // ---------------------------------------------------------------- transferStockBetweenLocations

  /** What a transfer read: the source as for a sale, and the destination's capacity. */
  datatype Moving = Moving(taking: Taking, capacity: int)

  function ReadTransfer(s: Store, product: nat, source: nat, dest: nat, quantity: Units): Result<Moving> {
    if source == dest then Err(Conflict)
    else
      var _ :- Operational(s, source);
      var _ :- Operational(s, dest);
      var _ :- Known(s, product);
      var taking :- ReadTaking(s, product, source, quantity);
      if s.locations[dest].volume + quantity > s.locations[dest].capacity then Err(CapacityExceeded)
      else Ok(Moving(taking, s.locations[dest].capacity))
  }

  function WriteTransfer(s: Store, read: Moving, product: nat, source: nat, dest: nat, quantity: Units,
                         tag: string): Result<Store>
  {
    var ensured := EnsureRow(s.inventories, product, dest);
    var d := RowOf(s.inventories, product, dest);
    var rows :- DecrementRow(ensured, read.taking.row, read.taking.onHand, read.taking.reserved, quantity);
    var lots :- Drain(s.lots, read.taking.seen, quantity, ForMove(d, tag));
    if !(dest < |s.locations| && s.locations[dest].volume <= read.capacity - quantity) then Err(CapacityExceeded)
    else if source >= |s.locations| then Err(NotFound)
    else
      var locations := AddVolume(s.locations, dest, quantity);
      Ok(s.(locations := AddVolume(locations, source, 0 - quantity),
            inventories := AddOnHand(rows, d, quantity),
            lots := lots,
            movements := s.movements + [Moved(product, source, dest, quantity)]))
  }

  // ---------------------------------------------------------------- reservations

  /** An inventory row whose warehouse is not hidden. */
  function VisibleRow(s: Store, k: nat): Result<Inventory> {
    if k >= |s.inventories| then Err(NotFound)
    else
      var l := s.inventories[k].location;
      if l >= |s.locations| || s.locations[l].hidden then Err(NotFound) else Ok(s.inventories[k])
  }

  function ReadReserve(s: Store, k: nat, quantity: Units): Result<Inventory> {
    var inv :- VisibleRow(s, k);
    if inv.Available() < quantity then Err(Insufficient) else Ok(inv)
  }

  function WriteReserve(s: Store, read: Inventory, k: nat, quantity: Units, expiresAt: int): Result<Store> {
    if !(k < |s.inventories| && s.inventories[k].onHand == read.onHand && s.inventories[k].reserved == read.reserved)
    then Err(Conflict)
    else Ok(s.(inventories := s.inventories[k := s.inventories[k].(reserved := read.reserved + quantity)],
               reservations := s.reservations + [Reservation(k, quantity, Active, expiresAt)]))
  }

  /** Decrement of quantity_reserved under the database CHECK. */
  function Unreserve(s: Store, k: nat, quantity: int): Result<Store> {
    if k >= |s.inventories| then Err(NotFound)
    else if s.inventories[k].reserved < quantity then Err(CheckFailed)
    else Ok(s.(inventories := s.inventories[k := s.inventories[k].(reserved := s.inventories[k].reserved - quantity)]))
  }

  function SetStatus(s: Store, r: nat, status: Status): Store
    requires r < |s.reservations|
  {
    s.(reservations := s.reservations[r := s.reservations[r].(status := status)])
  }

  /** The requested quantity is checked first; a named reservation then replaces it by its own. */
  function ExecRelease(s: Store, k: nat, quantity: Units, named: Option<nat>): Result<Store> {
    var inv :- VisibleRow(s, k);
    if inv.reserved < quantity then Err(Conflict)
    else match named
      case None => Unreserve(s, k, quantity)
      case Some(r) =>
        if !(r < |s.reservations| && s.reservations[r].inventory == k && s.reservations[r].status == Active)
        then Err(NotFound)
        else
          var s1 :- Unreserve(s, k, s.reservations[r].quantity);
          Ok(SetStatus(s1, r, Released))
  }

  /** One transaction of the expiry sweep. */
  function ExecExpire(s: Store, r: nat): Result<Store> {
    if !(r < |s.reservations| && s.reservations[r].status == Active) then Ok(s)
    else
      var s1 :- Unreserve(s, s.reservations[r].inventory, s.reservations[r].quantity);
      Ok(SetStatus(s1, r, Expired))
  }

  // ---------------------------------------------------------------- entries of purchase-order receipts

  /**
   One entry of a purchase-order receipt. Unlike receiveStock it asks for no open location, and it
   looks at the capacity last; the product of an order line exists by its foreign key.
   */
  function ExecAccept(s: Store, product: nat, location: nat, quantity: Units, cost: int, code: string,
                      at: int, order: nat): Result<Store>
  {
    if location >= |s.locations| || product >= |s.products| then Err(NotFound)
    else
      var stored :- Deposit(s, product, location, quantity, cost, code, at, Some(order));
      if s.locations[location].volume + quantity > s.locations[location].capacity then Err(Conflict)
      else Ok(stored)
  }

  // ---------------------------------------------------------------- operations and serial runs

  datatype Op =
    | Receive(product: nat, location: nat, quantity: Units, cost: int, code: string, at: int)
    | Sell(product: nat, location: nat, quantity: Units)
    | Transfer(product: nat, source: nat, dest: nat, quantity: Units, tag: string)
    | Reserve(inventory: nat, quantity: Units, expiresAt: int)
    | Release(inventory: nat, quantity: Units, named: Option<nat>)
    | Expire(reservation: nat)
    | Accept(product: nat, location: nat, quantity: Units, cost: int, code: string, at: int, order: nat)

  /** A whole transaction: what it reads and what it writes see the same store. */
  function Exec(s: Store, op: Op): Result<Store> {
    match op
    case Receive(p, l, q, cost, code, at) =>
      var capacity :- ReadReceive(s, p, l, q);
      WriteReceive(s, capacity, p, l, q, cost, code, at)
    case Sell(p, l, q) =>
      var read :- ReadSell(s, p, l, q);
      WriteSell(s, read, p, l, q)
    case Transfer(p, source, dest, q, tag) =>
      var read :- ReadTransfer(s, p, source, dest, q);
      WriteTransfer(s, read, p, source, dest, q, tag)
    case Reserve(k, q, expiresAt) =>
      var read :- ReadReserve(s, k, q);
      WriteReserve(s, read, k, q, expiresAt)
    case Release(k, q, named) => ExecRelease(s, k, q, named)
    case Expire(r) => ExecExpire(s, r)
    case Accept(p, l, q, cost, code, at, order) => ExecAccept(s, p, l, q, cost, code, at, order)
  }

  /** The store after a transaction: an aborted one changes nothing. */
  function After(s: Store, op: Op): Store {
    match Exec(s, op)
    case Ok(s') => s'
    case Err(_) => s
  }

  function Run(s: Store, ops: seq<Op>): Store
  {
    if ops == [] then s else After(Run(s, ops[..|ops| - 1]), ops[|ops| - 1])
  }

  /** Nothing received yet: the fixed locations and products, and no other row. */
  predicate Fresh(s: Store) {
    && (forall l :: 0 <= l < |s.locations| ==> s.locations[l].volume == 0 && 0 <= s.locations[l].capacity)
    && (forall p :: 0 <= p < |s.products| ==> s.products[p].soldCount == 0)
    && s.inventories == [] && s.lots == [] && s.movements == [] && s.reservations == []
  }

  /** The smallest shop: one open location for 10 units, one product, nothing received. */
  function OnePlace(): Store {
    Store([Location(10, 0, false, true)], [Product(0)], [], [], [], [])
  }
}
