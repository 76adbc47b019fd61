/**
 Optimistic transactions of any number of clients. A client's reads happen at one time and its
 conditional writes at a later one; in between, other clients commit. Every interleaving leaves the
 store that running the committed transactions one after the other leaves.
 */
module Concurrent {
  import opened Options
  import opened Sums
  import opened Stock
  import opened FifoLoop
  import opened FifoOrder
  import opened Ledger
  import opened Lineage
  import opened Outcomes

  /** What a transaction remembers from its reads. */
  datatype Reading =
    | OfCapacity(capacity: int)
    | OfTaking(taking: Taking)
    | OfMoving(moving: Moving)
    | OfRow(row: Inventory)

  /** The reads and checks of an optimistic transaction; None for the kinds that are not modelled as such. */
  function Observe(s: Store, op: Op): Option<Result<Reading>> {
    match op
    case Receive(p, l, q, _, _, _) =>
      Some(match ReadReceive(s, p, l, q) case Ok(c) => Ok(OfCapacity(c)) case Err(e) => Err(e))
    case Sell(p, l, q) =>
      Some(match ReadSell(s, p, l, q) case Ok(t) => Ok(OfTaking(t)) case Err(e) => Err(e))
    case Transfer(p, a, b, q, _) =>
      Some(match ReadTransfer(s, p, a, b, q) case Ok(m) => Ok(OfMoving(m)) case Err(e) => Err(e))
    case Reserve(k, q, _) =>
      Some(match ReadReserve(s, k, q) case Ok(r) => Ok(OfRow(r)) case Err(e) => Err(e))
    case Release(_, _, _) => None
    case Expire(_) => None
    case Accept(_, _, _, _, _, _, _) => None
  }

  /** All conditional writes, against the store of the moment. */
  function Finish(s: Store, op: Op, reading: Reading): Result<Store> {
    match (op, reading)
    case (Receive(p, l, q, cost, code, at), OfCapacity(c)) => WriteReceive(s, c, p, l, q, cost, code, at)
    case (Sell(p, l, q), OfTaking(t)) => WriteSell(s, t, p, l, q)
    case (Transfer(p, a, b, q, tag), OfMoving(m)) => WriteTransfer(s, m, p, a, b, q, tag)
    case (Reserve(k, q, expiresAt), OfRow(r)) => WriteReserve(s, r, k, q, expiresAt)
    case _ => Err(Conflict)
  }

  // ---------------------------------------------------------------- what time can change

  /** b is a store that a was, some commits ago. */
  ghost predicate Later(a: Store, b: Store) {
    && |a.products| == |b.products| && |a.locations| == |b.locations|
    && (forall l :: 0 <= l < |a.locations| ==> b.locations[l] == a.locations[l].(volume := b.locations[l].volume))
    && |a.inventories| <= |b.inventories|
    && (forall k :: 0 <= k < |a.inventories| ==>
          b.inventories[k].product == a.inventories[k].product
          && b.inventories[k].location == a.inventories[k].location)
    && Follows(a.lots, b.lots)
  }

  lemma LaterTransitive(a: Store, b: Store, c: Store)
    requires Later(a, b) && Later(b, c)
    ensures Later(a, c)
  {
    FollowsTransitive(a.lots, b.lots, c.lots);
  }

  lemma DepositLater(s: Store, p: nat, l: nat, q: Units, cost: int, code: string, at: int, order: Option<nat>)
    requires Inv(s) && p < |s.products| && l < |s.locations| && Deposit(s, p, l, q, cost, code, at, order).Ok?
    ensures Later(s, Deposit(s, p, l, q, cost, code, at, order).value)
  {
    hide SumBy, FindRow, RowOf, CodeTaken, Follows, LotsOk, ReservationsOk,
         LotsAgree, LogAgrees, VolumeAgrees, SoldAgrees, ReservedAgrees;
    EnsureRowOk(s.inventories, p, l, |s.products|, |s.locations|);
    AppendFollows(s.lots, Deposit(s, p, l, q, cost, code, at, order).value.lots);
  }

  lemma SellLater(s: Store, p: nat, l: nat, q: Units)
    requires Inv(s) && Exec(s, Sell(p, l, q)).Ok?
    ensures Later(s, Exec(s, Sell(p, l, q)).value)
  {
    hide SumBy, Drain, Fifo, Follows;
    var read := SellShape(s, p, l, q);
    DrainFollows(s.lots, read.row, q, ForSale);
  }

  lemma TransferLater(s: Store, p: nat, a: nat, b: nat, q: Units, tag: string)
    requires Inv(s) && Exec(s, Transfer(p, a, b, q, tag)).Ok?
    ensures Later(s, Exec(s, Transfer(p, a, b, q, tag)).value)
  {
    hide Inv, Exec, WriteTransfer, Drain, Fifo, Follows, RowOf;
    var read := TransferShape(s, p, a, b, q, tag);
    TransferKeys(s, read, p, a, b, q, tag);
    ExecKeepsTables(s, Transfer(p, a, b, q, tag));
    assert Numbered(s.lots) by { InvLots(s); }
    DrainFollows(s.lots, read.taking.row, q, ForMove(RowOf(s.inventories, p, b), tag));
  }

  /** Every transaction moves the store forward in this sense. */
  lemma ExecLater(s: Store, op: Op)
    requires Inv(s) && Exec(s, op).Ok?
    ensures Later(s, Exec(s, op).value)
  {
    hide Inv, Drain, Fifo, Deposit, WriteSell, WriteTransfer, Follows;
    match op
    case Receive(p, l, q, cost, code, at) => DepositLater(s, p, l, q, cost, code, at, None);
    case Accept(p, l, q, cost, code, at, order) => DepositLater(s, p, l, q, cost, code, at, Some(order));
    case Sell(p, l, q) => SellLater(s, p, l, q);
    case Transfer(p, a, b, q, tag) => TransferLater(s, p, a, b, q, tag);
    case Reserve(_, _, _) => AppendFollows(s.lots, s.lots);
    case Release(_, _, _) => AppendFollows(s.lots, s.lots);
    case Expire(_) => AppendFollows(s.lots, s.lots);
  }

  lemma AppendFollows(lots: seq<Lot>, lots': seq<Lot>)
    requires lots <= lots'
    ensures Follows(lots, lots')
  {
  }

  /** Over any run: while a lot still has stock, nothing was taken from a younger lot of its row. */
  lemma {:induction false} RunIsFifo(s: Store, ops: seq<Op>)
    requires Inv(s)
    ensures Later(s, Run(s, ops))
    decreases |ops|
  {
    if ops == [] {
      AppendFollows(s.lots, s.lots);
    } else {
      var before := Run(s, ops[..|ops| - 1]);
      RunIsFifo(s, ops[..|ops| - 1]);
      RunInv(s, ops[..|ops| - 1]);
      if Exec(before, ops[|ops| - 1]).Ok? {
        ExecLater(before, ops[|ops| - 1]);
        LaterTransitive(s, before, Exec(before, ops[|ops| - 1]).value);
      }
    }
  }

  // ---------------------------------------------------------------- no ABA

  lemma {:induction false} SumPairwise(s: seq<Lot>, t: seq<Lot>, f: Lot -> int)
    requires |s| == |t| && forall i :: 0 <= i < |s| ==> f(s[i]) == f(t[i])
    ensures SumBy(s, f) == SumBy(t, f)
    decreases |s|
  {
    if s != [] {
      SumPairwise(s[..|s| - 1], t[..|t| - 1], f);
    }
  }

  /** Row k has the same live lots in both tables when they only differ in lots that are not live in it. */
  lemma {:induction false} LiveInSame(lots: seq<Lot>, lots': seq<Lot>, k: nat)
    requires |lots| <= |lots'|
    requires forall i :: 0 <= i < |lots| ==> lots'[i].card == lots[i].card
    requires forall i :: 0 <= i < |lots| && lots[i].card.inventory == k ==> lots'[i].onHand == lots[i].onHand
    requires forall i :: |lots| <= i < |lots'| && lots'[i].card.inventory == k ==> lots'[i].onHand == 0
    ensures LiveIn(lots', k) == LiveIn(lots, k)
    decreases |lots'|
  {
    if lots' != [] {
      var n := |lots'| - 1;
      if |lots| == |lots'| {
        LiveInSame(lots[..n], lots'[..n], k);
      } else {
        LiveInSame(lots, lots'[..n], k);
      }
    }
  }

  /** The oldest live lot is untouched, so every lot of the row that was there is untouched. */
  lemma OldLotsUntouched(lots: seq<Lot>, lots': seq<Lot>, k: nat, i: nat)
    requires Numbered(lots) && Follows(lots, lots') && Fifo(lots, k) != []
    requires i < |lots| && lots[i].card.inventory == k
    requires var first := Fifo(lots, k)[0]; first.card.id < |lots'| && lots'[first.card.id].onHand == first.onHand
    ensures lots'[i].onHand == lots[i].onHand
  {
    var seen := Fifo(lots, k);
    FifoList(lots, k);
    if lots[i].onHand > 0 {
      var m :| 0 <= m < |seen| && seen[m] == Seen(lots[i].card, lots[i].onHand);
      if m > 0 {
        assert OlderSeen(seen[0], seen[m]);
        assert Ahead(lots, seen[0].card.id, i);
      }
    }
  }

  /**
   The aggregate is back at its observed value and the oldest observed lot is untouched: then the
   live lots are exactly the observed ones, whatever was added and removed in between.
   */
  lemma SameLiveLots(lots: seq<Lot>, lots': seq<Lot>, k: nat)
    requires Numbered(lots) && Follows(lots, lots') && LotsOnHand(lots, k) == LotsOnHand(lots', k)
    requires Fifo(lots, k) != []
    requires var first := Fifo(lots, k)[0]; first.card.id < |lots'| && lots'[first.card.id].onHand == first.onHand
    ensures Fifo(lots', k) == Fifo(lots, k)
  {
    hide SumBy;
    var n, f := |lots|, Weigh(InRow(k));
    forall i | 0 <= i < n && lots[i].card.inventory == k
      ensures lots'[i].onHand == lots[i].onHand
    {
      OldLotsUntouched(lots, lots', k, i);
    }
    assert lots'[..n] + lots'[n..] == lots';
    SumConcat(lots'[..n], lots'[n..], f);
    SumPairwise(lots'[..n], lots, f);
    forall j | 0 <= j < |lots'[n..]|
      ensures 0 <= f(lots'[n..][j])
    {
      var l := lots'[n..][j];
      assert f(l) == InRow(k)(l.card, l.onHand);
    }
    SumNonNegative(lots'[n..], f);
    forall i | n <= i < |lots'| && lots'[i].card.inventory == k
      ensures lots'[i].onHand == 0
    {
      assert lots'[n..][i - n] == lots'[i];
      assert f(lots'[n..][i - n]) <= 0;
    }
    LiveInSame(lots, lots', k);
  }

  // ---------------------------------------------------------------- commits linearize

  lemma FirstObserved(lots: seq<Lot>, seen: seq<Seen>, q: nat, use: Use)
    requires Drain(lots, seen, q, use).Ok? && 0 < q && forall m :: 0 <= m < |seen| ==> seen[m].onHand > 0
    ensures seen != [] && seen[0].card.id < |lots| && lots[seen[0].card.id].onHand == seen[0].onHand
  {
  }

  /** A successful decrement of row and lots saw what a fresh read would see. */
  lemma SameTaking(a: Store, b: Store, read: Taking, p: nat, l: nat, q: Units, use: Use)
    requires Inv(a) && Inv(b) && Later(a, b) && ReadTaking(a, p, l, q) == Ok(read)
    requires read.row < |b.inventories| && b.inventories[read.row].onHand == read.onHand
             && b.inventories[read.row].reserved == read.reserved
    requires Drain(b.lots, read.seen, q, use).Ok?
    ensures ReadTaking(b, p, l, q) == Ok(read)
  {
    hide SumBy, Drain, Fifo;
    var k := read.row;
    FindRowUnique(b.inventories, k);
    assert LotsAgree(a, k) && LotsAgree(b, k);
    FifoList(a.lots, k);
    FirstObserved(b.lots, read.seen, q, use);
    SameLiveLots(a.lots, b.lots, k);
  }

  lemma SellLinearizes(a: Store, b: Store, read: Taking, p: nat, l: nat, q: Units)
    requires Inv(a) && Inv(b) && Later(a, b)
    requires ReadSell(a, p, l, q) == Ok(read) && WriteSell(b, read, p, l, q).Ok?
    ensures ReadSell(b, p, l, q) == Ok(read)
  {
    hide SumBy, Drain, Fifo, Inv, Follows, ReadTaking;
    SameTaking(a, b, read, p, l, q, ForSale);
  }

  lemma TransferLinearizes(a: Store, b: Store, read: Moving, p: nat, x: nat, y: nat, q: Units, tag: string)
    requires Inv(a) && Inv(b) && Later(a, b)
    requires ReadTransfer(a, p, x, y, q) == Ok(read) && WriteTransfer(b, read, p, x, y, q, tag).Ok?
    ensures ReadTransfer(b, p, x, y, q) == Ok(read)
  {
    hide SumBy, Drain, Fifo, Follows, ReadTaking;
    assert ReadTaking(a, p, x, q) == Ok(read.taking);
    assert read.taking.row < |a.inventories| && a.inventories[read.taking.row].reserved == read.taking.reserved by {
      TakingRow(a, read.taking, p, x, q);
    }
    SameTaking(a, b, read.taking, p, x, q, ForMove(RowOf(b.inventories, p, y), tag));
  }

  lemma TakingRow(a: Store, read: Taking, p: nat, l: nat, q: Units)
    requires ReadTaking(a, p, l, q) == Ok(read)
    ensures read.row < |a.inventories| && a.inventories[read.row] == Inventory(p, l, read.onHand, read.reserved)
  {
  }

  /** A commit against a later store succeeds only if it does what the whole transaction would do there. */
  lemma CommitLinearizes(a: Store, b: Store, op: Op, reading: Reading)
    requires Inv(a) && Inv(b) && Later(a, b)
    requires Observe(a, op) == Some(Ok(reading)) && Finish(b, op, reading).Ok?
    ensures Exec(b, op) == Finish(b, op, reading)
  {
    hide SumBy, Drain, Fifo, Follows, WriteSell, WriteTransfer, Deposit;
    match op
    case Receive(_, _, _, _, _, _) =>
    case Sell(p, l, q) => SellLinearizes(a, b, reading.taking, p, l, q);
    case Transfer(p, x, y, q, tag) => TransferLinearizes(a, b, reading.moving, p, x, y, q, tag);
    case Reserve(_, _, _) =>
  }

  /** The row and the oldest observed lot are what the reader saw. */
  predicate StillSeen(b: Store, read: Taking) {
    && read.row < |b.inventories|
    && b.inventories[read.row].onHand == read.onHand && b.inventories[read.row].reserved == read.reserved
    && read.seen != [] && read.seen[0].card.id < |b.lots|
    && b.lots[read.seen[0].card.id].onHand == read.seen[0].onHand
  }

  /** Then a reader sees the same now. */
  lemma StillReads(a: Store, b: Store, read: Taking, p: nat, l: nat, q: Units)
    requires Inv(a) && Inv(b) && Later(a, b) && ReadTaking(a, p, l, q) == Ok(read) && StillSeen(b, read)
    ensures ReadTaking(b, p, l, q) == Ok(read)
  {
    hide SumBy, Fifo, Follows;
    var k := read.row;
    FindRowUnique(b.inventories, k);
    assert LotsAgree(a, k) && LotsAgree(b, k);
    FifoList(a.lots, k);
    SameLiveLots(a.lots, b.lots, k);
  }

  /** A reader that finds enough stock finds lots. */
  lemma SomethingSeen(a: Store, read: Taking, p: nat, l: nat, q: Units)
    requires Inv(a) && ReadTaking(a, p, l, q) == Ok(read)
    ensures read.seen != [] && q <= read.onHand
  {
    hide SumBy, Drain, Fifo;
    FifoList(a.lots, read.row);
    LotsCover(a, p, l, q, ForSale);
    FirstObserved(a.lots, read.seen, q, ForSale);
  }

  /**
   A sale that read an earlier store commits exactly when the row has the observed quantities and the
   oldest observed lot still has its observed quantity. The conditions on the other lots follow.
   */
  lemma StaleSaleCommitsIff(a: Store, b: Store, read: Taking, p: nat, l: nat, q: Units)
    requires Inv(a) && Inv(b) && Later(a, b) && Observe(a, Sell(p, l, q)) == Some(Ok(OfTaking(read)))
    ensures read.seen != []
    ensures var late := Finish(b, Sell(p, l, q), OfTaking(read));
            (late.Ok? <==> StillSeen(b, read)) && (late.Err? ==> late.error == Conflict)
  {
    hide Inv, SumBy, Drain, Fifo, Follows, ReadTaking, FindRow;
    assert ReadTaking(a, p, l, q) == Ok(read);
    SomethingSeen(a, read, p, l, q);
    SeenHaveStock(a, read, p, l, q);
    TakingRow(a, read, p, l, q);
    if StillSeen(b, read) {
      StillReads(a, b, read, p, l, q);
      TakingEnough(b, read, p, l, q);
      SellCommitsIff(b, p, l, q);
    } else {
      OldestChanged(b.lots, read.seen, q, ForSale);
    }
  }

  /** When the oldest observed lot has changed, the loop stops at it. */
  lemma OldestChanged(lots: seq<Lot>, seen: seq<Seen>, q: nat, use: Use)
    requires seen != [] && 0 < q && 0 < seen[0].onHand
    ensures !(seen[0].card.id < |lots| && lots[seen[0].card.id].onHand == seen[0].onHand) ==>
              Drain(lots, seen, q, use) == Err(Conflict)
  {
  }

  /**
   A transfer that read an earlier store commits exactly when the row and its oldest observed lot are
   unchanged, the destination still has room, and the child codes are still unused.
   */
  lemma StaleTransferCommitsIff(a: Store, b: Store, read: Moving, p: nat, x: nat, y: nat, q: Units, tag: string)
    requires Inv(a) && LineageInv(b) && Later(a, b)
    requires Observe(a, Transfer(p, x, y, q, tag)) == Some(Ok(OfMoving(read)))
    ensures read.taking.seen != [] && y < |b.locations|
    ensures var late := Finish(b, Transfer(p, x, y, q, tag), OfMoving(read));
            && (late.Ok? <==>
                  && StillSeen(b, read.taking)
                  && b.locations[y].volume + q <= b.locations[y].capacity
                  && CodesFree(b.lots, read.taking.seen, q, tag))
            && (late.Err? ==> late.error == if !StillSeen(b, read.taking) then Conflict
                                            else if !CodesFree(b.lots, read.taking.seen, q, tag) then DuplicateCode
                                            else CapacityExceeded)
  {
    hide Inv, SumBy, Drain, Fifo, Follows, ReadTaking, FindRow, RowOf, CodesFree;
    var taking := read.taking;
    assert ReadTransfer(a, p, x, y, q) == Ok(read) && ReadTaking(a, p, x, q) == Ok(taking);
    SomethingSeen(a, taking, p, x, q);
    SeenHaveStock(a, taking, p, x, q);
    TakingRow(a, taking, p, x, q);
    if StillSeen(b, taking) {
      StillReads(a, b, taking, p, x, q);
      TakingEnough(b, taking, p, x, q);
      MoveDrainsIff(b, p, x, q, RowOf(b.inventories, p, y), tag);
    } else {
      OldestChanged(b.lots, taking.seen, q, ForMove(RowOf(b.inventories, p, y), tag));
    }
  }

  /** A reservation that read an earlier store commits exactly when its row has the same two quantities. */
  lemma StaleReserveCommitsIff(a: Store, b: Store, row: Inventory, k: nat, q: Units, expiresAt: int)
    requires Later(a, b) && Observe(a, Reserve(k, q, expiresAt)) == Some(Ok(OfRow(row)))
    ensures k < |a.inventories| && k < |b.inventories|
    ensures var late := Finish(b, Reserve(k, q, expiresAt), OfRow(row));
            && (late.Ok? <==>
                  && b.inventories[k].onHand == a.inventories[k].onHand
                  && b.inventories[k].reserved == a.inventories[k].reserved)
            && (late.Err? ==> late.error == Conflict)
  {
    hide Follows;
  }

  /** A receipt that read an earlier store commits exactly when its units still fit and its code is unused. */
  lemma StaleReceiptCommitsIff(a: Store, b: Store, c: int, p: nat, l: nat, q: Units, cost: int, code: string, at: int)
    requires Later(a, b) && Observe(a, Receive(p, l, q, cost, code, at)) == Some(Ok(OfCapacity(c)))
    ensures l < |b.locations|
    ensures var late := Finish(b, Receive(p, l, q, cost, code, at), OfCapacity(c));
            && (late.Ok? <==>
                  && b.locations[l].volume + q <= b.locations[l].capacity
                  && forall i :: 0 <= i < |b.lots| ==> b.lots[i].card.code != code)
            && (late.Err? ==> late.error == if b.locations[l].volume + q > b.locations[l].capacity
                                            then CapacityExceeded
                                            else DuplicateCode)
  {
    hide Follows, EnsureRow, RowOf;
  }

  lemma SeenHaveStock(a: Store, read: Taking, p: nat, l: nat, q: Units)
    requires Inv(a) && ReadTaking(a, p, l, q) == Ok(read)
    ensures forall m :: 0 <= m < |read.seen| ==> read.seen[m].onHand > 0
  {
    hide Fifo;
    InvLots(a);
    FifoList(a.lots, read.row);
  }

  lemma TakingEnough(s: Store, read: Taking, p: nat, l: nat, q: Units)
    requires ReadTaking(s, p, l, q) == Ok(read)
    ensures Enough(s, p, l, q) && FindRow(s.inventories, p, l) == Some(read.row) && read.seen == Fifo(s.lots, read.row)
  {
    hide Fifo;
  }

  // ---------------------------------------------------------------- systems of clients

  datatype Pending = Pending(op: Op, reading: Reading)

  datatype Event =
    | Begin(client: nat, op: Op)
    | Commit(client: nat)
    | Whole(op: Op)

  datatype System = System(store: Store, pending: map<nat, Pending>)

  /** One step: a client reads, a client commits what it read before, or a transaction runs in one piece. */
  function Step(y: System, e: Event): System {
    match e
    case Begin(c, op) =>
      (match Observe(y.store, op)
       case Some(Ok(r)) => y.(pending := y.pending[c := Pending(op, r)])
       case _ => y.(pending := y.pending - {c}))
    case Commit(c) =>
      if c !in y.pending then y
      else
        (match Finish(y.store, y.pending[c].op, y.pending[c].reading)
         case Ok(s') => System(s', y.pending - {c})
         case Err(_) => y.(pending := y.pending - {c}))
    case Whole(op) => y.(store := After(y.store, op))
  }

  /** The transaction that this step commits, if any. */
  function Committed(y: System, e: Event): seq<Op> {
    match e
    case Begin(_, _) => []
    case Commit(c) =>
      if c in y.pending && Finish(y.store, y.pending[c].op, y.pending[c].reading).Ok? then [y.pending[c].op] else []
    case Whole(op) => if Exec(y.store, op).Ok? then [op] else []
  }

  function Interleave(y: System, events: seq<Event>): System
  {
    if events == [] then y else Step(Interleave(y, events[..|events| - 1]), events[|events| - 1])
  }

  /** The committed transactions in the order of their commits. */
  function History(y: System, events: seq<Event>): seq<Op>
  {
    if events == [] then []
    else
      History(y, events[..|events| - 1]) +
      Committed(Interleave(y, events[..|events| - 1]), events[|events| - 1])
  }

  /** Running transactions one after the other, all of which must commit. */
  function Serial(s: Store, ops: seq<Op>): Result<Store>
  {
    if ops == [] then Ok(s)
    else
      var before :- Serial(s, ops[..|ops| - 1]);
      Exec(before, ops[|ops| - 1])
  }

  /** A client with nobody in between: reading and committing is the whole transaction, committed or not. */
  lemma AloneIsWhole(y: System, c: nat, op: Op)
    requires op.Receive? || op.Sell? || op.Transfer? || op.Reserve?
    ensures Interleave(y, [Begin(c, op), Commit(c)]) == System(After(y.store, op), y.pending - {c})
  {
    hide ReadReceive, ReadSell, ReadTransfer, ReadReserve, WriteReceive, WriteSell, WriteTransfer, WriteReserve;
    var both := [Begin(c, op), Commit(c)];
    assert both[..1] == [Begin(c, op)] && both[..1][..0] == [];
    assert Interleave(y, both[..1]) == Step(y, Begin(c, op));
    if c in Step(y, Begin(c, op)).pending {
      assert Step(y, Begin(c, op)).pending - {c} == y.pending - {c};
    }
  }

  /** A commit leaves what its writes leave, and otherwise the store as it is; either way the client is done. */
  lemma CommitLeaves(y: System, c: nat)
    requires c in y.pending
    ensures var late, y' := Finish(y.store, y.pending[c].op, y.pending[c].reading), Step(y, Commit(c));
            y'.pending == y.pending - {c} && y'.store == if late.Ok? then late.value else y.store
  {
    hide Finish;
  }

  /** A reading was taken from an earlier store of the same run. */
  ghost predicate Grounded(s: Store, p: Pending) {
    exists a :: Inv(a) && Later(a, s) && Observe(a, p.op) == Some(Ok(p.reading))
  }

  ghost predicate SystemOk(y: System) {
    Inv(y.store) && forall c :: c in y.pending ==> Grounded(y.store, y.pending[c])
  }

  lemma StoreMovesOn(y: System, s': Store, op: Op, pending: map<nat, Pending>)
    requires SystemOk(y) && Exec(y.store, op) == Ok(s') && pending.Keys <= y.pending.Keys
    requires forall c :: c in pending ==> pending[c] == y.pending[c]
    ensures SystemOk(System(s', pending))
  {
    ExecInv(y.store, op);
    ExecLater(y.store, op);
    forall c | c in pending
      ensures Grounded(s', pending[c])
    {
      assert Grounded(y.store, y.pending[c]);
      var a :| Inv(a) && Later(a, y.store) && Observe(a, pending[c].op) == Some(Ok(pending[c].reading));
      LaterTransitive(a, y.store, s');
    }
  }

  lemma StepOk(y: System, e: Event)
    requires SystemOk(y)
    ensures SystemOk(Step(y, e))
    ensures Committed(y, e) == [] ==> Step(y, e).store == y.store
    ensures Committed(y, e) != [] ==>
              |Committed(y, e)| == 1 && Exec(y.store, Committed(y, e)[0]) == Ok(Step(y, e).store)
  {
    hide Inv, Later, Exec, Finish, Observe;
    match e
    case Begin(c, op) => BeginOk(y, c, op);
    case Commit(c) => CommitOk(y, c);
    case Whole(op) =>
      if Exec(y.store, op).Ok? {
        StoreMovesOn(y, Exec(y.store, op).value, op, y.pending);
      }
  }

  lemma BeginOk(y: System, c: nat, op: Op)
    requires SystemOk(y)
    ensures SystemOk(Step(y, Begin(c, op)))
  {
    hide Inv, Observe;
    AppendFollows(y.store.lots, y.store.lots);
    assert Later(y.store, y.store);
  }

  lemma CommitOk(y: System, c: nat)
    requires SystemOk(y)
    ensures SystemOk(Step(y, Commit(c)))
    ensures Committed(y, Commit(c)) != [] ==> Exec(y.store, y.pending[c].op) == Ok(Step(y, Commit(c)).store)
  {
    hide Inv, Later, Exec, Finish, Observe;
    if c in y.pending {
      var p := y.pending[c];
      if Finish(y.store, p.op, p.reading).Ok? {
        assert Grounded(y.store, p);
        var a :| Inv(a) && Later(a, y.store) && Observe(a, p.op) == Some(Ok(p.reading));
        CommitLinearizes(a, y.store, p.op, p.reading);
        StoreMovesOn(y, Step(y, Commit(c)).store, p.op, y.pending - {c});
      }
    }
  }

  /**
   Serializability: whatever the interleaving, the store is the one that the committed transactions
   leave when they run alone, one after the other, in the order of their commits.
   */
  lemma {:induction false} Linearizable(y: System, events: seq<Event>)
    requires SystemOk(y)
    ensures SystemOk(Interleave(y, events))
    ensures Serial(y.store, History(y, events)) == Ok(Interleave(y, events).store)
    decreases |events|
  {
    hide Inv, Later, Exec, Step, Committed, SystemOk;
    if events != [] {
      var init, e := events[..|events| - 1], events[|events| - 1];
      var mid, h := Interleave(y, init), History(y, init);
      Linearizable(y, init);
      StepOk(mid, e);
      if Committed(mid, e) == [] {
        assert History(y, events) == h;
      } else {
        assert History(y, events)[..|h|] == h && |History(y, events)| == |h| + 1;
      }
    }
  }

  lemma {:induction false} SerialIsRun(s: Store, ops: seq<Op>)
    requires Serial(s, ops).Ok?
    ensures Run(s, ops) == Serial(s, ops).value
    decreases |ops|
  {
    hide Exec;
    if ops != [] {
      SerialIsRun(s, ops[..|ops| - 1]);
    }
  }

  /** From an empty store no interleaving breaks the ledger: nothing is oversold, lost or created. */
  lemma ConcurrentRunsKeepLedger(s: Store, events: seq<Event>)
    requires Fresh(s)
    ensures LineageInv(Interleave(System(s, map[]), events).store)
    ensures Interleave(System(s, map[]), events).store == Run(s, History(System(s, map[]), events))
  {
    var y := System(s, map[]);
    FreshInv(s);
    Linearizable(y, events);
    SerialIsRun(s, History(y, events));
    RunLineage(s, History(y, events));
  }
}
