/** Exactly when a sale, a transfer and a receipt commit, in any reachable store. */
module Outcomes {
  import opened Options
  import opened Sums
  import opened Stock
  import opened FifoLoop
  import opened FifoOrder
  import opened Ledger
  import opened Lineage

  predicate Open(s: Store, l: nat) {
    l < |s.locations| && !s.locations[l].hidden && s.locations[l].active
  }

  predicate Enough(s: Store, p: nat, l: nat, q: int) {
    var k := FindRow(s.inventories, p, l);
    k.Some? && q <= s.inventories[k.value].onHand - s.inventories[k.value].reserved
  }

  /** The live lots of a row cover the aggregate, so the loop cannot run short. */
  lemma LotsCover(s: Store, p: nat, l: nat, q: Units, use: Use)
    requires Inv(s) && Enough(s, p, l, q)
    ensures var k := FindRow(s.inventories, p, l).value;
            Drain(s.lots, Fifo(s.lots, k), q, use).Ok?
            || (use.ForMove? && Drain(s.lots, Fifo(s.lots, k), q, use) == Err(DuplicateCode))
  {
    hide SumBy;
    var k := FindRow(s.inventories, p, l).value;
    assert LotsAgree(s, k);
    FifoList(s.lots, k);
    FifoUnits(s.lots, k);
    DrainSucceeds(s.lots, Fifo(s.lots, k), q, use);
  }

  /**
   A sale commits exactly when the location is open, the product exists and enough unreserved stock is
   there. The other throws (short lots, changed rows, location volume) are unreachable without a race.
   */
  lemma SellCommitsIff(s: Store, p: nat, l: nat, q: Units)
    requires Inv(s)
    ensures Exec(s, Sell(p, l, q)).Ok? <==> Open(s, l) && p < |s.products| && Enough(s, p, l, q)
    ensures Exec(s, Sell(p, l, q)).Err? ==>
              Exec(s, Sell(p, l, q)).error == if l >= |s.locations| then NotFound
                                              else if !Open(s, l) then Conflict
                                              else if p >= |s.products| then NotFound
                                              else if FindRow(s.inventories, p, l).None? then NotFound
                                              else Insufficient
  {
    hide SumBy, Drain;
    if Open(s, l) && p < |s.products| && Enough(s, p, l, q) {
      var k := FindRow(s.inventories, p, l).value;
      LotsCover(s, p, l, q, ForSale);
      VolumeCoversRow(s, k);
    }
  }

  /** The tables after a sale that commits: one row, one volume, one counter, its lots and the log. */
  lemma SellLeaves(s: Store, p: nat, l: nat, q: Units)
    requires Inv(s) && Exec(s, Sell(p, l, q)).Ok?
    ensures p < |s.products| && l < |s.locations| && FindRow(s.inventories, p, l).Some?
    ensures FindRow(Exec(s, Sell(p, l, q)).value.inventories, p, l) == FindRow(s.inventories, p, l)
    ensures var s', k := Exec(s, Sell(p, l, q)).value, FindRow(s.inventories, p, l).value;
            var row, place := s.inventories[k], s.locations[l];
            && Drain(s.lots, Fifo(s.lots, k), q, ForSale) == Ok(s'.lots)
            && s' == s.(locations := s.locations[l := place.(volume := place.volume - q)],
                        products := s.products[p := Product(s.products[p].soldCount + q)],
                        inventories := s.inventories[k := Inventory(p, l, row.onHand - q, row.reserved)],
                        lots := s'.lots,
                        movements := s.movements + [Outgoing(p, l, q)])
  {
    var read := SellShape(s, p, l, q);
    hide Exec, Drain, Fifo, LotsOk, ReservationsOk, LotsAgree, LogAgrees, VolumeAgrees, SoldAgrees, ReservedAgrees;
    var k := read.row;
    FindRowUnique(AddOnHand(s.inventories, k, 0 - q), k);
  }

  lemma StillOpen(s: Store, s': Store, l: nat)
    requires Open(s, l) && l < |s'.locations| && s'.locations[l] == s.locations[l].(volume := s'.locations[l].volume)
    ensures Open(s', l)
  {
  }

  /** Selling a and then b is selling a + b, apart from the log having two entries. */
  lemma SalesCompose(s: Store, p: nat, l: nat, a: Units, b: Units)
    requires Inv(s)
    ensures Exec(s, Sell(p, l, a + b)).Ok? <==>
              Exec(s, Sell(p, l, a)).Ok? && Exec(Exec(s, Sell(p, l, a)).value, Sell(p, l, b)).Ok?
    ensures Exec(s, Sell(p, l, a + b)).Ok? ==>
              var twice := Exec(Exec(s, Sell(p, l, a)).value, Sell(p, l, b)).value;
              && Exec(s, Sell(p, l, a + b)).value == twice.(movements := s.movements + [Outgoing(p, l, a + b)])
              && twice.movements == s.movements + [Outgoing(p, l, a), Outgoing(p, l, b)]
  {
    hide Inv, Exec, Drain, Fifo, FindRow, Open;
    SellCommitsIff(s, p, l, a);
    SellCommitsIff(s, p, l, a + b);
    if Exec(s, Sell(p, l, a)).Ok? {
      var s1 := Exec(s, Sell(p, l, a)).value;
      var k := FindRow(s.inventories, p, l).value;
      SellLeaves(s, p, l, a);
      ExecInv(s, Sell(p, l, a));
      SellCommitsIff(s1, p, l, b);
      StillOpen(s, s1, l);
      if Exec(s, Sell(p, l, a + b)).Ok? {
        var s2, once := Exec(s1, Sell(p, l, b)).value, Exec(s, Sell(p, l, a + b)).value;
        SellLeaves(s1, p, l, b);
        SellLeaves(s, p, l, a + b);
        assert Numbered(s.lots) && Numbered(s1.lots) by { InvLots(s); InvLots(s1); }
        SalesAdd(s.lots, s1.lots, s2.lots, once.lots, k, a, b);
        assert s2.inventories == once.inventories && s2.products == once.products && s2.locations == once.locations;
      }
    }
  }

  // ---------------------------------------------------------------- transfers

  /** The child codes of the lots a transfer would take from are all unused. */
  predicate CodesFree(lots: seq<Lot>, seen: seq<Seen>, q: nat, tag: string)
    decreases |seen|
  {
    q == 0 || seen == [] ||
    var t := Min(seen[0].onHand, q);
    (t == 0 || !CodeTaken(lots, seen[0].card.code + "-XFER-" + tag)) && CodesFree(lots, seen[1..], q - t, tag)
  }

  lemma CodesDiffer(a: string, b: string, tail: string)
    ensures a + tail == b + tail ==> a == b
  {
    if a + tail == b + tail {
      assert (a + tail)[..|a|] == a && (b + tail)[..|b|] == b;
    }
  }

  /** Adding a child with a code of its own does not take the codes of the later children. */
  lemma {:induction false} CodesStayFree(lots: seq<Lot>, lots': seq<Lot>, code: string,
                                         seen: seq<Seen>, q: nat, tag: string)
    requires forall x :: CodeTaken(lots', x) <==> CodeTaken(lots, x) || x == code + "-XFER-" + tag
    requires forall m :: 0 <= m < |seen| ==> seen[m].card.code != code
    ensures CodesFree(lots', seen, q, tag) == CodesFree(lots, seen, q, tag)
    decreases |seen|
  {
    if q > 0 && seen != [] {
      var x := seen[0].card.code;
      CodesDiffer(x, code, "-XFER-" + tag);
      assert x + "-XFER-" + tag == x + ("-XFER-" + tag) && code + "-XFER-" + tag == code + ("-XFER-" + tag);
      CodesStayFree(lots, lots', code, seen[1..], q - Min(seen[0].onHand, q), tag);
    }
  }

  lemma MoveTakesCode(lots: seq<Lot>, c: Card, t: nat, dest: nat, tag: string)
    requires c.id < |lots| && lots[c.id].card == c && t <= lots[c.id].onHand
    ensures forall x :: CodeTaken(TakeFrom(lots, c, t, ForMove(dest, tag)), x) <==>
              CodeTaken(lots, x) || x == c.code + "-XFER-" + tag
  {
    var lots' := TakeFrom(lots, c, t, ForMove(dest, tag));
    forall x
      ensures CodeTaken(lots', x) <==> CodeTaken(lots, x) || x == c.code + "-XFER-" + tag
    {
      assert lots'[|lots|].card.code == c.code + "-XFER-" + tag;
      if CodeTaken(lots, x) {
        var i :| 0 <= i < |lots| && lots[i].card.code == x;
        assert lots'[i].card.code == x;
      }
    }
  }

  lemma HeadAndTail(lots: seq<Lot>, seen: seq<Seen>)
    requires seen != [] && Observed(lots, seen) && UpToDate(lots, seen)
    ensures var h := seen[0];
            h.card.id < |lots| && lots[h.card.id].card == h.card && lots[h.card.id].onHand == h.onHand
    ensures Observed(lots, seen[1..]) && UpToDate(lots, seen[1..])
  {
  }

  /** With up-to-date and sufficient observations the transfer loop succeeds exactly when its codes are free. */
  lemma {:induction false} MoveSucceedsIff(lots: seq<Lot>, seen: seq<Seen>, q: nat, dest: nat, tag: string)
    requires Observed(lots, seen) && UpToDate(lots, seen) && q <= SumBy(seen, Quantity())
    requires forall m, n :: 0 <= m < n < |seen| ==> seen[m].card.code != seen[n].card.code
    ensures Drain(lots, seen, q, ForMove(dest, tag)).Ok? == CodesFree(lots, seen, q, tag)
    decreases |seen|
  {
    hide SumBy, CodeTaken, Observed, UpToDate, TakeFrom;
    DrainSucceeds(lots, seen, q, ForMove(dest, tag));
    if q > 0 && seen != [] {
      var c, t, rest := seen[0].card, Min(seen[0].onHand, q), seen[1..];
      QuantityHead(seen);
      HeadAndTail(lots, seen);
      if t == 0 {
        MoveSucceedsIff(lots, rest, q, dest, tag);
      } else if !CodeTaken(lots, c.code + "-XFER-" + tag) {
        var lots' := TakeFrom(lots, c, t, ForMove(dest, tag));
        TakeKeepsObserved(lots, seen, t, ForMove(dest, tag));
        MoveSucceedsIff(lots', rest, q - t, dest, tag);
        MoveTakesCode(lots, c, t, dest, tag);
        CodesStayFree(lots, lots', c.code, rest, q - t, tag);
      }
    }
  }

  /** With enough unreserved stock the transfer loop succeeds exactly when its codes are free. */
  lemma MoveDrainsIff(s: Store, p: nat, a: nat, q: Units, d: nat, tag: string)
    requires LineageInv(s) && Enough(s, p, a, q)
    ensures var seen := Fifo(s.lots, FindRow(s.inventories, p, a).value);
            var drained := Drain(s.lots, seen, q, ForMove(d, tag));
            (drained.Ok? <==> CodesFree(s.lots, seen, q, tag)) && (drained.Err? ==> drained.error == DuplicateCode)
  {
    hide SumBy, Drain, Fifo, CodesFree;
    var k := FindRow(s.inventories, p, a).value;
    assert LotsAgree(s, k);
    FifoList(s.lots, k);
    FifoUnits(s.lots, k);
    MoveSucceedsIff(s.lots, Fifo(s.lots, k), q, d, tag);
    LotsCover(s, p, a, q, ForMove(d, tag));
  }

  /**
   A transfer commits exactly when the places differ and are open, the product exists, the source has
   enough unreserved stock, the destination has room, and the child lot codes are unused.
   */
  lemma TransferCommitsIff(s: Store, p: nat, a: nat, b: nat, q: Units, tag: string)
    requires LineageInv(s)
    ensures Exec(s, Transfer(p, a, b, q, tag)).Ok? <==>
              && a != b && Open(s, a) && Open(s, b) && p < |s.products| && Enough(s, p, a, q)
              && s.locations[b].volume + q <= s.locations[b].capacity
              && CodesFree(s.lots, Fifo(s.lots, FindRow(s.inventories, p, a).value), q, tag)
    ensures Exec(s, Transfer(p, a, b, q, tag)).Err? ==>
              Exec(s, Transfer(p, a, b, q, tag)).error == if a == b then Conflict
                                                          else if a >= |s.locations| then NotFound
                                                          else if !Open(s, a) then Conflict
                                                          else if b >= |s.locations| then NotFound
                                                          else if !Open(s, b) then Conflict
                                                          else if p >= |s.products| then NotFound
                                                          else if FindRow(s.inventories, p, a).None? then NotFound
                                                          else if !Enough(s, p, a, q) then Insufficient
                                                          else if s.locations[b].volume + q > s.locations[b].capacity
                                                          then CapacityExceeded
                                                          else DuplicateCode
  {
    hide SumBy, Drain, Fifo, CodesFree;
    if a != b && Open(s, a) && Open(s, b) && p < |s.products| && Enough(s, p, a, q) {
      MoveDrainsIff(s, p, a, q, RowOf(s.inventories, p, b), tag);
    }
  }

  /**
   A receipt commits exactly when the place is open, the product exists, the units fit and the lot code
   is unused; it adds one lot, which has no parent and lies in the row of the product at the place.
   */
  lemma ReceiveCommitsIff(s: Store, p: nat, l: nat, q: Units, cost: int, code: string, at: int)
    ensures var r := Exec(s, Receive(p, l, q, cost, code, at));
            && (r.Ok? <==>
                  && Open(s, l) && p < |s.products|
                  && s.locations[l].volume + q <= s.locations[l].capacity
                  && forall i :: 0 <= i < |s.lots| ==> s.lots[i].card.code != code)
            && (r.Ok? ==>
                  && |r.value.lots| == |s.lots| + 1 && s.lots <= r.value.lots
                  && var lot := r.value.lots[|s.lots|];
                     && lot.onHand == q == lot.card.received && lot.sold == 0 && lot.card.parent == None
                     && lot.card.code == code && lot.card.cost == cost && lot.card.receivedAt == at
                     && FindRow(r.value.inventories, p, l) == Some(lot.card.inventory))
            && (r.Err? ==> r.error == if l >= |s.locations| then NotFound
                                      else if !Open(s, l) then Conflict
                                      else if p >= |s.products| then NotFound
                                      else if s.locations[l].volume + q > s.locations[l].capacity then CapacityExceeded
                                      else DuplicateCode)
  {
    hide FindRow, RowOf;
    if Exec(s, Receive(p, l, q, cost, code, at)).Ok? {
      RowAfterAdd(s.inventories, p, l, q);
    }
  }

  /** Adding to a row does not change which row a product and location have. */
  lemma RowAfterAdd(rows: seq<Inventory>, p: nat, l: nat, q: int)
    ensures FindRow(AddOnHand(EnsureRow(rows, p, l), RowOf(rows, p, l), q), p, l) == Some(RowOf(rows, p, l))
  {
    FindRowKeeps(EnsureRow(rows, p, l), RowOf(rows, p, l), q, p, l);
  }

  lemma {:induction false} FindRowKeeps(rows: seq<Inventory>, k: nat, q: int, p: nat, l: nat)
    requires k < |rows|
    ensures FindRow(AddOnHand(rows, k, q), p, l) == FindRow(rows, p, l)
    decreases |rows|
  {
    var n := |rows| - 1;
    var rows' := AddOnHand(rows, k, q);
    if k < n {
      assert rows'[..n] == AddOnHand(rows[..n], k, q);
      FindRowKeeps(rows[..n], k, q, p, l);
    } else {
      assert rows'[..n] == rows[..n];
    }
  }

  // ---------------------------------------------------------------- the oldest units leave

  function ReceivedBy(t: int): Card -> bool { (c: Card) => c.receivedAt <= t }

  /** Of the units of a row received up to any time t, a sale takes as many as it needs and there are. */
  lemma SaleTakesOldest(s: Store, p: nat, l: nat, q: Units, t: int)
    requires Inv(s) && Exec(s, Sell(p, l, q)).Ok?
    ensures var k := FindRow(s.inventories, p, l).value;
            Stocked(Exec(s, Sell(p, l, q)).value.lots, k, ReceivedBy(t)) ==
              Max(0, Stocked(s.lots, k, ReceivedBy(t)) - q)
  {
    hide SumBy, Drain, Fifo, Stocked;
    ClosedForm(s.lots, FindRow(s.inventories, p, l).value, q, ForSale, ReceivedBy(t));
  }

  /** So does a transfer at its source. */
  lemma TransferTakesOldest(s: Store, p: nat, a: nat, b: nat, q: Units, tag: string, t: int)
    requires Inv(s) && Exec(s, Transfer(p, a, b, q, tag)).Ok?
    ensures var k := FindRow(s.inventories, p, a).value;
            Stocked(Exec(s, Transfer(p, a, b, q, tag)).value.lots, k, ReceivedBy(t)) ==
              Max(0, Stocked(s.lots, k, ReceivedBy(t)) - q)
  {
    hide SumBy, Drain, Fifo, Stocked;
    var d := RowOf(s.inventories, p, b);
    EnsureRowOk(s.inventories, p, b, |s.products|, |s.locations|);
    ClosedForm(s.lots, FindRow(s.inventories, p, a).value, q, ForMove(d, tag), ReceivedBy(t));
  }

  /**
   First in, first out, lot by lot: of two lots of one row, the one received earlier, or at the same
   time and created earlier, is used up before a sale takes anything from the other.
   */
  lemma SaleUsesUpOlder(s: Store, p: nat, l: nat, q: Units, i: nat, j: nat)
    requires Inv(s) && Exec(s, Sell(p, l, q)).Ok? && i < |s.lots| && j < |s.lots|
    requires s.lots[i].card.inventory == s.lots[j].card.inventory
    requires s.lots[i].card.receivedAt < s.lots[j].card.receivedAt
             || (s.lots[i].card.receivedAt == s.lots[j].card.receivedAt && i < j)
    ensures var lots' := Exec(s, Sell(p, l, q)).value.lots;
            |lots'| == |s.lots| && (lots'[i].onHand > 0 ==> lots'[j].onHand == s.lots[j].onHand)
  {
    hide Inv, Exec, Drain, Fifo;
    var read := SellShape(s, p, l, q);
    InvLots(s);
    FifoList(s.lots, read.row);
    DrainFollows(s.lots, read.row, q, ForSale);
    DrainRows(s.lots, read.seen, q, ForSale);
    assert Ahead(s.lots, i, j);
  }

  /** So does a transfer, for every row. */
  lemma TransferUsesUpOlder(s: Store, p: nat, a: nat, b: nat, q: Units, tag: string, i: nat, j: nat)
    requires Inv(s) && Exec(s, Transfer(p, a, b, q, tag)).Ok? && i < |s.lots| && j < |s.lots|
    requires s.lots[i].card.inventory == s.lots[j].card.inventory
    requires s.lots[i].card.receivedAt < s.lots[j].card.receivedAt
             || (s.lots[i].card.receivedAt == s.lots[j].card.receivedAt && i < j)
    ensures var lots' := Exec(s, Transfer(p, a, b, q, tag)).value.lots;
            |lots'| >= |s.lots| && (lots'[i].onHand > 0 ==> lots'[j].onHand == s.lots[j].onHand)
  {
    hide Inv, Exec, Drain, Fifo, RowOf;
    var read := TransferShape(s, p, a, b, q, tag);
    InvLots(s);
    DrainFollows(s.lots, read.taking.row, q, ForMove(RowOf(s.inventories, p, b), tag));
    assert Ahead(s.lots, i, j);
  }
}
