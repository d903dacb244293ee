/** OrderBook<false>: price-level aggregates and best-price cursors over orders owned by the caller.
    Prices are tick indices. */
module OrderBook {
  const MAX_PRICE_LEVELS: nat := 100_000

  /** What the book knows of a live order. */
  datatype Live = Live(tick: nat, quantity: int, isBuy: bool)

  // ----- The specification: orders, levels and cursors as values -------------------------------

  function Share(order: Live, buy: bool, tick: nat): int {
    if order.isBuy == buy && order.tick == tick then order.quantity else 0
  }

  ghost function Pick(live: map<nat, Live>): (id: nat)
    requires live != map[]
    ensures id in live
  {
    var id :| id in live;
    id
  }

  /** The quantity of all live orders of one side at one tick. */
  ghost function Total(live: map<nat, Live>, buy: bool, tick: nat): int
    decreases |live|
  {
    if live == map[] then 0
    else
      var id := Pick(live);
      assert (live - {id}).Keys == live.Keys - {id};
      Share(live[id], buy, tick) + Total(live - {id}, buy, tick)
  }

  lemma {:induction false} TotalRemove(live: map<nat, Live>, id: nat, buy: bool, tick: nat)
    requires id in live
    ensures Total(live, buy, tick) == Share(live[id], buy, tick) + Total(live - {id}, buy, tick)
    decreases |live|
  {
    var picked := Pick(live);
    if picked != id {
      var rest := live - {picked};
      assert rest.Keys == live.Keys - {picked};
      TotalRemove(rest, id, buy, tick);
      assert (live - {id}).Keys == live.Keys - {id};
      TotalRemove(live - {id}, picked, buy, tick);
      assert live - {id} - {picked} == rest - {id};
    }
  }

  lemma TotalUpdate(live: map<nat, Live>, id: nat, order: Live, buy: bool, tick: nat)
    ensures Total(live[id := order], buy, tick) ==
      Total(live, buy, tick) + Share(order, buy, tick) - if id in live then Share(live[id], buy, tick) else 0
  {
    TotalRemove(live[id := order], id, buy, tick);
    if id in live {
      TotalRemove(live, id, buy, tick);
      assert live[id := order] - {id} == live - {id};
    } else {
      assert live[id := order] - {id} == live;
    }
  }

  lemma {:induction false} TotalOfPositive(live: map<nat, Live>, buy: bool, tick: nat)
    requires Positive(live)
    ensures Total(live, buy, tick) >= 0
    ensures Total(live, buy, tick) > 0 <==> exists id :: id in live && live[id].isBuy == buy && live[id].tick == tick
    decreases |live|
  {
    if live != map[] {
      var id := Pick(live);
      var rest := live - {id};
      assert rest.Keys == live.Keys - {id};
      TotalOfPositive(rest, buy, tick);
      if other :| other in live && live[other].isBuy == buy && live[other].tick == tick {
        assert other != id ==> other in rest && rest[other] == live[other];
      }
    }
  }

  datatype Book = Book(live: map<nat, Live>, bids: seq<int>, asks: seq<int>, bestBid: int, bestAsk: int)

  ghost predicate Exact(book: Book) {
    && |book.bids| == |book.asks| == MAX_PRICE_LEVELS
    && (forall t :: 0 <= t < MAX_PRICE_LEVELS ==> book.bids[t] == Total(book.live, true, t))
    && (forall t :: 0 <= t < MAX_PRICE_LEVELS ==> book.asks[t] == Total(book.live, false, t))
  }

  predicate Positive(live: map<nat, Live>) {
    forall id :: id in live ==> live[id].quantity > 0
  }

  predicate NonNegative(levels: seq<int>) {
    forall t :: 0 <= t < |levels| ==> levels[t] >= 0
  }

  /** The highest non-empty level, or, on an empty side, -1 at first and 0 later. */
  predicate BidCursor(bids: seq<int>, best: int) {
    && -1 <= best < |bids|
    && (forall t :: best < t < |bids| ==> bids[t] == 0)
    && (best >= 0 && bids[best] == 0 ==> best == 0)
  }

  /** The lowest non-empty level, or, on an empty side, one past the end at first and the last level later. */
  predicate AskCursor(asks: seq<int>, best: int) {
    && 0 <= best <= |asks|
    && (forall t :: 0 <= t < best ==> asks[t] == 0)
    && (best < |asks| && asks[best] == 0 ==> best == |asks| - 1)
  }

  ghost predicate Sound(book: Book) {
    Exact(book) && Positive(book.live) && BidCursor(book.bids, book.bestBid) && AskCursor(book.asks, book.bestAsk)
  }

  /** The scan down from tick i: the next non-empty level, or 0. */
  function HighestBelow(bids: seq<int>, i: nat): (best: nat)
    requires i <= |bids|
    ensures best <= i && (best == i ==> i == 0)
    ensures forall t :: best < t < i ==> bids[t] <= 0
    ensures best == 0 || bids[best] > 0
  {
    if i == 0 then 0 else if bids[i - 1] > 0 then i - 1 else HighestBelow(bids, i - 1)
  }

  /** The scan up from tick i: the next non-empty level, or the last level. */
  function LowestFrom(asks: seq<int>, i: nat): (best: nat)
    requires i <= |asks| && asks != []
    ensures best < |asks| && (best < i ==> i == |asks|)
    ensures forall t :: i <= t < best ==> asks[t] <= 0
    ensures best == |asks| - 1 || (asks[best] > 0 && i <= best)
    decreases |asks| - i
  {
    if i == |asks| then |asks| - 1 else if asks[i] > 0 then i else LowestFrom(asks, i + 1)
  }

  /** One side's level changed by an update or a cancellation. */
  function ChangedBids(book: Book, tick: nat, delta: int): (after: Book)
    requires tick < |book.bids|
  {
    var bids := book.bids[tick := book.bids[tick] + delta];
    var best := if tick == book.bestBid && bids[tick] == 0 then HighestBelow(bids, tick) else book.bestBid;
    book.(bids := bids, bestBid := best)
  }

  function ChangedAsks(book: Book, tick: nat, delta: int): (after: Book)
    requires tick < |book.asks|
  {
    var asks := book.asks[tick := book.asks[tick] + delta];
    var best := if tick == book.bestAsk && asks[tick] == 0 then LowestFrom(asks, tick + 1) else book.bestAsk;
    book.(asks := asks, bestAsk := best)
  }

  function Changed(book: Book, buy: bool, tick: nat, delta: int): (after: Book)
    requires tick < |book.bids| && tick < |book.asks|
  {
    if buy then ChangedBids(book, tick, delta) else ChangedAsks(book, tick, delta)
  }

  predicate InRange(book: Book) {
    |book.bids| == |book.asks| == MAX_PRICE_LEVELS &&
    forall id :: id in book.live ==> book.live[id].tick < MAX_PRICE_LEVELS
  }

  function AddedBid(book: Book, tick: nat, quantity: int): (after: Book)
    requires tick < |book.bids|
  {
    book.(bids := book.bids[tick := book.bids[tick] + quantity],
          bestBid := if tick > book.bestBid then tick else book.bestBid)
  }

  function AddedAsk(book: Book, tick: nat, quantity: int): (after: Book)
    requires tick < |book.asks|
  {
    book.(asks := book.asks[tick := book.asks[tick] + quantity],
          bestAsk := if tick < book.bestAsk then tick else book.bestAsk)
  }

  function Inserted(book: Book, id: nat, order: Live): (after: Book)
    requires InRange(book) && order.tick < MAX_PRICE_LEVELS
  {
    var b := book.(live := book.live[id := order]);
    if order.isBuy then AddedBid(b, order.tick, order.quantity) else AddedAsk(b, order.tick, order.quantity)
  }

  lemma UpdatedIs(book: Book, id: nat, quantity: int, after: Book)
    requires InRange(book) && id in book.live
    requires var order := book.live[id];
      after == Changed(book, order.isBuy, order.tick, quantity - order.quantity)
              .(live := book.live[id := order.(quantity := quantity)])
    ensures after == Updated(book, id, quantity)
  {
  }

  lemma InsertedIs(book: Book, id: nat, order: Live, mapped: Book, after: Book)
    requires InRange(book) && order.tick < MAX_PRICE_LEVELS && mapped == book.(live := book.live[id := order])
    requires after ==
      if order.isBuy then AddedBid(mapped, order.tick, order.quantity) else AddedAsk(mapped, order.tick, order.quantity)
    ensures after == Inserted(book, id, order)
  {
  }

  /** A missing id changes nothing. */
  function Updated(book: Book, id: nat, quantity: int): (after: Book)
    requires InRange(book)
  {
    if id !in book.live then book
    else
      var order := book.live[id];
      Changed(book, order.isBuy, order.tick, quantity - order.quantity)
        .(live := book.live[id := order.(quantity := quantity)])
  }

  function Cancelled(book: Book, id: nat): (after: Book)
    requires InRange(book)
  {
    if id !in book.live then book
    else
      var order := book.live[id];
      Changed(book, order.isBuy, order.tick, -order.quantity).(live := book.live - {id})
  }

  // ----- Levels are exact aggregates ------------------------------------------------------------

  /** Inserting under an id in use replaces the order but leaves its quantity on the levels: the levels
      stay exact exactly when the id is new or the order it names has no quantity left. */
  lemma InsertKeepsExactIff(book: Book, id: nat, order: Live)
    requires InRange(book) && Exact(book) && order.tick < MAX_PRICE_LEVELS
    ensures Exact(Inserted(book, id, order)) <==> id !in book.live || book.live[id].quantity == 0
  {
    var after := Inserted(book, id, order);
    forall t | 0 <= t < MAX_PRICE_LEVELS
      ensures after.bids[t] - Total(after.live, true, t) == if id in book.live then Share(book.live[id], true, t) else 0
      ensures after.asks[t] - Total(after.live, false, t) ==
        if id in book.live then Share(book.live[id], false, t) else 0
    {
      TotalUpdate(book.live, id, order, true, t);
      TotalUpdate(book.live, id, order, false, t);
    }
    if id in book.live && book.live[id].quantity != 0 {
      var t := book.live[id].tick;
      assert after.bids[t] != Total(after.live, true, t) || after.asks[t] != Total(after.live, false, t);
    }
  }

  /** Updates and cancellations keep the levels exact, whatever the quantities. */
  lemma UpdateKeepsExact(book: Book, id: nat, quantity: int)
    requires InRange(book) && Exact(book)
    ensures Exact(Updated(book, id, quantity))
  {
    if id in book.live {
      var after := Updated(book, id, quantity);
      forall t | 0 <= t < MAX_PRICE_LEVELS
        ensures after.bids[t] == Total(after.live, true, t) && after.asks[t] == Total(after.live, false, t)
      {
        TotalUpdate(book.live, id, book.live[id].(quantity := quantity), true, t);
        TotalUpdate(book.live, id, book.live[id].(quantity := quantity), false, t);
      }
    }
  }

  lemma CancelKeepsExact(book: Book, id: nat)
    requires InRange(book) && Exact(book)
    ensures Exact(Cancelled(book, id))
  {
    if id in book.live {
      var after := Cancelled(book, id);
      forall t | 0 <= t < MAX_PRICE_LEVELS
        ensures after.bids[t] == Total(after.live, true, t) && after.asks[t] == Total(after.live, false, t)
      {
        TotalRemove(book.live, id, true, t);
        TotalRemove(book.live, id, false, t);
      }
    }
  }

  // ----- Cursors are exact ----------------------------------------------------------------------

  /** The scan down from an emptied best level passes over a negative one, which no check keeps out. */
  predicate BidScanMisses(bids: seq<int>, tick: nat) {
    exists t :: 0 < t < tick <= |bids| && bids[t] < 0 && forall u :: t < u < tick ==> bids[u] <= 0
  }

  predicate AskScanMisses(asks: seq<int>, tick: nat) {
    exists t :: tick < t < |asks| - 1 && asks[t] < 0 && forall u :: tick < u < t ==> asks[u] <= 0
  }

  /** Changing a level keeps the bid cursor exact unless it fills an empty level above the cursor, which
      only an order updated to zero and up again can do, or empties the best one over a negative level. */
  lemma ChangedBidsIff(book: Book, tick: nat, delta: int)
    requires tick < |book.bids| && BidCursor(book.bids, book.bestBid)
    ensures var after := ChangedBids(book, tick, delta);
      BidCursor(after.bids, after.bestBid) <==>
      if after.bids[tick] != 0 then tick <= book.bestBid
      else tick == book.bestBid ==> !BidScanMisses(book.bids, tick)
  {
    var after := ChangedBids(book, tick, delta);
    assert forall t :: 0 <= t < |book.bids| && t != tick ==> after.bids[t] == book.bids[t];
    if tick == book.bestBid && after.bids[tick] == 0 && !BidCursor(after.bids, after.bestBid) {
      var t :| after.bestBid < t < |after.bids| && after.bids[t] != 0;
      assert book.bids[t] < 0;
    }
  }

  lemma ChangedAsksIff(book: Book, tick: nat, delta: int)
    requires tick < |book.asks| && AskCursor(book.asks, book.bestAsk)
    ensures var after := ChangedAsks(book, tick, delta);
      AskCursor(after.asks, after.bestAsk) <==>
      if after.asks[tick] != 0 then tick >= book.bestAsk
      else tick == book.bestAsk ==> !AskScanMisses(book.asks, tick)
  {
    var after := ChangedAsks(book, tick, delta);
    assert forall t :: 0 <= t < |book.asks| && t != tick ==> after.asks[t] == book.asks[t];
    if tick == book.bestAsk && after.asks[tick] == 0 && !AskCursor(after.asks, after.bestAsk) {
      var t :| 0 <= t < after.bestAsk && after.asks[t] != 0;
      assert book.asks[t] < 0;
    }
  }

  /** An insertion keeps the bid cursor exact unless it leaves its own level empty at or above the cursor:
      quantities are not checked, so an order without quantity takes the cursor to an empty level, and a
      negative one may empty the best level unnoticed. */
  lemma AddedBidIff(book: Book, tick: nat, quantity: int)
    requires tick < |book.bids| && BidCursor(book.bids, book.bestBid)
    ensures var after := AddedBid(book, tick, quantity);
      BidCursor(after.bids, after.bestBid) <==> !(tick >= book.bestBid && tick != 0 && book.bids[tick] + quantity == 0)
  {
    var after := AddedBid(book, tick, quantity);
    assert forall t :: 0 <= t < |book.bids| && t != tick ==> after.bids[t] == book.bids[t];
    assert after.bids[tick] == book.bids[tick] + quantity;
  }

  lemma AddedAskIff(book: Book, tick: nat, quantity: int)
    requires tick < |book.asks| && AskCursor(book.asks, book.bestAsk)
    ensures var after := AddedAsk(book, tick, quantity);
      AskCursor(after.asks, after.bestAsk) <==>
      !(tick <= book.bestAsk && tick != |book.asks| - 1 && book.asks[tick] + quantity == 0)
  {
    var after := AddedAsk(book, tick, quantity);
    assert forall t :: 0 <= t < |book.asks| && t != tick ==> after.asks[t] == book.asks[t];
    assert after.asks[tick] == book.asks[tick] + quantity;
  }

  /** The whole insertion, on both sides. */
  lemma InsertKeepsCursorsIff(book: Book, id: nat, order: Live)
    requires InRange(book) && order.tick < MAX_PRICE_LEVELS
    requires BidCursor(book.bids, book.bestBid) && AskCursor(book.asks, book.bestAsk)
    ensures var after := Inserted(book, id, order);
      BidCursor(after.bids, after.bestBid) && AskCursor(after.asks, after.bestAsk) <==>
      if order.isBuy then
        !(order.tick >= book.bestBid && order.tick != 0 && book.bids[order.tick] + order.quantity == 0)
      else
        !(order.tick <= book.bestAsk && order.tick != MAX_PRICE_LEVELS - 1 &&
          book.asks[order.tick] + order.quantity == 0)
  {
    var mapped := book.(live := book.live[id := order]);
    if order.isBuy {
      AddedBidIff(mapped, order.tick, order.quantity);
    } else {
      AddedAskIff(mapped, order.tick, order.quantity);
    }
  }

  /** Exact levels of positive orders are non-negative, and positive just where there are orders. */
  lemma LevelsOfPositive(book: Book)
    requires Exact(book) && Positive(book.live)
    ensures NonNegative(book.bids) && NonNegative(book.asks)
    ensures forall id :: id in book.live && book.live[id].tick < MAX_PRICE_LEVELS ==>
      (if book.live[id].isBuy then book.bids else book.asks)[book.live[id].tick] > 0
  {
    forall t | 0 <= t < MAX_PRICE_LEVELS ensures book.bids[t] >= 0 && book.asks[t] >= 0 {
      TotalOfPositive(book.live, true, t);
      TotalOfPositive(book.live, false, t);
    }
    forall id | id in book.live && book.live[id].tick < MAX_PRICE_LEVELS
      ensures (if book.live[id].isBuy then book.bids else book.asks)[book.live[id].tick] > 0
    {
      TotalOfPositive(book.live, book.live[id].isBuy, book.live[id].tick);
    }
  }

  lemma InsertKeepsSound(book: Book, id: nat, order: Live)
    requires InRange(book) && Sound(book) && order.tick < MAX_PRICE_LEVELS
    requires id !in book.live && order.quantity > 0
    ensures Sound(Inserted(book, id, order)) && InRange(Inserted(book, id, order))
  {
    InsertKeepsExactIff(book, id, order);
    LevelsOfPositive(book);
  }

  lemma UpdateKeepsSound(book: Book, id: nat, quantity: int)
    requires InRange(book) && Sound(book) && quantity > 0
    ensures Sound(Updated(book, id, quantity)) && InRange(Updated(book, id, quantity))
  {
    if id in book.live {
      var order, after := book.live[id], Updated(book, id, quantity);
      UpdateKeepsExact(book, id, quantity);
      LevelsOfPositive(book);
      LevelsOfPositive(after);
      ChangeKeepsCursors(book, order.isBuy, order.tick, quantity - order.quantity);
    }
  }

  lemma CancelKeepsSound(book: Book, id: nat)
    requires InRange(book) && Sound(book)
    ensures Sound(Cancelled(book, id)) && InRange(Cancelled(book, id))
  {
    if id in book.live {
      var order, after := book.live[id], Cancelled(book, id);
      CancelKeepsExact(book, id);
      LevelsOfPositive(book);
      LevelsOfPositive(after);
      ChangeKeepsCursors(book, order.isBuy, order.tick, -order.quantity);
    }
  }

  lemma ChangeKeepsCursors(book: Book, buy: bool, tick: nat, delta: int)
    requires |book.bids| == |book.asks| == MAX_PRICE_LEVELS && tick < MAX_PRICE_LEVELS
    requires BidCursor(book.bids, book.bestBid) && AskCursor(book.asks, book.bestAsk)
    requires (if buy then book.bids else book.asks)[tick] > 0
    requires NonNegative(book.bids) && NonNegative(book.asks)
    requires var after := Changed(book, buy, tick, delta); NonNegative(after.bids) && NonNegative(after.asks)
    ensures var after := Changed(book, buy, tick, delta);
      BidCursor(after.bids, after.bestBid) && AskCursor(after.asks, after.bestAsk)
  {
    if buy { ChangedBidsIff(book, tick, delta); } else { ChangedAsksIff(book, tick, delta); }
  }

  /** What the cursors mean to a trader. */
  lemma BestPricesAreBest(book: Book)
    requires InRange(book) && Sound(book)
    ensures (exists id :: id in book.live && book.live[id].isBuy) ==>
      && 0 <= book.bestBid && book.bids[book.bestBid] > 0
      && (forall id :: id in book.live && book.live[id].isBuy ==> book.live[id].tick <= book.bestBid)
      && exists id :: id in book.live && book.live[id].isBuy && book.live[id].tick == book.bestBid
    ensures (exists id :: id in book.live && !book.live[id].isBuy) ==>
      && book.bestAsk < MAX_PRICE_LEVELS && book.asks[book.bestAsk] > 0
      && (forall id :: id in book.live && !book.live[id].isBuy ==> book.bestAsk <= book.live[id].tick)
      && exists id :: id in book.live && !book.live[id].isBuy && book.live[id].tick == book.bestAsk
    ensures (forall id :: id in book.live ==> !book.live[id].isBuy) ==> book.bestBid <= 0
    ensures (forall id :: id in book.live ==> book.live[id].isBuy) ==> book.bestAsk >= MAX_PRICE_LEVELS - 1
  {
    LevelsOfPositive(book);
    if book.bestBid >= 0 { TotalOfPositive(book.live, true, book.bestBid); }
    if book.bestAsk < MAX_PRICE_LEVELS { TotalOfPositive(book.live, false, book.bestAsk); }
  }

  // ----- Whole runs -----------------------------------------------------------------------------

  datatype Op = Insert(id: nat, order: Live) | Update(id: nat, quantity: int) | Cancel(id: nat)

  predicate WithinLevels(ops: seq<Op>) {
    forall i :: 0 <= i < |ops| && ops[i].Insert? ==> ops[i].order.tick < MAX_PRICE_LEVELS
  }

  function Run(book: Book, ops: seq<Op>): (after: Book)
    requires InRange(book) && WithinLevels(ops)
    ensures InRange(after)
  {
    if ops == [] then book
    else
      var b := Run(book, ops[..|ops| - 1]);
      match ops[|ops| - 1]
      case Insert(id, order) => Inserted(b, id, order)
      case Update(id, quantity) => Updated(b, id, quantity)
      case Cancel(id) => Cancelled(b, id)
  }

  /** Every insertion brings a new id and a positive quantity, every update a positive quantity. */
  predicate Orderly(book: Book, ops: seq<Op>)
    requires InRange(book) && WithinLevels(ops)
  {
    ops == [] ||
    (Orderly(book, ops[..|ops| - 1]) &&
     match ops[|ops| - 1]
     case Insert(id, order) => id !in Run(book, ops[..|ops| - 1]).live && order.quantity > 0
     case Update(_, quantity) => quantity > 0
     case Cancel(_) => true)
  }

  function FreshBook(): (book: Book)
    ensures InRange(book)
  {
    var empty := seq(MAX_PRICE_LEVELS, _ => 0);
    Book(map[], empty, empty, -1, MAX_PRICE_LEVELS)
  }

  /** Over every orderly run, levels are exact aggregates and cursors are exact best prices. */
  lemma {:induction false} RunIsSound(ops: seq<Op>)
    requires WithinLevels(ops) && Orderly(FreshBook(), ops)
    ensures Sound(Run(FreshBook(), ops))
  {
    if ops != [] {
      var before := Run(FreshBook(), ops[..|ops| - 1]);
      RunIsSound(ops[..|ops| - 1]);
      match ops[|ops| - 1] {
        case Insert(id, order) => InsertKeepsSound(before, id, order);
        case Update(id, quantity) => UpdateKeepsSound(before, id, quantity);
        case Cancel(id) => CancelKeepsSound(before, id);
      }
    }
  }

  /** Levels stay exact even through zero and negative quantities, as long as ids are new. */
  lemma {:induction false} RunIsExact(ops: seq<Op>)
    requires WithinLevels(ops)
    requires forall i :: 0 <= i < |ops| && ops[i].Insert? ==> ops[i].id !in Run(FreshBook(), ops[..i]).live
    ensures Exact(Run(FreshBook(), ops))
  {
    if ops != [] {
      var n := |ops| - 1;
      var before := Run(FreshBook(), ops[..n]);
      forall i | 0 <= i < n && ops[..n][i].Insert? ensures ops[..n][i].id !in Run(FreshBook(), ops[..n][..i]).live {
        assert ops[..n][..i] == ops[..i];
      }
      RunIsExact(ops[..n]);
      match ops[n] {
        case Insert(id, order) => InsertKeepsExactIff(before, id, order);
        case Update(id, quantity) => UpdateKeepsExact(before, id, quantity);
        case Cancel(id) => CancelKeepsExact(before, id);
      }
    }
  }

  /** Asking for the best bid reads inside the levels exactly when a bid was ever inserted. */
  lemma {:induction false} BestBidReadableIff(ops: seq<Op>)
    requires WithinLevels(ops)
    ensures -1 <= Run(FreshBook(), ops).bestBid < MAX_PRICE_LEVELS
    ensures Run(FreshBook(), ops).bestBid >= 0 <==> exists i :: 0 <= i < |ops| && ops[i].Insert? && ops[i].order.isBuy
  {
    if ops != [] {
      var n := |ops| - 1;
      BestBidReadableIff(ops[..n]);
      assert forall i :: 0 <= i < n ==> ops[..n][i] == ops[i];
    }
  }

  lemma {:induction false} BestAskReadableIff(ops: seq<Op>)
    requires WithinLevels(ops)
    ensures 0 <= Run(FreshBook(), ops).bestAsk <= MAX_PRICE_LEVELS
    ensures Run(FreshBook(), ops).bestAsk < MAX_PRICE_LEVELS <==>
      exists i :: 0 <= i < |ops| && ops[i].Insert? && !ops[i].order.isBuy
  {
    if ops != [] {
      var n := |ops| - 1;
      BestAskReadableIff(ops[..n]);
      assert forall i :: 0 <= i < n ==> ops[..n][i] == ops[i];
    }
  }

  /** A bid without quantity above the best one: the cursor follows it to an empty level. */
  lemma EmptyInsertMovesTheBestBid()
    ensures var book := Inserted(Inserted(FreshBook(), 1, Live(1, 3, true)), 2, Live(5, 0, true));
      book.bestBid == 5 && book.bids[5] == 0 && book.bids[1] == 3 && !BidCursor(book.bids, book.bestBid)
  {
  }

  /** Two bids, the better one updated to zero and up again: the cursor stays behind. */
  lemma ZeroUpdateLosesTheBestBid()
    ensures var book :=
      Updated(Updated(Inserted(Inserted(FreshBook(), 1, Live(2, 5, true)), 2, Live(1, 3, true)), 1, 0), 1, 4);
      book.bestBid == 1 && book.bids[2] == 4 && !BidCursor(book.bids, book.bestBid)
  {
  }

  // ----- The book itself ------------------------------------------------------------------------

  class Order {
    const orderId: nat
    const tick: nat
    const isBuy: bool
    var quantity: int

    constructor (orderId: nat, tick: nat, quantity: int, isBuy: bool)
      ensures this.orderId == orderId && this.tick == tick && this.quantity == quantity && this.isBuy == isBuy
    {
      this.orderId := orderId;
      this.tick := tick;
      this.quantity := quantity;
      this.isBuy := isBuy;
    }

    function Value(): Live
      reads this
    {
      Live(tick, quantity, isBuy)
    }
  }

  class OrderBook {
    /** Points at the caller's order objects. */
    var orderMap: map<nat, Order>
    const bidLevels: array<int>
    const askLevels: array<int>
    var bestBidIndex: int
    var bestAskIndex: int

    /** Each order is filed under its own id and lies within the price range. */
    ghost predicate Valid()
      reads this`orderMap
    {
      && bidLevels.Length == askLevels.Length == MAX_PRICE_LEVELS && bidLevels != askLevels
      && forall id :: id in orderMap ==> orderMap[id].orderId == id && orderMap[id].tick < MAX_PRICE_LEVELS
    }

    ghost function LiveOrders(): (live: map<nat, Live>)
      reads this`orderMap, orderMap.Values
      ensures live.Keys == orderMap.Keys && forall id :: id in live ==> live[id] == orderMap[id].Value()
    {
      map id | id in orderMap :: orderMap[id].Value()
    }

    ghost function View(): (book: Book)
      requires Valid()
      reads this, bidLevels, askLevels, orderMap.Values
      ensures InRange(book)
    {
      Book(LiveOrders(), bidLevels[..], askLevels[..], bestBidIndex, bestAskIndex)
    }

    constructor ()
      ensures Valid() && View() == FreshBook() && fresh(bidLevels) && fresh(askLevels)
      ensures orderMap == map[] && bidLevels.Length == askLevels.Length == 100_000
    {
      orderMap := map[];
      bidLevels := new int[MAX_PRICE_LEVELS](_ => 0);
      askLevels := new int[MAX_PRICE_LEVELS](_ => 0);
      bestBidIndex := -1;
      bestAskIndex := MAX_PRICE_LEVELS;
    }

    method Insert(order: Order)
      requires Valid() && order.tick < MAX_PRICE_LEVELS
      modifies this, bidLevels, askLevels
      ensures Valid() && orderMap == old(orderMap)[order.orderId := order]
      ensures View() == Inserted(old(View()), order.orderId, order.Value())
    {
      orderMap := orderMap[order.orderId := order];
      assert Valid() && bidLevels.Length == askLevels.Length == MAX_PRICE_LEVELS && bidLevels != askLevels;
      assert LiveOrders() == old(LiveOrders())[order.orderId := order.Value()];
      hide LiveOrders, InRange, Valid, Inserted;
      ghost var book := View();
      if order.isBuy {
        AddBid(order.tick, order.quantity);
      } else {
        AddAsk(order.tick, order.quantity);
      }
      InsertedIs(old(View()), order.orderId, order.Value(), book, View());
    }

    method AddBid(idx: nat, quantity: int)
      requires Valid() && idx < MAX_PRICE_LEVELS
      modifies this`bestBidIndex, bidLevels
      ensures Valid() && View() == AddedBid(old(View()), idx, quantity)
    {
      assert bidLevels.Length == askLevels.Length == MAX_PRICE_LEVELS && bidLevels != askLevels;
      hide InRange, LiveOrders, Valid;
      bidLevels[idx] := bidLevels[idx] + quantity;
      if idx > bestBidIndex {
        bestBidIndex := idx;
      }
    }

    method AddAsk(idx: nat, quantity: int)
      requires Valid() && idx < MAX_PRICE_LEVELS
      modifies this`bestAskIndex, askLevels
      ensures Valid() && View() == AddedAsk(old(View()), idx, quantity)
    {
      assert bidLevels.Length == askLevels.Length == MAX_PRICE_LEVELS && bidLevels != askLevels;
      hide InRange, LiveOrders, Valid;
      askLevels[idx] := askLevels[idx] + quantity;
      if idx < bestAskIndex {
        bestAskIndex := idx;
      }
    }

    /** False stands for the "Order not found" exception. */
    method Update(orderId: nat, newQuantity: int) returns (found: bool)
      requires Valid()
      modifies this, bidLevels, askLevels, orderMap.Values
      ensures Valid() && orderMap == old(orderMap) && (found <==> orderId in old(orderMap))
      ensures forall id :: id in orderMap ==>
        orderMap[id].quantity == if id == orderId then newQuantity else old(orderMap[id].quantity)
      ensures View() == Updated(old(View()), orderId, newQuantity)
    {
      if orderId !in orderMap {
        return false;
      }
      var order := orderMap[orderId];
      ghost var book := View();
      assert book.live[orderId] == order.Value() && InRange(book) && order.tick < MAX_PRICE_LEVELS;
      hide *;
      UpdatePriceLevel(order.isBuy, order.tick, newQuantity - order.quantity);
      SetQuantity(orderId, newQuantity);
      UpdatedIs(book, orderId, newQuantity, View());
      return true;
    }

    method UpdatePriceLevel(isBuy: bool, tick: nat, updateQuantity: int)
      requires Valid() && tick < MAX_PRICE_LEVELS
      modifies this`bestBidIndex, this`bestAskIndex, bidLevels, askLevels
      ensures Valid() && View() == Changed(old(View()), isBuy, tick, updateQuantity)
    {
      hide InRange, ChangedBids, ChangedAsks;
      if isBuy {
        UpdateBidLevel(tick, updateQuantity);
      } else {
        UpdateAskLevel(tick, updateQuantity);
      }
    }

    /** The last assignment of `Update`. */
    method SetQuantity(orderId: nat, newQuantity: int)
      requires Valid() && orderId in orderMap
      modifies orderMap.Values
      ensures Valid()
      ensures forall id :: id in orderMap ==>
        orderMap[id].quantity == if id == orderId then newQuantity else old(orderMap[id].quantity)
      ensures var book := old(View());
        View() == book.(live := book.live[orderId := book.live[orderId].(quantity := newQuantity)])
    {
      ghost var live := LiveOrders();
      orderMap[orderId].quantity := newQuantity;
      assert LiveOrders() == live[orderId := live[orderId].(quantity := newQuantity)];
      hide Valid, LiveOrders;
    }

    method Cancel(orderId: nat) returns (found: bool)
      requires Valid()
      modifies this, bidLevels, askLevels
      ensures Valid() && orderMap == old(orderMap) - {orderId} && (found <==> orderId in old(orderMap))
      ensures View() == Cancelled(old(View()), orderId)
    {
      if orderId !in orderMap {
        assert orderMap - {orderId} == orderMap;
        return false;
      }
      var order := orderMap[orderId];
      hide InRange, Changed;
      UpdatePriceLevel(order.isBuy, order.tick, -order.quantity);
      orderMap := orderMap - {orderId};
      assert Valid();
      assert LiveOrders() == old(LiveOrders()) - {orderId};
      hide Valid, LiveOrders;
      return true;
    }

    /** The loop that looks for the next bid level below one that was emptied. */
    method ScanBids(idx: nat) returns (best: nat)
      requires Valid() && idx < MAX_PRICE_LEVELS
      ensures best == HighestBelow(bidLevels[..], idx)
    {
      var i := idx - 1;
      while i >= 0
        invariant -1 <= i < idx && HighestBelow(bidLevels[..], idx) == HighestBelow(bidLevels[..], i + 1)
      {
        if bidLevels[i] > 0 {
          return i;
        }
        i := i - 1;
      }
      return 0;
    }

    method ScanAsks(idx: nat) returns (best: nat)
      requires Valid() && idx < MAX_PRICE_LEVELS
      ensures best == LowestFrom(askLevels[..], idx + 1)
    {
      var i := idx + 1;
      while i < MAX_PRICE_LEVELS
        invariant idx < i <= MAX_PRICE_LEVELS && LowestFrom(askLevels[..], idx + 1) == LowestFrom(askLevels[..], i)
      {
        if askLevels[i] > 0 {
          return i;
        }
        i := i + 1;
      }
      return MAX_PRICE_LEVELS - 1;
    }

    /** Adds to one level; when that empties the best one, moves the cursor. */
    method UpdateBidLevel(idx: nat, updateQuantity: int)
      requires Valid() && idx < MAX_PRICE_LEVELS
      modifies this`bestBidIndex, bidLevels
      ensures Valid() && View() == ChangedBids(old(View()), idx, updateQuantity)
    {
      assert bidLevels.Length == askLevels.Length == MAX_PRICE_LEVELS && bidLevels != askLevels;
      hide InRange, LiveOrders, Valid, HighestBelow;
      bidLevels[idx] := bidLevels[idx] + updateQuantity;
      if idx == bestBidIndex && bidLevels[idx] == 0 {
        bestBidIndex := ScanBids(idx);
      }
    }

    method UpdateAskLevel(idx: nat, updateQuantity: int)
      requires Valid() && idx < MAX_PRICE_LEVELS
      modifies this`bestAskIndex, askLevels
      ensures Valid() && View() == ChangedAsks(old(View()), idx, updateQuantity)
    {
      assert bidLevels.Length == askLevels.Length == MAX_PRICE_LEVELS && bidLevels != askLevels;
      hide InRange, LiveOrders, Valid, LowestFrom;
      askLevels[idx] := askLevels[idx] + updateQuantity;
      if idx == bestAskIndex && askLevels[idx] == 0 {
        bestAskIndex := ScanAsks(idx);
      }
    }

    /** The best bid's tick and the total quantity there. */
    method BestBid() returns (tick: nat, quantity: int)
      requires Valid() && 0 <= bestBidIndex < MAX_PRICE_LEVELS
      ensures tick == bestBidIndex && quantity == bidLevels[tick]
      ensures Sound(View()) ==> quantity == Total(View().live, true, tick)
      ensures Sound(View()) ==>
        forall id :: id in LiveOrders() && LiveOrders()[id].isBuy ==> LiveOrders()[id].tick <= tick && quantity > 0
    {
      tick := bestBidIndex;
      quantity := bidLevels[bestBidIndex];
      if Sound(View()) { BestPricesAreBest(View()); }
    }

    method BestAsk() returns (tick: nat, quantity: int)
      requires Valid() && 0 <= bestAskIndex < MAX_PRICE_LEVELS
      ensures tick == bestAskIndex && quantity == askLevels[tick]
      ensures Sound(View()) ==> quantity == Total(View().live, false, tick)
      ensures Sound(View()) ==>
        forall id :: id in LiveOrders() && !LiveOrders()[id].isBuy ==> tick <= LiveOrders()[id].tick && quantity > 0
    {
      tick := bestAskIndex;
      quantity := askLevels[bestAskIndex];
      if Sound(View()) { BestPricesAreBest(View()); }
    }
  }
}
