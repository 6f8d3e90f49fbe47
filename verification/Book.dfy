/** The order book as it runs: pool, id table, two ladders of intrusive queues and the cached bests.
    Every operation is proved to take the ghost `model` exactly where `BookSpec` says. */
module Book {
  import opened Types
  import opened Matcher
  import opened BookSpec
  import opened BookInvariant
  import opened BookLaws
  import opened BookIdentities
  import opened BestAsk
  import opened BookAccounting
  import opened Pool
  import opened Levels
  import opened Ladder
  import opened BookStore
  import opened Sweep

  /** An order that has just traded is marked filled exactly when nothing of it is left. */
  ghost predicate Marked(o: Order) {
    o.status == if o.filled >= o.quantity then Filled else PartiallyFilled
  }

  /** What the slot of an order holds once its match is over, its trades being these. */
  ghost predicate Kept(o: Order, msg: OrderMessage, fills: seq<Fill>) {
    && o.id == msg.orderId && o.sideByte == msg.side && o.price == msg.price && o.quantity == msg.quantity
    && o.timestamp == msg.arrival && o.filled == Traded(fills)
    && o.status == (if fills == [] then Active else if Traded(fills) == msg.quantity then Filled else PartiallyFilled)
  }

  lemma KeptAfter(a: Order, n: Order, msg: OrderMessage, fills: seq<Fill>)
    requires Aggressor(a, IncomingOf(msg)) && a.sideByte == msg.side && a.timestamp == msg.arrival && SameButLinks(a, n)
    requires a.Remaining() == msg.quantity - Traded(fills) && (a.status == Active <==> fills == [])
    ensures Kept(n, msg, fills)
  {
  }

  ghost predicate SameButLinks(o: Order, n: Order) {
    n == o.(next := n.next, prev := n.prev)
  }

  /** The reports of these fills of `msg`, one for each, against the orders of `opp` from the front. */
  ghost predicate Reported(msg: OrderMessage, opp: seq<Entry>, fills: seq<Fill>,
                           before: seq<TradeReport>, after: seq<TradeReport>) {
    && |fills| <= |opp| && |after| == |before| + |fills| && before <= after
    && forall i :: 0 <= i < |fills| ==>
         && fills[i].quantity <= opp[i].remaining && (i + 1 < |fills| ==> fills[i].quantity == opp[i].remaining)
         && after[|before| + i] == if msg.side == 0
                                   then TradeReport(msg.orderId, opp[i].id, opp[i].price, fills[i].quantity)
                                   else TradeReport(opp[i].id, msg.orderId, opp[i].price, fills[i].quantity)
  }

  lemma AddReported(m: State, msg: OrderMessage, before: seq<TradeReport>)
    requires m.Shaped()
    ensures var o := IncomingOf(msg);
            var fills := Add(m, o).fills;
            && Reported(msg, if msg.side == 0 then m.asks else m.bids, fills, before, before +
                 ReportsOf(o.side, o.id, fills))
            && (m.free == [] ==> fills == [] && before + ReportsOf(o.side, o.id, fills) == before)
  {
    hide Match, Traded;
    if m.free != [] {
      var o := IncomingOf(msg);
      var n := MatchIsPriceTime(o.side, o.price, o.quantity, m.Of(o.side.Opposite()));
    }
  }

  /** What the slot of an aggressor holds while it is matching. */
  ghost predicate Aggressor(a: Order, o: Incoming) {
    && a.id == o.id && a.side == o.side && a.price == o.price && a.quantity == o.quantity
    && a.filled <= a.quantity && a.status != Cancelled
    && (a.status == Filled <==> a.filled == a.quantity)
  }

  lemma FilledAggressor(st: Store, t: Store, m: State, o: Incoming, agg: nat, q: Word64)
    requires m.Of(o.side.Opposite()) != [] && FillEffect(st, t, m, o.side, agg, q)
    requires Aggressor(st.slots[agg], o) && q <= st.slots[agg].Remaining()
    ensures Aggressor(t.slots[agg], o) && t.slots[agg].Remaining() == st.slots[agg].Remaining() - q
    ensures t.slots[agg].status != Active
  {
  }

  lemma NoReports(side: Side, id: Word64)
    ensures ReportsOf(side, id, []) == []
  {
  }

  lemma ReportsAppend(side: Side, id: Word64, done: seq<Fill>, f: Fill)
    ensures ReportsOf(side, id, done + [f]) == ReportsOf(side, id, done) + [ReportOf(side, id, f)]
  {
  }

  lemma SamePlacesSelf(s: seq<Order>)
    ensures SamePlaces(s, s)
  {
  }

  /** `ModifyBoard`, case by case. */
  lemma ModifiesAsBoard(b: Board, id: Word64, quantity: Word64)
    requires b.book.Shaped()
    ensures match b.book.Locate(id)
            case Nowhere => ModifyBoard(b, id, quantity) == b
            case At(side, i) =>
              var e := b.book.Of(side)[i];
              if quantity <= e.remaining then
                ModifyBoard(b, id, quantity) == b.(book := Modify(b.book, id, quantity).state)
              else
                ModifyBoard(b, id, quantity)
                == AddBoard(CancelBoard(b, id), Incoming(id, side, e.price, quantity), b.ByteIn(e.slot))
  {
  }

  /** `Modify`, case by case. The order that an increase adds again is valid, and makes no report. */
  lemma ModifySteps(m: State, id: Word64, quantity: Word64)
    requires Inv(m)
    ensures match m.Locate(id)
            case Nowhere => Modify(m, id, quantity) == Result(m, [], NULL)
            case At(side, i) =>
              var e := m.Of(side)[i];
              if quantity <= e.remaining then
                Modify(m, id, quantity) == Result(m.With(side, m.Of(side)[i := e.(remaining := quantity)]), [], e.slot)
              else
                var o := Incoming(id, side, e.price, quantity);
                && Modify(m, id, quantity) == Add(Cancel(m, id).state, o)
                && ValidOrder(Cancel(m, id).state, o) && Add(Cancel(m, id).state, o).fills == []
                && Cancel(m, id).slot == e.slot
  {
    ModifyNeverTrades(m, id, quantity);
    if m.Locate(id).At? {
      LocatedPrice(m, id);
      StepKeepsInv(m, CancelOp(id));
    }
  }

  lemma PlaceOf(s: seq<Order>, t: seq<Order>, x: nat)
    requires SamePlaces(s, t) && x < |s|
    ensures t[x].sideByte == s[x].sideByte && t[x].price == s[x].price && t[x].timestamp == s[x].timestamp
  {
  }

  lemma AllocateParts(m: State, id: Word64)
    requires m.Shaped()
    ensures m.free != [] ==>
              && Allocate(m, id).Shaped() && Allocate(m, id).free == m.free[..|m.free| - 1]
              && Allocate(m, id).table == m.table[m.Cell(id) := m.free[|m.free| - 1]]
              && Allocate(m, id).matchCount == m.matchCount && Allocate(m, id).volume == m.volume
  {
  }

  /** The book after an aggressor in slot `slot` has matched and `left` of it remains. */
  ghost function Ended(m: State, slot: nat, o: Incoming, left: int): State
    requires m.Shaped()
  {
    if 0 < left <= o.quantity then Rest(m, slot, o, left) else m.(leaked := m.leaked + {slot})
  }

  lemma AddEnds(m: State, o: Incoming)
    requires m.Shaped()
    ensures Match(o.side, o.price, o.quantity, m.Of(o.side.Opposite())).left
         == o.quantity - Traded(Match(o.side, o.price, o.quantity, m.Of(o.side.Opposite())).fills)
    ensures m.free == [] ==> Add(m, o) == Result(m, [], NULL)
    ensures m.free != [] ==>
              var r := Match(o.side, o.price, o.quantity, m.Of(o.side.Opposite()));
              && Add(m, o) == Result(Ended(Absorb(Allocate(m, o.id), o.side, r.fills, r.book),
                                           m.free[|m.free| - 1], o, r.left),
                                     r.fills, m.free[|m.free| - 1])
              && Add(m, o).state.Of(o.side.Opposite())
                   == Absorb(Allocate(m, o.id), o.side, r.fills, r.book).Of(o.side.Opposite())
              && Allocate(m, o.id).Of(o.side.Opposite()) == m.Of(o.side.Opposite())
  {
    RestingMatch(o.side, o.price, o.quantity, m.Of(o.side.Opposite()));
  }

  class OrderBook {
    const ticks: nat
    const pool: MemoryPool<Order>
    const buys: PriceLevels
    const sells: PriceLevels
    const orderMap: array<int>
    var bestBid: int
    var bestAsk: int
    var matchCount: Word64
    var tradeVolume: Word64
    /** What the trade callback has been called with. */
    var reports: seq<TradeReport>
    ghost var model: State

    ghost function Repr(): set<object> {
      {this, pool, pool.slots, pool.freeStack, buys, buys.levels, sells, sells.levels, orderMap}
    }

    /** The parts of the book are distinct objects of the right sizes. */
    ghost predicate Shape() {
      && (this as object) !in {pool as object, pool.slots, pool.freeStack, buys, buys.levels, sells, sells.levels,
           orderMap}
      && (pool as object) !in {pool.slots as object, pool.freeStack, buys, buys.levels, sells, sells.levels, orderMap}
      && (buys as object) !in {pool.slots as object, pool.freeStack, buys.levels, sells, sells.levels, orderMap}
      && (sells as object) !in {pool.slots as object, pool.freeStack, buys.levels, sells.levels, orderMap}
      && (buys.levels as object) !in {pool.slots as object, pool.freeStack, sells.levels, orderMap}
      && (sells.levels as object) !in {pool.slots as object, pool.freeStack, orderMap}
      && (orderMap as object) !in {pool.slots as object, pool.freeStack}
      && (pool.slots as object) != pool.freeStack
      && buys.side == Buy && sells.side == Sell
      && buys.levels.Length == sells.levels.Length == ticks < TWO63
      && orderMap.Length == pool.slots.Length == pool.freeStack.Length == pool.capacity
    }

    function LevelsOf(side: Side): PriceLevels {
      if side.Buy? then buys else sells
    }

    ghost function Stored(): Store
      reads Repr()
    {
      Store(pool.slots[..], if pool.freeTop <= pool.freeStack.Length then pool.freeStack[..pool.freeTop] else [],
        orderMap[..],
            buys.levels[..], sells.levels[..], buys.queues, sells.queues)
    }

    ghost predicate Coherent(pending: multiset<nat>)
      reads Repr()
    {
      && Shape() && pool.Valid()
      && Represents(Stored(), model, pending)
      && matchCount == model.matchCount && tradeVolume == model.volume
    }

    /** The cached best prices are bounds that do not cross. */
    ghost predicate Bounded()
      reads this`bestBid, this`bestAsk, buys`queues, sells`queues
    {
      BoundsOk(buys.queues, sells.queues, bestBid, bestAsk)
    }

    /** The cached best bid is the highest tick that has an order. */
    ghost predicate BidExact()
      reads this`bestBid, buys`queues
    {
      BestOk(Buy, buys.queues, bestBid)
    }

    /** The cached best ask is the lowest tick that has an order. */
    ghost predicate AskExact()
      reads this`bestAsk, sells`queues
    {
      BestOk(Sell, sells.queues, bestAsk)
    }

    ghost predicate Valid()
      reads Repr()
    {
      Coherent(multiset{}) && Bounded() && BidExact() && Inv(model)
    }

    /** The book with its side bytes and its cached best ask, which `BestAsk` is about. */
    ghost function AsBoard(): Board
      reads Repr()
    {
      Board(model, SideBytes(pool.slots[..]), bestAsk)
    }

    constructor (capacity: nat, ticks: nat)
      requires 0 < capacity && ticks < TWO63
      ensures Valid() && model == Empty(capacity, ticks) && this.ticks == ticks && reports == []
      ensures bestAsk == INVALID_PRICE && AskExact() && pool.slots.Length == capacity
      ensures fresh(pool) && fresh(pool.slots) && fresh(pool.freeStack) && fresh(orderMap)
      ensures fresh(buys) && fresh(buys.levels) && fresh(sells) && fresh(sells.levels)
    {
      hide Represents, Inv, BoundsOk, BestOk, StackOk;
      this.ticks := ticks;
      pool := new MemoryPool<Order>(capacity);
      buys := new PriceLevels(Buy, ticks);
      sells := new PriceLevels(Sell, ticks);
      orderMap := new int[capacity](_ => NULL);
      bestBid, bestAsk := INVALID_PRICE, INVALID_PRICE;
      matchCount, tradeVolume := 0, 0;
      reports := [];
      model := Empty(capacity, ticks);
      new;
      EmptyIsValid(capacity);
    }

    lemma EmptyIsValid(capacity: nat)
      requires Shape() && pool.Valid() && pool.capacity == capacity > 0 && model == Empty(capacity, ticks)
      requires |pool.Free()| == capacity && forall i :: 0 <= i < capacity ==> pool.Free()[i] == capacity - 1 - i
      requires forall i :: 0 <= i < orderMap.Length ==> orderMap[i] == NULL
      requires |buys.queues| == |sells.queues| == ticks
      requires forall p :: 0 <= p < ticks ==> buys.queues[p] == sells.queues[p] == []
      requires forall p :: 0 <= p < ticks ==> buys.levels[p] == sells.levels[p] == LimitLevel(p, 0, 0, NULL, NULL)
      requires bestBid == bestAsk == INVALID_PRICE && matchCount == tradeVolume == 0
      ensures Valid() && AskExact()
    {
      EmptyRepresents(Stored(), capacity, ticks);
    }

    lemma ValidModel()
      requires Valid()
      ensures model.Shaped() && Inv(model)
    {
    }

    /** In every valid book the cached best ask is a bound, and exact as `BestAsk` has it. */
    lemma ValidBoard()
      requires Valid()
      ensures AsBoard().book == model && Tracks(AsBoard()) && (Exact(AsBoard()) <==> AskExact())
    {
      hide LevelOk, SlotsOk, TableOk, StackOk, Shows, Inv;
      ExactBests(multiset{});
      BoundFront(Sell, Stored(), model, bestAsk);
      InvLists(model);
      hide SideOk, LadderOk;
    }

    /** Cached bests are exact just when they are the bests of the reference lists. */
    lemma ExactBests(pending: multiset<nat>)
      requires Coherent(pending) && Bounded()
      ensures BidExact() <==> bestBid == Best(model.bids)
      ensures AskExact() <==> bestAsk == Best(model.asks)
    {
      hide SideOk, SlotsOk, TableOk, StackOk;
      Unpack(Stored(), model, pending);
      ExactIsBest(Buy, Stored(), model, bestBid);
      ExactIsBest(Sell, Stored(), model, bestAsk);
    }

    method Mark(o: nat, status: Status)
      requires o < pool.slots.Length
      modifies pool.slots
      ensures pool.slots[..] == old(pool.slots[..])[o := old(pool.slots[o]).(status := status)]
    {
      pool.slots[o] := pool.slots[o].(status := status);
    }

    /** Both sides of a trade advance and the resting order's level loses the traded quantity. */
    method Advance(resting: nat, aggressor: nat, qty: Word64)
      requires Shape() && resting < pool.slots.Length && aggressor < pool.slots.Length && resting != aggressor
      requires 0 <= pool.slots[resting].price < ticks
      requires pool.slots[resting].filled + qty < TWO64 && pool.slots[aggressor].filled + qty < TWO64
      modifies pool.slots, LevelsOf(pool.slots[resting].side).levels
      ensures Stored() == AdvancedStore(old(Stored()), old(pool.slots[resting].side), old(pool.slots[resting].price),
                                        resting, aggressor, qty)
    {
      pool.slots[resting] := pool.slots[resting].(filled := pool.slots[resting].filled + qty);
      pool.slots[aggressor] := pool.slots[aggressor].(filled := pool.slots[aggressor].filled + qty);
      var level, p := LevelsOf(pool.slots[resting].side), pool.slots[resting].price;
      level.levels[p] := level.levels[p].(total := Wrap64(level.levels[p].total - qty));
    }

    /** An order leaves its level, the id table and the pool. */
    method Retire(side: Side, p: nat, o: nat, ghost k: nat, ghost excess: seq<nat>)
      requires Shape() && pool.Valid() && o in Live(pool.Free(), pool.capacity)
      requires LadderOk(side, pool.slots[..], LevelsOf(side).levels[..], LevelsOf(side).queues, excess)
      requires p < ticks && k < |LevelsOf(side).queues[p]| && LevelsOf(side).queues[p][k] == o
      modifies LevelsOf(side)`queues, LevelsOf(side).levels, pool`freeTop, pool.slots, pool.freeStack, orderMap
      ensures pool.Valid()
      ensures Stored() == RetiredStore(old(Stored()), side, p, k, o)
    {
      hide LadderOk, StackOk;
      LevelsOf(side).Remove(pool.slots, p, o, k, excess);
      orderMap[pool.slots[o].id % orderMap.Length] := NULL;
      pool.Destroy(o);
    }

    /** A resting order that traded becomes filled and retires, or stays partially filled. */
    method Settle(o: nat, ghost p: nat, ghost excess: seq<nat>)
      requires Shape() && pool.Valid() && o in Live(pool.Free(), pool.capacity)
      requires var side := pool.slots[o].side;
               && pool.slots[o].price == p < ticks == |LevelsOf(side).queues|
               && LevelsOf(side).queues[p] != [] && LevelsOf(side).queues[p][0] == o
               && LadderOk(side, pool.slots[..][o := Settled(pool.slots[o])], LevelsOf(side).levels[..],
                    LevelsOf(side).queues, excess)
      modifies LevelsOf(pool.slots[o].side)`queues, LevelsOf(pool.slots[o].side).levels
      modifies pool`freeTop, pool.slots, pool.freeStack, orderMap
      ensures pool.Valid()
      ensures Stored() == SettledStore(old(Stored()), old(pool.slots[o].side), p, o)
      ensures var was, now := old(pool.slots[o]), pool.slots[o];
              && now.id == was.id && now.side == was.side && now.price == was.price
              && Marked(now)
    {
      hide LadderOk, StackOk;
      if pool.slots[o].filled >= pool.slots[o].quantity {
        Mark(o, Status.Filled);
        Retire(pool.slots[o].side, pool.slots[o].price, o, 0, excess);
      } else {
        Mark(o, PartiallyFilled);
      }
    }

    /** Both orders take the quantity; what is filled by it is marked, and a filled resting order retires. */
    method Exchange(resting: nat, aggressor: nat, qty: Word64)
      requires Shape() && pool.Valid() && aggressor < pool.capacity
      requires CanFill(Stored(), model, pool.slots[aggressor].side, aggressor, qty)
      requires resting == model.Of(pool.slots[aggressor].side.Opposite())[0].slot
      modifies LevelsOf(pool.slots[aggressor].side.Opposite())`queues
      modifies LevelsOf(pool.slots[aggressor].side.Opposite()).levels
      modifies pool`freeTop, pool.slots, pool.freeStack, orderMap
      ensures pool.Valid()
      ensures Stored() == FilledBook(old(Stored()), model, old(pool.slots[aggressor].side), aggressor, qty)
      ensures resting < pool.slots.Length
      ensures var e, o := model.Of(old(pool.slots[aggressor].side).Opposite())[0], pool.slots[resting];
              o.id == e.id && o.side == old(pool.slots[aggressor].side).Opposite() && o.price == e.price
      ensures Marked(pool.slots[resting]) && Marked(pool.slots[aggressor])
    {
      hide Represents, LadderOk, StackOk, LinkedOut, RemovedLevel, SettledStore, Min;
      ghost var st, side, m := Stored(), pool.slots[aggressor].side, model;
      CanFillFacts(st, m, side, aggressor, qty);
      Advance(resting, aggressor, qty);
      FrontLadder(st, m, side, aggressor, qty);
      Settle(resting, m.Of(side.Opposite())[0].price, m.Excess(side.Opposite()));
      Mark(aggressor, Settled(pool.slots[aggressor]).status);
    }

    /** One trade of `qty` between the front resting order of its side and the aggressor. The resting
        order's slot is read after it was given back to the pool, as its bytes stay in place.
        `FillRefines` says what the new stored book means. */
    method Fill(resting: nat, aggressor: nat, qty: Word64)
      requires Shape() && pool.Valid() && aggressor < pool.capacity
      requires CanFill(Stored(), model, pool.slots[aggressor].side, aggressor, qty)
      requires resting == model.Of(pool.slots[aggressor].side.Opposite())[0].slot
      modifies this`matchCount, this`tradeVolume, this`reports
      modifies LevelsOf(pool.slots[aggressor].side.Opposite())`queues
      modifies LevelsOf(pool.slots[aggressor].side.Opposite()).levels
      modifies pool`freeTop, pool.slots, pool.freeStack, orderMap
      ensures pool.Valid()
      ensures var a := old(pool.slots[aggressor]);
              && Stored() == FilledBook(old(Stored()), model, a.side, aggressor, qty)
              && var e := model.Of(a.side.Opposite())[0];
                 reports == old(reports) + [if a.sideByte == 0 then TradeReport(a.id, e.id, e.price, qty)
                                            else TradeReport(e.id, a.id, e.price, qty)]
      ensures resting < pool.slots.Length && Marked(pool.slots[resting]) && Marked(pool.slots[aggressor])
      ensures matchCount == Wrap64(old(matchCount) + 1)
      ensures tradeVolume == Wrap64(old(tradeVolume) + qty)
    {
      hide CanFill, FilledBook, StackOk, Wrap64;
      var id := pool.slots[aggressor].id;
      Exchange(resting, aggressor, qty);
      Record(pool.slots[resting], id, qty);
    }

    /** Counts a trade and calls the trade callback with its report. */
    method Record(resting: Order, aggressorId: Word64, qty: Word64)
      modifies this`matchCount, this`tradeVolume, this`reports
      ensures matchCount == Wrap64(old(matchCount) + 1)
      ensures tradeVolume == Wrap64(old(tradeVolume) + qty)
      ensures var report := if resting.side.Buy? then TradeReport(resting.id, aggressorId, resting.price, qty)
                            else TradeReport(aggressorId, resting.id, resting.price, qty);
              reports == old(reports) + [report]
    {
      matchCount := Wrap64(matchCount + 1);
      tradeVolume := Wrap64(tradeVolume + qty);
      reports := reports + [if resting.side.Buy? then TradeReport(resting.id, aggressorId, resting.price, qty)
                            else TradeReport(aggressorId, resting.id, resting.price, qty)];
    }

    /** The cached best bid is exact, over the reference list and over the levels as they are stored. The
        cached best ask is a bound, and exact if and only if its own level has an order. They never cross. */
    lemma TopOfBook()
      requires Valid()
      ensures bestBid == Best(model.bids)
      ensures if model.bids == [] then bestBid == -1 else bestBid == model.bids[0].price
      ensures AskExact() <==> if model.asks == [] then bestAsk == -1 else bestAsk == model.asks[0].price
      ensures bestAsk == Best(model.asks) <==> bestAsk == INVALID_PRICE || sells.levels[bestAsk].head != NULL
      ensures AskExact() <==> bestAsk == Best(model.asks)
      ensures bestBid == INVALID_PRICE || bestAsk == INVALID_PRICE || bestBid < bestAsk
      ensures forall p :: 0 <= p < ticks && buys.levels[p].head != NULL ==> p <= bestBid
      ensures forall p :: 0 <= p < ticks && sells.levels[p].head != NULL ==> bestAsk != INVALID_PRICE && bestAsk <= p
      ensures bestBid != INVALID_PRICE ==> 0 <= bestBid < ticks && buys.levels[bestBid].head != NULL
      ensures bestAsk != INVALID_PRICE ==> 0 <= bestAsk < ticks
    {
      hide LevelOk, SlotsOk, TableOk, StackOk, Shows, Inv;
      Heads(multiset{});
      ExactBests(multiset{});
    }

    /** Every field of a stored level is determined by the reference book: the ends of its queue, its count,
        and its cached total. */
    lemma LevelFigures(side: Side, p: nat)
      requires Valid() && p < ticks
      ensures |model.Excess(side)| == LevelsOf(side).levels.Length == ticks
      ensures LevelsOf(side).levels[p] == LevelOf(model.Of(side), model.Excess(side)[p], p)
      ensures LevelSays(LevelsOf(side).levels[p], model.Of(side), model.Excess(side)[p], p)
      ensures LevelsOf(side).levels[p].total == CachedTotal(model, side, p)
    {
      hide LevelSays, Represents, SideOk, StackOk, BoundsOk, BestOk, Inv, DepthAt, QueueAt;
      Unpack(Stored(), model, multiset{});
      SideFigures(side, Stored(), model, p);
      LevelOfSays(model.Of(side), model.Excess(side)[p], p);
    }

    /** So the level arrays depend on the lists and excesses only. */
    lemma LevelArrays(side: Side)
      requires Valid()
      ensures LevelsOf(side).levels[..] == AllLevels(model.Of(side), model.Excess(side))
    {
      hide OrderBook.Valid, LevelOf;
      assert |model.Excess(side)| == LevelsOf(side).levels.Length by { TicksOf(side); }
      forall p | 0 <= p < LevelsOf(side).levels.Length
        ensures LevelsOf(side).levels[p] == LevelOf(model.Of(side), model.Excess(side)[p], p)
      {
        TicksOf(side);
        LevelFigures(side, p);
      }
    }

    lemma TicksOf(side: Side)
      requires Valid()
      ensures |model.Excess(side)| == LevelsOf(side).levels.Length == ticks
    {
      hide BoundsOk, BestOk, Inv, StackOk, SideOk;
      Unpack(Stored(), model, multiset{});
    }

    // ----- Matching

    /** A match under way: aggressor `o` in slot `agg` has made the fills `done` since the book was `m0`. */
    ghost predicate Sweeping(m0: State, o: Incoming, agg: nat, done: seq<Fill>, reports0: seq<TradeReport>)
      reads Repr()
    {
      && Coherent(multiset{agg}) && agg < pool.capacity
      && Aggressor(pool.slots[agg], o) && (pool.slots[agg].status == Active <==> done == [])
      && Sofar(m0, o.side, o.price, o.quantity, done, model, pool.slots[agg].Remaining())
      && reports == reports0 + ReportsOf(o.side, o.id, done)
    }

    /** The body of the matching loop: trade with the front order, having saved what follows it. */
    method TradeFront(resting: nat, incoming: nat, ghost m0: State, ghost o: Incoming, ghost done: seq<Fill>,
                      ghost reports0: seq<TradeReport>) returns (next: int)
      requires Sweeping(m0, o, incoming, done, reports0)
      requires pool.slots[incoming].Remaining() > 0
      requires model.Of(o.side.Opposite()) != [] && model.Of(o.side.Opposite())[0].slot == resting
      requires Crosses(o.side, o.price, model.Of(o.side.Opposite())[0].price)
      modifies this`matchCount, this`tradeVolume, this`reports, this`model
      modifies LevelsOf(o.side.Opposite())`queues, LevelsOf(o.side.Opposite()).levels
      modifies pool`freeTop, pool.slots, pool.freeStack, orderMap
      ensures resting < pool.slots.Length && next == old(pool.slots[resting].next)
      ensures SamePlaces(old(pool.slots[..]), pool.slots[..])
      ensures var e, left := old(model).Of(o.side.Opposite())[0], old(pool.slots[incoming].Remaining());
              var q := Min(e.remaining, left);
              && Sweeping(m0, o, incoming, done + [FillOf(e, q)], reports0)
              && FillEffect(old(Stored()), Stored(), old(model), o.side, incoming, q)
              && model == FillStep(old(model), o.side, q)
    {
      hide Represents, FilledBook, FillStep, Sofar, FillEffect, StackOk;
      ghost var st, m, side := Stored(), model, o.side;
      EntryFacts(side.Opposite(), st, m, multiset{incoming}, 0);
      var restingRemain := pool.slots[resting].quantity - pool.slots[resting].filled;
      var aggressorRemain := pool.slots[incoming].quantity - pool.slots[incoming].filled;
      var fillQty := Min(restingRemain, aggressorRemain);
      next := pool.slots[resting].next;
      FillStepParts(m, side, fillQty);
      Fill(resting, incoming, fillQty);
      FillRefines(st, m, side, incoming, fillQty);
      FilledPlaces(st, m, side, incoming, fillQty);
      SofarStep(m0, side, o.price, o.quantity, done, m, aggressorRemain, fillQty);
      model := FillStep(m, side, fillQty);
      FilledAggressor(st, Stored(), m, o, incoming, fillQty);
      ReportsAppend(side, o.id, done, FillOf(m.Of(side.Opposite())[0], fillQty));
    }

    /** Walks the orders of the best opposite level front to back. */
    method WalkLevel(p: int, incoming: nat, ghost m0: State, ghost o: Incoming, ghost done0: seq<Fill>,
                     ghost reports0: seq<TradeReport>) returns (ghost done: seq<Fill>)
      requires Sweeping(m0, o, incoming, done0, reports0)
      requires pool.slots[incoming].Remaining() > 0 && Crosses(o.side, o.price, p)
      requires p != INVALID_PRICE && BestOk(o.side.Opposite(), LevelsOf(o.side.Opposite()).queues, p)
      modifies this`matchCount, this`tradeVolume, this`reports, this`model
      modifies LevelsOf(o.side.Opposite())`queues, LevelsOf(o.side.Opposite()).levels
      modifies pool`freeTop, pool.slots, pool.freeStack, orderMap
      ensures Sweeping(m0, o, incoming, done, reports0)
      ensures SamePlaces(old(pool.slots[..]), pool.slots[..])
      ensures AtLevel(Stored(), o.side.Opposite(), p, NULL, 0)
      ensures pool.slots[incoming].Remaining() == 0 || LevelsOf(o.side.Opposite()).queues[p] == []
      ensures Work(Stored(), model, o.side.Opposite(), incoming)
            < old(Work(Stored(), model, o.side.Opposite(), incoming))
    {
      hide Represents, FillStep, Sofar, FillEffect, StackOk, ReportsOf, BetterEmpty, LevelOk, Shows, SamePlaces;
      SamePlacesSelf(pool.slots[..]);
      ghost var opp := o.side.Opposite();
      Unpack(Stored(), model, multiset{incoming});
      BestFront(opp, Stored(), model, p);
      ghost var work := Work(Stored(), model, opp, incoming);
      HeadNext(opp, Stored().slots, Stored().Levels(opp), Stored().Queues(opp), model.Excess(opp), p);
      var resting := LevelsOf(pool.slots[incoming].side.Opposite()).levels[p].head;
      done := done0;
      ghost var traded := false;
      while resting != NULL && pool.slots[incoming].quantity > pool.slots[incoming].filled
        invariant Sweeping(m0, o, incoming, done, reports0)
        invariant SamePlaces(old(pool.slots[..]), pool.slots[..])
        invariant AtLevel(Stored(), opp, p, resting, pool.slots[incoming].Remaining())
        invariant traded ==> Work(Stored(), model, opp, incoming) < work
        invariant !traded ==> resting != NULL && pool.slots[incoming].Remaining() > 0 &&
                                    Work(Stored(), model, opp, incoming) == work
        decreases Work(Stored(), model, opp, incoming)
      {
        ghost var st, m := Stored(), model;
        Unpack(st, m, multiset{incoming});
        BestFront(opp, st, m, p);
        ghost var q := Min(m.Of(opp)[0].remaining, pool.slots[incoming].Remaining());
        resting := TradeFront(resting, incoming, m0, o, done, reports0);
        SamePlacesTwice(old(pool.slots[..]), st.slots, pool.slots[..]);
        FillProgress(st, Stored(), m, o.side, incoming, q, p, resting);
        done, traded := done + [FillOf(m.Of(opp)[0], q)], true;
      }
    }

    /** A level is empty exactly when its queue is. */
    lemma Heads(pending: multiset<nat>)
      requires Coherent(pending)
      ensures |buys.queues| == |sells.queues| == ticks
      ensures forall p :: 0 <= p < ticks ==> (buys.levels[p].head == NULL <==> buys.queues[p] == [])
      ensures forall p :: 0 <= p < ticks ==> (sells.levels[p].head == NULL <==> sells.queues[p] == [])
    {
      forall p | 0 <= p < ticks
        ensures buys.levels[p].head == NULL <==> buys.queues[p] == []
        ensures sells.levels[p].head == NULL <==> sells.queues[p] == []
      {
        var st := Stored();
        HeadNext(Buy, st.slots, st.buyLevels, st.buyQueues, model.bidExcess, p);
        HeadNext(Sell, st.slots, st.sellLevels, st.sellQueues, model.askExcess, p);
      }
    }

    /** When the outer loop stops, the reference match has nothing left to do either. */
    lemma MatchDone(m0: State, o: Incoming, incoming: nat, done: seq<Fill>, reports0: seq<TradeReport>, best: int)
      requires Sweeping(m0, o, incoming, done, reports0)
      requires BestBound(o.side.Opposite(), LevelsOf(o.side.Opposite()).queues, best)
      requires best == INVALID_PRICE || !Crosses(o.side, o.price, best) || pool.slots[incoming].Remaining() <= 0
      ensures var m := Match(o.side, o.price, o.quantity, m0.Of(o.side.Opposite()));
              && model == Absorb(m0, o.side, m.fills, m.book)
              && pool.slots[incoming].Remaining() == m.left
              && done == m.fills
    {
      hide LevelOk, SlotsOk, TableOk, StackOk;
      var st, opp := Stored(), o.side.Opposite();
      BoundFront(opp, st, model, best);
      SofarEnd(m0, o.side, o.price, o.quantity, done, model, pool.slots[incoming].Remaining());
    }

    /** Scans down from `from` for the best bid. */
    method UpdateBestBid(from: int)
      requires Shape() && |buys.queues| == ticks && -1 <= from < ticks && BetterEmpty(Buy, buys.queues, from)
      requires forall p :: 0 <= p < ticks ==> (buys.levels[p].head == NULL <==> buys.queues[p] == [])
      modifies this`bestBid
      ensures BestOk(Buy, buys.queues, bestBid) && bestBid <= from
    {
      var p := from;
      while p >= 0
        invariant -1 <= p <= from
        invariant forall r :: p < r < ticks && r != from ==> buys.queues[r] == []
        invariant p < from ==> from < 0 || buys.queues[from] == []
      {
        if !buys.levels[p].Empty() {
          bestBid := p;
          return;
        }
        p := p - 1;
      }
      bestBid := INVALID_PRICE;
    }

    /** Scans up from `from` for the best ask. */
    method UpdateBestAsk(from: int)
      requires Shape() && |sells.queues| == ticks && 0 <= from && BetterEmpty(Sell, sells.queues, from)
      requires forall p :: 0 <= p < ticks ==> (sells.levels[p].head == NULL <==> sells.queues[p] == [])
      modifies this`bestAsk
      ensures BestOk(Sell, sells.queues, bestAsk) && (bestAsk == INVALID_PRICE || from <= bestAsk)
    {
      var p := from;
      while p < ticks
        invariant from <= p
        invariant forall r :: 0 <= r < p && r < ticks && r != from ==> sells.queues[r] == []
        invariant p > from ==> from >= ticks || sells.queues[from] == []
      {
        if !sells.levels[p].Empty() {
          bestAsk := p;
          return;
        }
        p := p + 1;
      }
      bestAsk := INVALID_PRICE;
    }

    /** No order on the other side is cached as within the limit of `o`. */
    ghost predicate Clear(o: Incoming)
      reads this`bestBid, this`bestAsk
    {
      if o.side.Buy? then bestAsk == INVALID_PRICE || o.price < bestAsk
      else bestBid == INVALID_PRICE || bestBid < o.price
    }

    /** A buy consumes asks upward. `skips` counts how often the best level is empty: never when the cached best
        is exact, and otherwise once, as the scan that follows makes it so. */
    method ConsumeAsks(incoming: nat, ghost o: Incoming) returns (ghost skips: nat)
      requires Sweeping(model, o, incoming, [], reports) && Bounded() && o.side == Buy
      requires pool.slots[incoming].Remaining() > 0
      modifies Repr()
      ensures Coherent(multiset{incoming}) && Aggressor(pool.slots[incoming], o) && Bounded()
      ensures pool.slots[incoming].Remaining() > 0 ==> Clear(o)
      ensures SamePlaces(old(pool.slots[..]), pool.slots[..])
      ensures var m := Match(o.side, o.price, o.quantity, old(model).Of(o.side.Opposite()));
              && model == Absorb(old(model), o.side, m.fills, m.book)
              && pool.slots[incoming].Remaining() == m.left
              && (pool.slots[incoming].status == Active <==> m.fills == [])
              && reports == old(reports) + ReportsOf(o.side, o.id, m.fills)
      ensures bestBid == old(bestBid) && buys.queues == old(buys.queues)
      ensures var reached := old(bestAsk) != INVALID_PRICE && old(bestAsk) <= o.price;
              && bestAsk == (if reached then Best(model.asks) else old(bestAsk))
              && skips == (if reached && !old(AskExact()) then 1 else 0)
              && (old(AskExact()) ==> AskExact())
    {
      hide Represents, Sofar, StackOk, BetterEmpty, LevelOk, Shows, ReportsOf, Absorb, Match, SamePlaces;
      ghost var m0, reports0, done, reached, was := model, reports, [], false, sells.queues;
      SamePlacesSelf(pool.slots[..]);
      skips := 0;
      while bestAsk != INVALID_PRICE && bestAsk <= pool.slots[incoming].price &&
            pool.slots[incoming].quantity > pool.slots[incoming].filled
        invariant Sweeping(m0, o, incoming, done, reports0) && Bounded()
        invariant SamePlaces(old(pool.slots[..]), pool.slots[..])
        invariant bestBid == old(bestBid) && buys.queues == old(buys.queues)
        invariant if reached then old(bestAsk) != INVALID_PRICE && old(bestAsk) <= o.price && AskExact()
                  else bestAsk == old(bestAsk) && sells.queues == was && pool.slots[incoming].Remaining() > 0
        invariant skips == if reached && !old(AskExact()) then 1 else 0
        decreases Work(Stored(), model, Sell, incoming), if bestAsk == INVALID_PRICE then 0 else ticks - bestAsk
      {
        Heads(multiset{incoming});
        reached := true;
        if sells.levels[bestAsk].Empty() {
          UpdateBestAsk(bestAsk);
          skips := skips + 1;
          continue;
        }
        ghost var slots := pool.slots[..];
        done := WalkLevel(bestAsk, incoming, m0, o, done, reports0);
        SamePlacesTwice(old(pool.slots[..]), slots, pool.slots[..]);
        Heads(multiset{incoming});
        if sells.levels[bestAsk].Empty() {
          UpdateBestAsk(bestAsk);
        }
      }
      MatchDone(m0, o, incoming, done, reports0, bestAsk);
      ExactBests(multiset{incoming});
    }

    /** A sell consumes bids downward; `skips` is as for asks. */
    method ConsumeBids(incoming: nat, ghost o: Incoming) returns (ghost skips: nat)
      requires Sweeping(model, o, incoming, [], reports) && Bounded() && o.side == Sell
      requires pool.slots[incoming].Remaining() > 0
      modifies Repr()
      ensures Coherent(multiset{incoming}) && Aggressor(pool.slots[incoming], o) && Bounded()
      ensures pool.slots[incoming].Remaining() > 0 ==> Clear(o)
      ensures SamePlaces(old(pool.slots[..]), pool.slots[..])
      ensures var m := Match(o.side, o.price, o.quantity, old(model).Of(o.side.Opposite()));
              && model == Absorb(old(model), o.side, m.fills, m.book)
              && pool.slots[incoming].Remaining() == m.left
              && (pool.slots[incoming].status == Active <==> m.fills == [])
              && reports == old(reports) + ReportsOf(o.side, o.id, m.fills)
      ensures bestAsk == old(bestAsk) && sells.queues == old(sells.queues)
      ensures var reached := old(bestBid) != INVALID_PRICE && old(bestBid) >= o.price;
              && bestBid == (if reached then Best(model.bids) else old(bestBid))
              && skips == (if reached && !old(BidExact()) then 1 else 0)
              && (old(BidExact()) ==> BidExact())
    {
      hide Represents, Sofar, StackOk, BetterEmpty, LevelOk, Shows, ReportsOf, Absorb, Match, SamePlaces;
      ghost var m0, reports0, done, reached, was := model, reports, [], false, buys.queues;
      SamePlacesSelf(pool.slots[..]);
      skips := 0;
      while bestBid != INVALID_PRICE && bestBid >= pool.slots[incoming].price &&
            pool.slots[incoming].quantity > pool.slots[incoming].filled
        invariant Sweeping(m0, o, incoming, done, reports0) && Bounded()
        invariant SamePlaces(old(pool.slots[..]), pool.slots[..])
        invariant bestAsk == old(bestAsk) && sells.queues == old(sells.queues)
        invariant if reached then old(bestBid) != INVALID_PRICE && old(bestBid) >= o.price && BidExact()
                  else bestBid == old(bestBid) && buys.queues == was && pool.slots[incoming].Remaining() > 0
        invariant skips == if reached && !old(BidExact()) then 1 else 0
        decreases Work(Stored(), model, Buy, incoming), bestBid + 1
      {
        Heads(multiset{incoming});
        reached := true;
        if buys.levels[bestBid].Empty() {
          UpdateBestBid(bestBid);
          skips := skips + 1;
          continue;
        }
        ghost var slots := pool.slots[..];
        done := WalkLevel(bestBid, incoming, m0, o, done, reports0);
        SamePlacesTwice(old(pool.slots[..]), slots, pool.slots[..]);
        Heads(multiset{incoming});
        if buys.levels[bestBid].Empty() {
          UpdateBestBid(bestBid);
        }
      }
      MatchDone(m0, o, incoming, done, reports0, bestBid);
      ExactBests(multiset{incoming});
    }

    /** Price-time matching of an aggressor. The best ask moves if a buy reaches it. The branch for an empty
        best level is taken only by a buy that reaches a best ask that is not exact. */
    method MatchIncoming(incoming: nat, ghost o: Incoming) returns (ghost skips: nat)
      requires Sweeping(model, o, incoming, [], reports) && Bounded() && BidExact()
      requires pool.slots[incoming].Remaining() > 0
      modifies Repr()
      ensures Coherent(multiset{incoming}) && Aggressor(pool.slots[incoming], o) && Bounded() && BidExact()
      ensures pool.slots[incoming].Remaining() > 0 ==> Clear(o)
      ensures SamePlaces(old(pool.slots[..]), pool.slots[..])
      ensures var m := Match(o.side, o.price, o.quantity, old(model).Of(o.side.Opposite()));
              && model == Absorb(old(model), o.side, m.fills, m.book)
              && pool.slots[incoming].Remaining() == m.left
              && (pool.slots[incoming].status == Active <==> m.fills == [])
              && reports == old(reports) + ReportsOf(o.side, o.id, m.fills)
      ensures var reached := o.side.Buy? && old(bestAsk) != INVALID_PRICE && old(bestAsk) <= o.price;
              && bestAsk == (if reached then Best(model.asks) else old(bestAsk))
              && skips == (if reached && !old(AskExact()) then 1 else 0)
    {
      hide Sweeping, Coherent, BoundsOk, BestOk, ReportsOf, Absorb, Match, SamePlaces;
      assert pool.slots[incoming].side == o.side by { SweepingSide(o, incoming); }
      if pool.slots[incoming].side == Buy {
        skips := ConsumeAsks(incoming, o);
      } else {
        skips := ConsumeBids(incoming, o);
      }
    }

    lemma SweepingSide(o: Incoming, incoming: nat)
      requires Sweeping(model, o, incoming, [], reports)
      ensures incoming < pool.slots.Length && pool.slots[incoming].side == o.side
    {
    }

    // ----- Operations

    /** The cached best follows a newly rested order. */
    method NoteRested(side: Side, p: nat, ghost was: seq<seq<nat>>, ghost o: nat)
      requires Shape() && p < |was| && LevelsOf(side).queues == was[p := was[p] + [o]]
      requires BoundsOk(if side.Buy? then was else buys.queues, if side.Sell? then was else sells.queues,
                        bestBid, bestAsk)
      requires BestOk(Buy, if side.Buy? then was else buys.queues, bestBid)
      requires if side.Buy? then bestAsk == INVALID_PRICE || p < bestAsk else bestBid == INVALID_PRICE || bestBid < p
      modifies this`bestBid, this`bestAsk
      ensures Bounded() && BidExact()
      ensures bestAsk == if side.Sell? && (old(bestAsk) == INVALID_PRICE || p < old(bestAsk)) then p else old(bestAsk)
    {
      BestAfterPush(side, was, if side.Buy? then bestBid else bestAsk, p, o);
      if side == Buy {
        if bestBid == INVALID_PRICE || p > bestBid {
          bestBid := p;
        }
      } else {
        if bestAsk == INVALID_PRICE || p < bestAsk {
          bestAsk := p;
        }
      }
    }

    /** An order, or what is left of it, joins the back of its level, and the best price follows. */
    method RestOrder(o: nat, ghost order: Incoming)
      requires Coherent(multiset{o}) && o < pool.capacity && Aggressor(pool.slots[o], order)
      requires pool.slots[o].Remaining() > 0
      requires 0 <= order.price < ticks && pool.slots[o].Resting()
      requires Bounded() && BidExact() && Clear(order)
      requires Inv(Rest(model, o, order, pool.slots[o].Remaining()))
      modifies this`bestBid, this`bestAsk, this`model, pool.slots, LevelsOf(order.side)`queues,
                 LevelsOf(order.side).levels
      ensures Valid() && model == Rest(old(model), o, order, old(pool.slots[o].Remaining()))
      ensures bestAsk == if order.side.Sell? && (old(bestAsk) == INVALID_PRICE || order.price < old(bestAsk))
                         then order.price else old(bestAsk)
      ensures SamePlaces(old(pool.slots[..]), pool.slots[..])
      ensures SameButLinks(old(pool.slots[o]), pool.slots[o])
    {
      hide LevelOk, Shows, SlotsOk, TableOk, StackOk, Rest, Inv, BoundsOk, BestOk, SamePlaces;
      ghost var st, m, left, side := Stored(), model, pool.slots[o].Remaining(), order.side;
      PendingNotQueued(side, st, m, multiset{o}, o);
      var p := pool.slots[o].price;
      LevelsOf(pool.slots[o].side).PushBack(pool.slots, p, o, m.Excess(side));
      RelinkedPlaces(st.slots, pool.slots[..], side, p);
      NoteRested(pool.slots[o].side, p, st.Queues(side), o);
      Rested(st, m, o, order, left);
    }

    /** The reference book takes note of an order that has just been queued. */
    ghost method Rested(st: Store, m: State, o: nat, order: Incoming, left: nat)
      requires Shape() && pool.Valid() && model == m && matchCount == m.matchCount && tradeVolume == m.volume
      requires Represents(st, m, multiset{o}) && left <= order.quantity && 0 <= order.price < |st.Queues(order.side)|
      requires o < |st.slots| && Shown(order.side, st.slots[o], Entry(o, order.id, order.price, left, m.clock))
      requires QueuedStore(st, Stored(), m, order, o, left)
      requires Bounded() && BidExact()
      requires Inv(Rest(m, o, order, left))
      modifies this`model
      ensures Valid() && model == Rest(m, o, order, left)
    {
      hide Represents, Inv, BoundsOk, BestOk, StackOk, QueuedStore, Rest;
      ghost var t := Stored();
      Unpack(st, m, multiset{o});
      InvParts(Rest(m, o, order, left));
      RestedRepresents(st, t, m, order, o, left);
      RestParts(m, o, order, left);
      model := Rest(m, o, order, left);
    }

    lemma SweepingStart(o: Incoming, slot: nat)
      requires Coherent(multiset{slot}) && slot < pool.capacity
      requires Aggressor(pool.slots[slot], o) && pool.slots[slot].filled == 0 && pool.slots[slot].status == Active
      ensures Sweeping(model, o, slot, [], reports)
    {
      hide Represents, StackOk, Sofar, ReportsOf, Absorb;
      Unpack(Stored(), model, multiset{slot});
      SofarStart(model, o.side, o.price, o.quantity);
      NoReports(o.side, o.id);
    }

    /** Puts a new order into a free slot and under its id; NULL when the pool is exhausted. */
    method AllocateOrder(msg: OrderMessage) returns (slot: int)
      requires Valid() && ValidOrder(model, IncomingOf(msg))
      modifies this`model, pool`freeTop, pool.slots, orderMap
      ensures slot == NULL <==> old(model).free == []
      ensures slot == NULL ==> model == old(model) && Valid() && pool.slots[..] == old(pool.slots[..])
      ensures slot != NULL ==>
                && slot == old(model).free[|old(model).free| - 1]
                && model == Allocate(old(model), msg.orderId)
                && slot < pool.capacity && Coherent(multiset{slot as nat})
                && Aggressor(pool.slots[slot], IncomingOf(msg)) && pool.slots[slot].filled == 0
                && pool.slots[slot].status == Active && pool.slots[slot].timestamp == msg.arrival
                && pool.slots[slot].sideByte == msg.side
                && SideBytes(pool.slots[..]) == SideBytes(old(pool.slots[..]))[slot := msg.side]
    {
      hide StackOk, Represents, Inv, BoundsOk, BestOk, Allocate, SlotsOk, TableOk, SideOk, LeakedFilled, Live;
      ghost var st, m := Stored(), model;
      Unpack(st, m, multiset{});
      AllocateParts(m, msg.orderId);
      slot := pool.Construct(BLANK_ORDER);
      if slot == NULL {
        assert Stored() == st;
        return;
      }
      pool.slots[slot] := Order(NULL, NULL, msg.orderId, msg.side, Active, msg.price, msg.quantity, 0, msg.arrival);
      orderMap[msg.orderId % orderMap.Length] := slot;
      model := Allocate(m, msg.orderId);
      AllocatedRepresents(st, Stored(), m, msg.orderId);
    }

    /** Nothing happens to a filled aggressor: the reference book records that its slot stays in use. */
    ghost method Leak(slot: nat)
      requires Coherent(multiset{slot}) && slot < pool.capacity && pool.slots[slot].status == Filled
      requires Bounded() && BidExact()
      requires Inv(model.(leaked := model.leaked + {slot}))
      modifies this`model
      ensures Valid() && model == old(model).(leaked := old(model).leaked + {slot})
    {
      hide Represents, Inv, BoundsOk, BestOk, StackOk;
      LeakedRepresents(Stored(), model, slot);
      model := model.(leaked := model.leaked + {slot});
    }

    /** `add_order`: match first, rest what is left. A fully filled aggressor keeps its slot and its
        id-table cell; `leaked` records it. Each trade is reported with the order of the Buy side as buyer and
        the order of the Sell side as seller, at the price of the resting one. */
    method AddOrder(msg: OrderMessage) returns (slot: int)
      requires Valid() && ValidOrder(model, IncomingOf(msg))
      modifies Repr()
      ensures Valid()
      ensures var o := Incoming(msg.orderId, if msg.side == 0 then Buy else Sell, msg.price, msg.quantity);
              var r := Add(old(model), o);
              && model == r.state && slot == r.slot
              && old(AsBoard()).book.Shaped() && AsBoard() == AddBoard(old(AsBoard()), o, msg.side)
              && Reported(msg, if msg.side == 0 then old(model).asks else old(model).bids, r.fills, old(reports),
                   reports)
              && (slot != NULL ==> 0 <= slot < pool.slots.Length && Kept(pool.slots[slot], msg, r.fills))
      ensures var o := IncomingOf(msg);
              reports == old(reports) + ReportsOf(o.side, o.id, Add(old(model), o).fills)
    {
      hide Represents, Inv, BoundsOk, BestOk, Sofar, Absorb, Rest, StackOk, Add, Match, Allocate, Wrap64, Live, SlotsOk,
           TableOk, SideOk, LeakedFilled, Ended, SamePlaces, AddBoard, Reported, Traded, Kept, SameButLinks, ReportsOf;
      ghost var m0, order, b := model, IncomingOf(msg), AsBoard();
      Unpack(Stored(), m0, multiset{});
      AddEnds(m0, order);
      AddReported(m0, msg, reports);
      AddsAsBoard(b, order, msg.side);
      AddKeepsInv(m0, order);
      slot := AllocateOrder(msg);
      if slot == NULL {
        return;
      }
      SweepingStart(order, slot);
      ghost var slots := pool.slots[..];
      MatchAndRest(slot, msg);
      SamePlacesBytes(slots, pool.slots[..]);
    }

    /** The rest of `add_order`, once the order is in its slot. */
    method MatchAndRest(slot: nat, ghost msg: OrderMessage)
      requires Sweeping(model, IncomingOf(msg), slot, [], reports) && Bounded() && BidExact()
      requires slot < pool.slots.Length && pool.slots[slot].Remaining() > 0 && 0 <= msg.price < ticks
      requires pool.slots[slot].sideByte == msg.side && pool.slots[slot].timestamp == msg.arrival
      requires var o := IncomingOf(msg);
               var r := Match(o.side, o.price, o.quantity, model.Of(o.side.Opposite()));
               && r.left == o.quantity - Traded(r.fills)
               && model.Shaped() && Inv(Ended(Absorb(model, o.side, r.fills, r.book), slot, o, r.left))
      modifies Repr()
      ensures Valid()
      ensures var o, m := IncomingOf(msg), old(model);
              var r := Match(o.side, o.price, o.quantity, m.Of(o.side.Opposite()));
              var t := Absorb(m, o.side, r.fills, r.book);
              && model == Ended(t, slot, o, r.left)
              && reports == old(reports) + ReportsOf(o.side, o.id, r.fills)
              && slot < pool.slots.Length && Kept(pool.slots[slot], msg, r.fills)
              && bestAsk == if o.side.Buy? then
                              if old(bestAsk) != INVALID_PRICE && old(bestAsk) <= o.price then Best(t.asks)
                                else old(bestAsk)
                            else if r.left > 0 && (old(bestAsk) == INVALID_PRICE || o.price < old(bestAsk)) then o.price
                            else old(bestAsk)
      ensures SamePlaces(old(pool.slots[..]), pool.slots[..])
    {
      hide Represents, Inv, BoundsOk, BestOk, Sofar, Absorb, StackOk, Match, Ended, SamePlaces, Traded, Kept,
           SameButLinks,
           ReportsOf;
      ghost var order, slots := IncomingOf(msg), pool.slots[..];
      ghost var skips := MatchIncoming(slot, order);
      PlaceOf(slots, pool.slots[..], slot);
      ghost var matched := pool.slots[..];
      Finish(slot, order);
      SamePlacesTwice(slots, matched, pool.slots[..]);
      ghost var fills := Match(order.side, order.price, order.quantity, old(model).Of(order.side.Opposite())).fills;
      KeptAfter(matched[slot], pool.slots[slot], msg, fills);
    }

    /** If not fully filled, the order rests in the book. */
    method Finish(slot: nat, ghost order: Incoming)
      requires Coherent(multiset{slot}) && slot < pool.capacity && Aggressor(pool.slots[slot], order)
      requires 0 <= order.price < ticks && Bounded() && BidExact()
      requires (pool.slots[slot].Remaining() > 0 ==> Clear(order))
      requires Inv(Ended(model, slot, order, pool.slots[slot].Remaining()))
      modifies this`bestBid, this`bestAsk, this`model, pool.slots, LevelsOf(order.side)`queues,
                 LevelsOf(order.side).levels
      ensures Valid() && model == Ended(old(model), slot, order, old(pool.slots[slot].Remaining()))
      ensures bestAsk == if order.side.Sell? && old(pool.slots[slot].Remaining()) > 0 &&
                            (old(bestAsk) == INVALID_PRICE || order.price < old(bestAsk)) then order.price
                         else old(bestAsk)
      ensures SamePlaces(old(pool.slots[..]), pool.slots[..])
      ensures SameButLinks(old(pool.slots[slot]), pool.slots[slot])
    {
      hide Represents, Inv, BoundsOk, BestOk, Rest, StackOk, SamePlaces;
      if pool.slots[slot].status != Filled {
        RestOrder(slot, order);
      } else {
        SamePlacesSelf(pool.slots[..]);
        Leak(slot);
      }
    }

    /** The best of a side is scanned for again when its best level has just become empty, if the side byte
        of the order that left it names that side. */
    method RefreshBest(sideByte: Byte, p: nat, ghost was: seq<seq<nat>>, ghost q: seq<nat>)
      requires var side := SideOf(sideByte);
               && Shape() && p < |was| == ticks && was[p] != [] && LevelsOf(side).queues == was[p := q]
               && BoundsOk(if side.Buy? then was else buys.queues, if side.Sell? then was else sells.queues,
                           bestBid, bestAsk)
               && BestOk(Buy, if side.Buy? then was else buys.queues, bestBid)
               && forall r :: 0 <= r < ticks ==>
                    (LevelsOf(side).levels[r].head == NULL <==> LevelsOf(side).queues[r] == [])
      modifies this`bestBid, this`bestAsk
      ensures Bounded() && BidExact()
      ensures if sideByte == 1 && p == old(bestAsk) then AskExact() else bestAsk == old(bestAsk)
    {
      ghost var side := SideOf(sideByte);
      BestAfterRemove(side, was, if side.Buy? then bestBid else bestAsk, p, q);
      if LevelsOf(SideOf(sideByte)).levels[p].Empty() {
        if sideByte == BUY && p == bestBid {
          UpdateBestBid(bestBid);
        }
        if sideByte == SELL && p == bestAsk {
          UpdateBestAsk(bestAsk);
        }
      }
    }

    /** The slot of the resting order an id leads to, or NULL: the three checks that open `cancel_order`
        and `modify_order`. */
    method Lookup(id: Word64) returns (o: int)
      requires Valid()
      ensures o == NULL <==> model.Locate(id) == Nowhere
      ensures o != NULL ==> o == orderMap[id % orderMap.Length] && IsLocated(o, id)
    {
      hide Represents, Inv, BoundsOk, BestOk, LadderOk, StackOk;
      ghost var st := Stored();
      Unpack(st, model, multiset{});
      LocateStored(st, model, id);
      o := orderMap[id % orderMap.Length];
      if o == NULL || pool.slots[o].id != id {
        return NULL;
      }
      if pool.slots[o].status != Active && pool.slots[o].status != PartiallyFilled {
        return NULL;
      }
      EntryFacts(model.Locate(id).side, st, model, multiset{}, model.Locate(id).index);
    }

    /** Slot `o` holds the resting order that the reference book finds under `id`. */
    ghost predicate IsLocated(o: int, id: Word64)
      reads Repr()
    {
      && Shape() && pool.Valid() && model.Shaped()
      && 0 <= o < pool.slots.Length && o in Live(pool.Free(), pool.capacity)
      && model.Locate(id).At?
      && var e := model.Of(model.Locate(id).side)[model.Locate(id).index];
         && e.slot == o && e.id == id && Shown(model.Locate(id).side, pool.slots[o], e) && 0 <= e.price < ticks
    }

    /** A cancelled order leaves the id table and its level. */
    method Detach(o: nat, side: Side, p: nat, ghost k: nat, ghost excess: seq<nat>)
      requires Shape() && pool.Valid() && o < pool.slots.Length && pool.slots[o].side == side
      requires pool.slots[o].price == p
      requires LadderOk(side, pool.slots[..], LevelsOf(side).levels[..], LevelsOf(side).queues, excess)
      requires p < ticks == |LevelsOf(side).queues| && k < |LevelsOf(side).queues[p]|
      requires LevelsOf(side).queues[p][k] == o
      modifies LevelsOf(side)`queues, LevelsOf(side).levels, pool.slots, orderMap
      ensures pool.Valid() && pool.slots[o].status == Cancelled
      ensures var st := old(Stored());
              Stored() == DetachedStore(st.(slots := st.slots[o := st.slots[o].(status := Cancelled)]), side, p, k, o)
      ensures SamePlaces(old(pool.slots[..]), pool.slots[..])
      ensures forall r :: 0 <= r < ticks ==> (LevelsOf(side).levels[r].head == NULL <==> LevelsOf(side).queues[r] == [])
    {
      hide LadderOk, StackOk, RemovedLevel, SamePlaces;
      LinkedOutPlaces(pool.slots[..], o, Cancelled);
      StatusFrame(side, pool.slots[..], LevelsOf(side).levels[..], LevelsOf(side).queues, excess, o, Cancelled);
      Mark(o, Cancelled);
      orderMap[pool.slots[o].id % orderMap.Length] := NULL;
      LevelsOf(side).Remove(pool.slots, p, o, k, excess);
      LadderHeads(side, pool.slots[..], LevelsOf(side).levels[..], LevelsOf(side).queues, excess);
    }

    /** The located order leaves its level, the id table and the pool; its slot keeps its bytes. */
    method CancelSlot(o: nat, id: Word64)
      requires Valid() && IsLocated(o, id)
      modifies this`bestBid, this`bestAsk, this`model
      modifies buys`queues, buys.levels, sells`queues, sells.levels, pool`freeTop, pool.slots, pool.freeStack, orderMap
      ensures Valid() && model == Cancel(old(model), id).state
      ensures pool.slots[o].status == Cancelled
      ensures SamePlaces(old(pool.slots[..]), pool.slots[..])
      ensures AsBoard() == CancelBoard(old(AsBoard()), id)
    {
      hide Represents, Inv, BoundsOk, BestOk, LadderOk, StackOk, LinkedOut, RemovedLevel, Shows, SamePlaces, Cancel,
           SlotsOk, TableOk, LeakedFilled;
      ghost var st, m, place := Stored(), model, model.Locate(id);
      Unpack(st, m, multiset{});
      ghost var k := LocatedAt(st, m, place.side, place.index);
      var sideByte, p := pool.slots[o].sideByte, pool.slots[o].price;
      ghost var side := place.side;
      Detach(o, SideOf(sideByte), p, k, m.Excess(side));
      RefreshBest(sideByte, p, st.Queues(side), LevelsOf(side).queues[p]);
      pool.Destroy(o);
      NoteCancelled(st, m, id, k);
      ExactBests(multiset{});
      SamePlacesBytes(st.slots, pool.slots[..]);
    }

    /** The reference book takes note of an order that has just been taken out. */
    ghost method NoteCancelled(st: Store, m: State, id: Word64, k: nat)
      requires Shape() && pool.Valid() && model == m && matchCount == m.matchCount && tradeVolume == m.volume
      requires Represents(st, m, multiset{}) && Inv(m) && m.Locate(id).At? && Bounded() && BidExact()
      requires var side, i := m.Locate(id).side, m.Locate(id).index;
               && KthOfLevel(st, m, side, i, k) && |st.table| > 0 && Stored() == CancelledBook(st, m, side, i, k)
      modifies this`model
      ensures Valid() && model == Cancel(m, id).state
    {
      hide Represents, Inv, BoundsOk, CancelledBook, StackOk;
      CancelRefines(st, m, id, k);
      CancelKeepsInv(m, id);
      CancelOpConserves(m, id, Buy);
      model := Cancel(m, id).state;
    }

    /** `cancel_order`: true exactly when the id leads to a resting order. */
    method CancelOrder(id: Word64) returns (ok: bool)
      requires Valid()
      modifies this`bestBid, this`bestAsk, this`model
      modifies buys`queues, buys.levels, sells`queues, sells.levels, pool`freeTop, pool.slots, pool.freeStack, orderMap
      ensures Valid()
      ensures model == Cancel(old(model), id).state && (ok <==> Cancel(old(model), id).slot != NULL)
      ensures var o := old(orderMap[id % orderMap.Length]);
              ok ==> 0 <= o < pool.slots.Length && pool.slots[o].status == Cancelled
      ensures ok ==> SamePlaces(old(pool.slots[..]), pool.slots[..])
      ensures old(AsBoard()).book.Shaped() && AsBoard() == CancelBoard(old(AsBoard()), id)
      ensures reports == old(reports)
    {
      hide Represents, Inv, BoundsOk, BestOk, StackOk;
      var o := Lookup(id);
      if o == NULL {
        return false;
      }
      CancelSlot(o, id);
      return true;
    }

    /** The order's quantity shrinks in place, and its level's total with it. */
    method Shrink(o: nat, quantity: Word64)
      requires Shape() && o < pool.slots.Length && 0 <= pool.slots[o].price < ticks
      requires pool.slots[o].filled + quantity <= pool.slots[o].quantity
      modifies LevelsOf(pool.slots[o].side).levels, pool.slots
      ensures Stored() == DecreasedStore(old(Stored()), old(pool.slots[o].side), old(pool.slots[o].price), o, quantity)
      ensures SamePlaces(old(pool.slots[..]), pool.slots[..])
    {
      var level, p := LevelsOf(pool.slots[o].side), pool.slots[o].price;
      var remaining := pool.slots[o].quantity - pool.slots[o].filled;
      level.levels[p] := level.levels[p].(total := Wrap64(level.levels[p].total - (remaining - quantity)));
      pool.slots[o] := pool.slots[o].(quantity := pool.slots[o].filled + quantity);
    }

    method DecreaseSlot(o: nat, id: Word64, quantity: Word64)
      requires Valid() && IsLocated(o, id) && quantity <= pool.slots[o].Remaining()
      modifies this`model, buys.levels, sells.levels, pool.slots
      ensures Valid() && model == Modify(old(model), id, quantity).state
      ensures SamePlaces(old(pool.slots[..]), pool.slots[..])
    {
      hide Represents, Inv, BoundsOk, BestOk, LadderOk, StackOk, DecreasedStore, SamePlaces, Modify, SlotsOk, TableOk,
           SideOk,
           LeakedFilled, Live, Wrap64;
      ghost var st, m, place := Stored(), model, model.Locate(id);
      Unpack(st, m, multiset{});
      ModifySteps(m, id, quantity);
      Shrink(o, quantity);
      model := Modify(m, id, quantity).state;
      DecreaseRefines(st, m, place.side, place.index, quantity);
      ModifyKeepsInv(m, id, quantity);
    }

    /** `modify_order`: shrink in place, or cancel and add again at the back. The new order's side and price
        are read from the slot that the cancellation has just freed. */
    method ModifyOrder(id: Word64, newQuantity: Word64, now: Word64) returns (slot: int)
      requires Valid()
      modifies Repr()
      ensures Valid()
      ensures var r := Modify(old(model), id, newQuantity);
              model == r.state && slot == r.slot
      ensures reports == old(reports)
      ensures old(AsBoard()).book.Shaped() && AsBoard() == ModifyBoard(old(AsBoard()), id, newQuantity)
    {
      hide Represents, Inv, BoundsOk, BestOk, StackOk, AddBoard, CancelBoard, ModifyBoard, SamePlaces, Modify, Cancel,
           Add;
      ghost var m, b, slots := model, AsBoard(), pool.slots[..];
      Unpack(Stored(), m, multiset{});
      ModifiesAsBoard(b, id, newQuantity);
      ModifySteps(m, id, newQuantity);
      slot := Lookup(id);
      if slot == NULL {
        return;
      }
      var remaining := pool.slots[slot].quantity - pool.slots[slot].filled;
      if newQuantity <= remaining {
        DecreaseSlot(slot, id, newQuantity);
        SamePlacesBytes(slots, pool.slots[..]);
      } else {
        var ok := CancelOrder(id);
        PlaceOf(slots, pool.slots[..], slot);
        slot := AddOrder(OrderMessage(ADD, pool.slots[slot].sideByte, id, 0, pool.slots[slot].price, newQuantity, now));
      }
    }

    /** `order_count`: the slots that are not free, which are the resting orders and the leaked ones. */
    method OrderCount() returns (n: nat)
      requires Valid()
      ensures n == |model.bids| + |model.asks| + |model.leaked|
    {
      hide Inv, BoundsOk, BestOk, StackOk, Live;
      CountSlots(model);
      assert model.free == pool.Free() && |model.table| == pool.capacity by { Unpack(Stored(), model, multiset{}); }
      LiveAndFree(pool.Free(), pool.capacity);
      var available := pool.Available();
      n := pool.capacity - available;
    }
  }
  /** Adding an order that does not cross, and cancelling it again, brings back every stored level of both
      sides, the lists, the free stack and the best bid. The best ask comes back if and only if the side byte
      and the cached best ask before the add are as `BringsBack` says. */
  method AddThenCancelOrder(book: OrderBook, msg: OrderMessage) returns (ok: bool)
    requires book.Valid() && ValidOrder(book.model, IncomingOf(msg)) && book.model.free != []
    requires var opp := book.model.Of(SideOf(msg.side).Opposite());
             opp == [] || !Crosses(SideOf(msg.side), msg.price, opp[0].price)
    modifies book.Repr()
    ensures book.Valid() && ok
    ensures var m := old(book.model);
            m.Shaped() && book.model == m.(clock := m.clock + 1, table := m.table[m.Cell(msg.orderId) := NULL])
    ensures book.buys.levels[..] == old(book.buys.levels[..]) && book.sells.levels[..] == old(book.sells.levels[..])
    ensures book.bestBid == old(book.bestBid)
    ensures book.bestAsk == old(book.bestAsk) <==> BringsBack(old(book.AsBoard()), IncomingOf(msg), msg.side)
  {
    hide OrderBook.Valid, Tracks, AddBoard, CancelBoard, Add, Cancel, BringsBack, AllLevels;
    book.ValidModel();
    book.ValidBoard();
    book.TopOfBook();
    book.LevelArrays(Buy);
    book.LevelArrays(Sell);
    AskBackIff(book.AsBoard(), IncomingOf(msg), msg.side);
    AddedIsFound(book.model, IncomingOf(msg));
    var slot := book.AddOrder(msg);
    ok := book.CancelOrder(msg.orderId);
    book.TopOfBook();
    book.LevelArrays(Buy);
    book.LevelArrays(Sell);
  }

  lemma AddedIsFound(m: State, o: Incoming)
    requires Inv(m) && ValidOrder(m, o) && m.free != []
    requires m.Of(o.side.Opposite()) == [] || !Crosses(o.side, o.price, m.Of(o.side.Opposite())[0].price)
    ensures Cancel(Add(m, o).state, o.id).slot != NULL
  {
    hide Add, Insert;
    var k := AddedIsLocated(m, o);
  }

  /** A run that leaves the best ask wrong, on any book, at any price: an order whose side byte is neither Buy
      nor Sell is added, and cancelled. Nothing rests, and the best ask is still its price. */
  method StrandedAsk(capacity: nat, ticks: nat, msg: OrderMessage) returns (book: OrderBook)
    requires 0 < capacity && ticks < TWO63 && msg.side > SELL && 0 <= msg.price < ticks && msg.quantity > 0
    ensures fresh(book) && book.Valid() && book.model.bids == book.model.asks == []
    ensures book.bestAsk == msg.price && !book.AskExact()
  {
    hide OrderBook.Valid, OrderBook.AskExact, Tracks, AddBoard, CancelBoard, Add, Cancel;
    book := new OrderBook(capacity, ticks);
    ghost var b := book.AsBoard();
    book.ValidBoard();
    BackParts(b, IncomingOf(msg), msg.side);
    var slot := book.AddOrder(msg);
    var ok := book.CancelOrder(msg.orderId);
    book.ValidBoard();
  }
}
