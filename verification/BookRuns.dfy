/** Runs that break what the repository's tests and comments expect, on a book of any size, at any price. */
module BookRuns {
  import opened Types
  import opened Matcher
  import opened BookSpec
  import opened BookInvariant
  import opened BookIdentities
  import opened BookAccounting

  lemma RunTwo(s: State, a: Op, b: Op)
    requires s.Shaped()
    ensures Run(s, [a, b]) == Step(Step(s, a).state, b).state
  {
    assert [a, b][1..] == [b] && [b][1..] == [];
    assert Run(Step(s, a).state, [b]) == Step(Step(s, a).state, b).state;
  }

  /** The first order of an empty book rests in slot 0; slot 1 is next. */
  lemma FirstAdd(capacity: nat, ticks: nat, o: Incoming) returns (u: State)
    requires capacity > 0 && ValidOrder(Empty(capacity, ticks), o)
    ensures u == Add(Empty(capacity, ticks), o).state && Inv(u) && |u.table| == capacity && u.clock == 1
    ensures u.Of(o.side) == [Entry(0, o.id, o.price, o.quantity, 0)] && u.Of(o.side.Opposite()) == []
    ensures u.bidExcess == u.askExcess == seq(ticks, _ => 0)
    ensures |u.free| == capacity - 1 && (capacity > 1 ==> u.free[|u.free| - 1] == 1)
    ensures u.table[u.Cell(o.id)] == 0
  {
    var s := Empty(capacity, ticks);
    u := Add(s, o).state;
    EmptyInv(capacity, ticks);
    AddKeepsInv(s, o);
    NoTradeAdd(s, o);
  }

  /** The two orders of tests/test_order_book.cpp:76-87, where 3 meets 7, in general: a sell of `a` and then a
      larger buy of `b`. The test expects the buy level's total to be `b - a`. That is what rests; the total
      says `b`. */
  lemma PartialFillOverstatesLevel(capacity: nat, ticks: nat, sell: Incoming, buy: Incoming)
    requires capacity > 1 && ValidOrder(Empty(capacity, ticks), sell)
    requires sell.side == Sell && buy.side == Buy && buy.price == sell.price && buy.quantity > sell.quantity
    ensures var t := Run(Empty(capacity, ticks), [AddOp(sell), AddOp(buy)]);
            && |t.bidExcess| == ticks && DepthAt(t.bids, buy.price) == buy.quantity - sell.quantity
            && CachedTotal(t, Buy, buy.price) == buy.quantity
  {
    var u := FirstAdd(capacity, ticks, sell);
    RunTwo(Empty(capacity, ticks), AddOp(sell), AddOp(buy));
    hide Inv, Match, Retired, Unindexed, Traded;
    OneFilled(sell, buy, u.asks[0], u.asks);
    var t := Add(u, buy).state;
    OnlyBid(t, Entry(1, buy.id, buy.price, buy.quantity - sell.quantity, 1), sell.quantity);
  }

  lemma OnlyBid(t: State, e: Entry, excess: nat)
    requires t.bids == [e] && 0 <= e.price < |t.bidExcess| && t.bidExcess[e.price] == excess
    requires e.remaining + excess < TWO64
    ensures DepthAt(t.bids, e.price) == e.remaining && CachedTotal(t, Buy, e.price) == e.remaining + excess
  {
    assert t.bids[1..] == [];
  }

  /** A match against a single order that it consumes. */
  lemma OneFilled(sell: Incoming, buy: Incoming, e: Entry, asks: seq<Entry>)
    requires sell.quantity > 0 && asks == [e] && e.remaining == sell.quantity <= buy.quantity && e.price == buy.price
    ensures var m := Match(Buy, buy.price, buy.quantity, asks);
            && m.fills == [FillOf(e, e.remaining)] && m.book == [] && m.left == buy.quantity - sell.quantity
            && Retired(m.fills) == [e.slot] && Traded(m.fills) == sell.quantity
  {
    assert asks[1..] == [];
    var left: nat := buy.quantity - sell.quantity;
    assert Match(Buy, buy.price, left, []) == Outcome([], [], left);
    assert [FillOf(e, e.remaining)] + [] == [FillOf(e, e.remaining)];
    assert [FillOf(e, e.remaining)][1..] == [];
  }

  /** The two orders of tests/test_order_book.cpp:56-71 in general: a sell and a buy of the same quantity. The
      test expects no order to be left. None rests, but one slot stays in use. */
  lemma FullFillKeepsSlot(capacity: nat, ticks: nat, sell: Incoming, buy: Incoming)
    requires capacity > 1 && ValidOrder(Empty(capacity, ticks), sell)
    requires sell.side == Sell && buy.side == Buy && buy.price == sell.price && buy.quantity == sell.quantity
    ensures var t := Run(Empty(capacity, ticks), [AddOp(sell), AddOp(buy)]);
            t.bids == [] && t.asks == [] && |t.table| - |t.free| == 1
  {
    var u := FirstAdd(capacity, ticks, sell);
    RunTwo(Empty(capacity, ticks), AddOp(sell), AddOp(buy));
    OneFilled(sell, buy, u.asks[0], u.asks);
  }

  /** The second order of a book, on the side of the first. */
  lemma SecondAdd(capacity: nat, ticks: nat, a: Incoming, b: Incoming) returns (t: State)
    requires capacity > 1 && ValidOrder(Empty(capacity, ticks), a) && ValidOrder(Empty(capacity, ticks), b)
    requires a.side == b.side
    ensures t == Run(Empty(capacity, ticks), [AddOp(a), AddOp(b)]) && Inv(t) && |t.table| == capacity
    ensures t.Of(a.side) == Insert(a.side, [Entry(0, a.id, a.price, a.quantity, 0)],
              Entry(1, b.id, b.price, b.quantity, 1))
    ensures t.Of(a.side.Opposite()) == []
    ensures t.table[t.Cell(b.id)] == 1 && (t.Cell(a.id) != t.Cell(b.id) ==> t.table[t.Cell(a.id)] == 0)
  {
    hide Inv, Insert;
    var u := FirstAdd(capacity, ticks, a);
    RunTwo(Empty(capacity, ticks), AddOp(a), AddOp(b));
    NoTradeAdd(u, b);
    AddKeepsInv(u, b);
    t := Add(u, b).state;
  }

  lemma InsertSecond(side: Side, e: Entry, f: Entry)
    ensures Insert(side, [e], f) == if NoWorse(side, e.price, f.price) then [e, f] else [f, e]
  {
    assert [e][1..] == [];
    assert Rank(side, [e][1..], f.price) == 0;
  }

  /** Two ids that share a cell of the table, on one side: both orders rest, but the first one's id finds nothing. */
  lemma SharedCellLosesOrder(capacity: nat, ticks: nat, a: Incoming, b: Incoming)
    requires capacity > 1 && ValidOrder(Empty(capacity, ticks), a) && ValidOrder(Empty(capacity, ticks), b)
    requires a.side == b.side && a.id != b.id && a.id % capacity == b.id % capacity
    ensures var t := Run(Empty(capacity, ticks), [AddOp(a), AddOp(b)]);
            && (exists i :: 0 <= i < |t.Of(a.side)| && t.Of(a.side)[i] == Entry(0, a.id, a.price, a.quantity, 0))
            && t.Locate(a.id) == Nowhere
  {
    hide Insert, Uncrossed, ListOk, TableOk;
    var t := SecondAdd(capacity, ticks, a, b);
    var e, f := Entry(0, a.id, a.price, a.quantity, 0), Entry(1, b.id, b.price, b.quantity, 1);
    InsertSecond(a.side, e, f);
    var k := if NoWorse(a.side, e.price, f.price) then 1 else 0;
    assert t.Of(a.side)[k] == f && t.Of(a.side)[1 - k] == e;
    LocateIs(t, a.id, a.side, k);
  }

  /** include/order_book.hpp:75 has a modification preserve time priority. Of two orders at one price, the
      first goes behind the second when its quantity grows. */
  lemma IncreaseLosesPlace(capacity: nat, ticks: nat, a: Incoming, b: Incoming, quantity: Word64)
    requires capacity > 1 && ValidOrder(Empty(capacity, ticks), a) && ValidOrder(Empty(capacity, ticks), b)
    requires a.side == b.side && a.price == b.price && a.id % capacity != b.id % capacity && quantity > a.quantity
    ensures var t := Run(Empty(capacity, ticks), [AddOp(a), AddOp(b)]);
            && Slots(t.Of(a.side)) == [0, 1]
            && Slots(Modify(t, a.id, quantity).state.Of(a.side)) == [1, 0]
  {
    hide Insert, Uncrossed, ListOk, TableOk, Modify;
    var t := SecondAdd(capacity, ticks, a, b);
    var e, f := Entry(0, a.id, a.price, a.quantity, 0), Entry(1, b.id, b.price, b.quantity, 1);
    InsertSecond(a.side, e, f);
    LocateIs(t, a.id, a.side, 0);
    GoesBehind(t, a.side, e, f, quantity);
  }

  lemma GoesBehind(t: State, side: Side, e: Entry, f: Entry, quantity: Word64)
    requires Inv(t) && t.Of(side) == [e, f] && e.price == f.price && t.Locate(e.id) == At(side, 0)
    requires quantity > e.remaining
    ensures Slots(Modify(t, e.id, quantity).state.Of(side)) == [f.slot, e.slot]
  {
    hide Inv, Insert, Modify, Find;
    IncreaseState(t, e.id, quantity);
    assert Without<Entry>(t.Of(side), 0) == [f];
    InsertSecond(side, f, e.(remaining := quantity, stamp := t.clock));
  }
}
