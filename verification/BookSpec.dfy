/** The reference order book: two sorted lists of resting orders, the id table, the free-slot stack,
    and the running counters. The class in `Book` is proved to move exactly as these functions do. */
module BookSpec {
  import opened Types
  import opened Matcher

  /** `leaked` are the slots of fully filled aggressors, which no operation gives back.
      `bidExcess[p]` is how far the cached total of bid level `p` runs above the true one. */
  datatype State = State(
    bids: seq<Entry>, asks: seq<Entry>,
    table: seq<int>, free: seq<nat>, leaked: set<nat>,
    bidExcess: seq<nat>, askExcess: seq<nat>,
    clock: nat, matchCount: Word64, volume: Word64)
  {
    predicate Shaped() {
      |table| > 0 && |bidExcess| == |askExcess|
    }

    function Of(side: Side): seq<Entry> {
      if side.Buy? then bids else asks
    }

    function With(side: Side, list: seq<Entry>): State {
      if side.Buy? then this.(bids := list) else this.(asks := list)
    }

    function Excess(side: Side): seq<nat> {
      if side.Buy? then bidExcess else askExcess
    }

    function AddExcess(side: Side, price: int, n: nat): (s: State)
      ensures |s.bidExcess| == |bidExcess| && |s.askExcess| == |askExcess|
    {
      if !(0 <= price < |Excess(side)|) then this
      else if side.Buy? then this.(bidExcess := bidExcess[price := bidExcess[price] + n])
      else this.(askExcess := askExcess[price := askExcess[price] + n])
    }

    function Cell(id: Word64): nat
      requires Shaped()
    {
      id % |table|
    }

    /** The order an id refers to, if the id table leads to a resting order carrying that id. */
    function Locate(id: Word64): (place: Place)
      requires Shaped()
      ensures place.At? ==> place.index < |Of(place.side)| && Of(place.side)[place.index].id == id &&
                            Of(place.side)[place.index].slot == table[id % |table|]
    {
      var b := Find(bids, table[Cell(id)]);
      var a := Find(asks, table[Cell(id)]);
      if b >= 0 && bids[b].id == id then At(Buy, b)
      else if a >= 0 && asks[a].id == id then At(Sell, a)
      else Nowhere
    }
  }

  datatype Place = Nowhere | At(side: Side, index: nat)

  /** A limit order on its way in. */
  datatype Incoming = Incoming(id: Word64, side: Side, price: int, quantity: Word64)

  function IncomingOf(m: OrderMessage): Incoming {
    Incoming(m.orderId, SideOf(m.side), m.price, m.quantity)
  }

  /** The next state, the trades made, and the slot the operation returned (NULL when it failed). */
  datatype Result = Result(state: State, fills: seq<Fill>, slot: int)

  datatype Op = AddOp(order: Incoming) | CancelOp(id: Word64) | ModifyOp(id: Word64, quantity: Word64)

  function Slots(list: seq<Entry>): (slots: seq<nat>)
  {
    seq(|list|, i requires 0 <= i < |list| => list[i].slot)
  }

  function Find(list: seq<Entry>, slot: int): (i: int)
    ensures -1 <= i < |list|
    ensures i >= 0 ==> list[i].slot == slot
    ensures i < 0 ==> forall j :: 0 <= j < |list| ==> list[j].slot != slot
  {
    if list == [] then -1
    else
      var last := |list| - 1;
      if list[last].slot == slot then last else Find(list[..last], slot)
  }

  /** How many orders are served before a newcomer at `price`. */
  function Rank(side: Side, list: seq<Entry>, price: int): (k: nat)
    ensures k <= |list|
    ensures forall i :: 0 <= i < k ==> NoWorse(side, list[i].price, price)
    ensures k < |list| ==> !NoWorse(side, list[k].price, price)
  {
    if list == [] || !NoWorse(side, list[0].price, price) then 0
    else 1 + Rank(side, list[1..], price)
  }

  function Insert(side: Side, list: seq<Entry>, e: Entry): seq<Entry> {
    var k := Rank(side, list, e.price);
    list[..k] + [e] + list[k..]
  }

  /** Slots given back by the fills, in order. */
  function Retired(fills: seq<Fill>): seq<nat> {
    if fills == [] then []
    else (if fills[0].done then [fills[0].slot] else []) + Retired(fills[1..])
  }

  /** The id table after each retired order has emptied the cell its id hashes to. */
  function Unindexed(table: seq<int>, fills: seq<Fill>): (t: seq<int>)
    requires |table| > 0
    ensures |t| == |table|
    decreases |fills|
  {
    if fills == [] then table
    else Unindexed(if fills[0].done then table[fills[0].id % |table| := NULL] else table, fills[1..])
  }

  /** The book after an aggressor on `side` made these fills and left `book` opposite. */
  function Absorb(s: State, side: Side, fills: seq<Fill>, book: seq<Entry>): (t: State)
    requires s.Shaped()
    ensures t.Shaped() && |t.table| == |s.table|
  {
    s.With(side.Opposite(), book).(
    free := s.free + Retired(fills),
    table := Unindexed(s.table, fills),
    matchCount := Wrap64(s.matchCount + |fills|),
    volume := Wrap64(s.volume + Traded(fills)))
  }

  /** What is left of an aggressor joins the back of its own price. */
  function Rest(s: State, slot: nat, o: Incoming, left: nat): (t: State)
    requires s.Shaped() && left <= o.quantity
    ensures t.Shaped() && |t.table| == |s.table|
  {
    s.With(o.side, Insert(o.side, s.Of(o.side), Entry(slot, o.id, o.price, left, s.clock)))
    .AddExcess(o.side, o.price, o.quantity - left).(clock := s.clock + 1)
  }

  function Allocate(s: State, id: Word64): (t: State)
    requires s.Shaped() && s.free != []
    ensures t.Shaped() && |t.table| == |s.table|
  {
    s.(free := s.free[..|s.free| - 1], table := s.table[s.Cell(id) := s.free[|s.free| - 1]])
  }

  function Add(s: State, o: Incoming): (r: Result)
    requires s.Shaped()
    ensures r.state.Shaped() && |r.state.table| == |s.table|
  {
    if s.free == [] then Result(s, [], NULL)
    else
      var slot := s.free[|s.free| - 1];
      var m := Match(o.side, o.price, o.quantity, s.Of(o.side.Opposite()));
      var t := Absorb(Allocate(s, o.id), o.side, m.fills, m.book);
      Result(if m.left > 0 then Rest(t, slot, o, m.left) else t.(leaked := t.leaked + {slot}),
             m.fills, slot)
  }

  function Cancel(s: State, id: Word64): (r: Result)
    requires s.Shaped()
    ensures r.state.Shaped() && |r.state.table| == |s.table|
  {
    match s.Locate(id)
    case Nowhere => Result(s, [], NULL)
    case At(side, i) =>
      var slot := s.Of(side)[i].slot;
      Result(s.With(side, Without<Entry>(s.Of(side), i)).(
             table := s.table[s.Cell(id) := NULL], free := s.free + [slot]),
             [], slot)
  }

  function Modify(s: State, id: Word64, quantity: Word64): (r: Result)
    requires s.Shaped()
    ensures r.state.Shaped() && |r.state.table| == |s.table|
  {
    match s.Locate(id)
    case Nowhere => Result(s, [], NULL)
    case At(side, i) =>
      var e := s.Of(side)[i];
      if quantity <= e.remaining then
        Result(s.With(side, s.Of(side)[i := e.(remaining := quantity)]), [], e.slot)
      else
        Add(Cancel(s, id).state, Incoming(id, side, e.price, quantity))
  }

  function Step(s: State, op: Op): (r: Result)
    requires s.Shaped()
    ensures r.state.Shaped() && |r.state.table| == |s.table|
  {
    match op
    case AddOp(order) => Add(s, order)
    case CancelOp(id) => Cancel(s, id)
    case ModifyOp(id, quantity) => Modify(s, id, quantity)
  }

  /** Best price of a side, INVALID_PRICE when it is empty. */
  function Best(list: seq<Entry>): int {
    if list == [] then INVALID_PRICE else list[0].price
  }

  /** Total remaining quantity resting at one price. */
  function DepthAt(list: seq<Entry>, price: int): nat {
    if list == [] then 0
    else (if list[0].price == price then list[0].remaining else 0) + DepthAt(list[1..], price)
  }

  /** The report of one fill made by aggressor `id` on `side`. */
  function ReportOf(side: Side, id: Word64, f: Fill): TradeReport {
    if side.Buy? then TradeReport(id, f.id, f.price, f.quantity) else TradeReport(f.id, id, f.price, f.quantity)
  }

  function ReportsOf(side: Side, id: Word64, fills: seq<Fill>): seq<TradeReport> {
    seq(|fills|, i requires 0 <= i < |fills| => ReportOf(side, id, fills[i]))
  }

  // ----- The invariant of the reference book

  /** Conservation of slots: every slot of the pool is in exactly one place. `pending` is the slot
      of an aggressor that is still matching. */
  ghost predicate SlotsOk(s: State, pending: multiset<nat>) {
    multiset(Slots(s.bids)) + multiset(Slots(s.asks)) + multiset(s.free) + multiset(s.leaked) + pending
    == multiset(AllSlots(|s.table|))
  }

  /** No cell of the id table refers to a free slot. */
  ghost predicate NoDangling(table: seq<int>, free: seq<nat>) {
    forall k :: 0 <= k < |table| ==> table[k] == NULL || (0 <= table[k] < |table| && table[k] !in free)
  }

  /** A listed order is referred to only from the cell its own id hashes to. */
  ghost predicate OwnCell(table: seq<int>, list: seq<Entry>)
    requires |table| > 0
  {
    forall i, k :: 0 <= i < |list| && 0 <= k < |table| && table[k] == list[i].slot ==> k == list[i].id % |table|
  }

  ghost predicate TableOk(s: State)
    requires s.Shaped()
  {
    NoDangling(s.table, s.free) && OwnCell(s.table, s.bids) && OwnCell(s.table, s.asks)
  }

  ghost predicate ListOk(side: Side, list: seq<Entry>, ticks: nat, clock: nat) {
    && Sorted(side, list)
    && forall i :: 0 <= i < |list| ==> 0 <= list[i].price < ticks && list[i].stamp < clock
  }

  ghost predicate Uncrossed(bids: seq<Entry>, asks: seq<Entry>) {
    forall i, j :: 0 <= i < |bids| && 0 <= j < |asks| ==> bids[i].price < asks[j].price
  }

  ghost predicate Inv(s: State) {
    && s.Shaped()
    && SlotsOk(s, multiset{})
    && TableOk(s)
    && ListOk(Buy, s.bids, |s.bidExcess|, s.clock)
    && ListOk(Sell, s.asks, |s.askExcess|, s.clock)
    && Uncrossed(s.bids, s.asks)
  }

  /** What `add_order` asserts of its caller. */
  predicate ValidOrder(s: State, o: Incoming) {
    0 <= o.price < |s.bidExcess| && o.quantity > 0
  }

  predicate ValidOp(s: State, op: Op) {
    op.AddOp? ==> ValidOrder(s, op.order)
  }
}
