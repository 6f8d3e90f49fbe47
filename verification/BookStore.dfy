/** The stored form of a book as one value, what it means for it to represent a reference book, and
    why each change the matching code makes to it is a change of the reference book. */
module BookStore {
  import opened Types
  import opened Matcher
  import opened BookSpec
  import opened BookInvariant
  import opened Levels
  import opened Ladder

  datatype Store = Store(
    slots: seq<Order>, free: seq<nat>, table: seq<int>,
    buyLevels: seq<LimitLevel>, sellLevels: seq<LimitLevel>,
    buyQueues: seq<seq<nat>>, sellQueues: seq<seq<nat>>)
  {
    function Levels(side: Side): seq<LimitLevel> {
      if side.Buy? then buyLevels else sellLevels
    }

    function Queues(side: Side): seq<seq<nat>> {
      if side.Buy? then buyQueues else sellQueues
    }

    function With(side: Side, levels: seq<LimitLevel>, queues: seq<seq<nat>>): Store {
      if side.Buy? then this.(buyLevels := levels, buyQueues := queues)
      else this.(sellLevels := levels, sellQueues := queues)
    }
  }

  /** One side: well-linked levels, whose queues read best-first are the reference list. */
  ghost predicate SideOk(side: Side, st: Store, m: State) {
    && LadderOk(side, st.slots, st.Levels(side), st.Queues(side), m.Excess(side))
    && Shows(side, st.slots, st.Queues(side), m.Of(side))
  }

  ghost predicate LeakedFilled(s: seq<Order>, leaked: set<nat>) {
    forall x :: x in leaked ==> x < |s| && s[x].status == Filled
  }

  /** `pending` holds the slot of an aggressor that is neither resting nor finished. */
  ghost predicate Represents(st: Store, m: State, pending: multiset<nat>) {
    && m.Shaped()
    && |st.slots| == |st.table| == |m.table|
    && st.free == m.free && st.table == m.table
    && SideOk(Buy, st, m) && SideOk(Sell, st, m)
    && LeakedFilled(st.slots, m.leaked)
    && SlotsOk(m, pending) && TableOk(m)
  }

  /** The slots outside `changed` hold the same orders, up to their links. */
  ghost predicate SameOrders(s: seq<Order>, t: seq<Order>, changed: set<nat>) {
    && |s| == |t|
    && forall x: nat :: x < |s| && x !in changed ==> t[x] == s[x].(next := t[x].next, prev := t[x].prev)
  }

  lemma DisplaysFrame(side: Side, s: seq<Order>, t: seq<Order>, list: seq<Entry>, changed: set<nat>)
    requires Displays(side, s, list) && SameOrders(s, t, changed)
    requires forall i :: 0 <= i < |list| ==> list[i].slot !in changed
    ensures Displays(side, t, list)
  {
    forall i | 0 <= i < |list|
      ensures list[i].slot < |t| && Shown(side, t[list[i].slot], list[i])
    {
      assert Shown(side, s[list[i].slot], list[i]);
    }
  }

  /** A side is untouched by changes to orders of the other side and to a slot that is not on it. */
  lemma SideFrame(side: Side, st: Store, t: Store, m: State, m': State, x: nat)
    requires SideOk(side, st, m) && |st.slots| == |t.slots|
    requires t.Levels(side) == st.Levels(side) && t.Queues(side) == st.Queues(side)
    requires m'.Of(side) == m.Of(side) && m'.Excess(side) == m.Excess(side)
    requires forall y :: 0 <= y < |st.slots| && y != x && st.slots[y].side == side ==> t.slots[y] == st.slots[y]
    requires forall r, i :: 0 <= r < |st.Queues(side)| && 0 <= i < |st.Queues(side)[r]| ==> st.Queues(side)[r][i] != x
    requires forall i :: 0 <= i < |m.Of(side)| ==> m.Of(side)[i].slot != x
    ensures SideOk(side, t, m')
  {
    assert LadderOk(side, t.slots, t.Levels(side), t.Queues(side), m'.Excess(side)) by {
      forall p, i | 0 <= p < |st.Queues(side)| && 0 <= i < |st.Queues(side)[p]|
        ensures st.Queues(side)[p][i] < |st.slots| && t.slots[st.Queues(side)[p][i]] == st.slots[st.Queues(side)[p][i]]
      {
        assert LevelOk(side, st.slots, p, st.Levels(side)[p], st.Queues(side)[p], m.Excess(side)[p]);
      }
      LadderFrame(side, st.slots, t.slots, st.Levels(side), st.Queues(side), m.Excess(side));
    }
    forall i | 0 <= i < |m.Of(side)|
      ensures m.Of(side)[i].slot < |t.slots| && Shown(side, t.slots[m.Of(side)[i].slot], m.Of(side)[i])
    {
      assert Shown(side, st.slots[m.Of(side)[i].slot], m.Of(side)[i]);
    }
  }

  // ----- One fill

  /** The reference book after the front opposite order gave `qty` to an aggressor on `side`. */
  ghost function FillStep(m: State, side: Side, qty: nat): (t: State)
    requires m.Shaped() && m.Of(side.Opposite()) != [] && qty <= m.Of(side.Opposite())[0].remaining
    ensures t.Shaped() && |t.table| == |m.table|
  {
    var list := m.Of(side.Opposite());
    var e := list[0];
    Absorb(m, side, [FillOf(e, qty)],
           if qty == e.remaining then list[1..] else [e.(remaining := e.remaining - qty)] + list[1..])
  }

  lemma FillStepParts(m: State, side: Side, qty: nat)
    requires m.Shaped() && m.Of(side.Opposite()) != [] && qty <= m.Of(side.Opposite())[0].remaining
    ensures var list, t := m.Of(side.Opposite()), FillStep(m, side, qty);
            var e := list[0];
            && t.Of(side) == m.Of(side) && t.leaked == m.leaked && t.clock == m.clock
            && t.bidExcess == m.bidExcess && t.askExcess == m.askExcess
            && t.matchCount == Wrap64(m.matchCount + 1) && t.volume == Wrap64(m.volume + qty)
            && (if qty == e.remaining then
                  t.Of(side.Opposite()) == list[1..] && t.free == m.free + [e.slot] &&
                  t.table == m.table[m.Cell(e.id) := NULL]
                else
                  t.Of(side.Opposite()) == [e.(remaining := e.remaining - qty)] + list[1..] &&
                  t.free == m.free && t.table == m.table)
  {
    OneFill(FillOf(m.Of(side.Opposite())[0], qty), m.table, m.free);
  }

  lemma OneFill(f: Fill, table: seq<int>, free: seq<nat>)
    requires |table| > 0
    ensures Traded([f]) == f.quantity
    ensures free + Retired([f]) == if f.done then free + [f.slot] else free
    ensures Unindexed(table, [f]) == if f.done then table[f.id % |table| := NULL] else table
  {
    assert [f][1..] == [];
    assert Unindexed(table, []) == table;
    var table1 := if f.done then table[f.id % |table| := NULL] else table;
    assert Unindexed(table1, [f][1..]) == table1;
  }

  lemma FillStepSlots(m: State, side: Side, qty: nat, pending: multiset<nat>)
    requires m.Shaped() && m.Of(side.Opposite()) != [] && qty <= m.Of(side.Opposite())[0].remaining
    requires SlotsOk(m, pending) && TableOk(m)
    ensures SlotsOk(FillStep(m, side, qty), pending) && TableOk(FillStep(m, side, qty))
  {
    hide FillStep, NoDangling, OwnCell, Fresh;
    var list, t := m.Of(side.Opposite()), FillStep(m, side, qty);
    FillStepParts(m, side, qty);
    OwnCellEitherWay(m, side);
    if qty == list[0].remaining {
      SlotsHead(list);
      ListedFresh(m, pending, side.Opposite());
      RetireHead(list, m.table, m.free);
      ClearedOwnCell(m.table, m.Of(side), m.Cell(list[0].id));
    } else {
      SlotsReduced(list, list[0].remaining - qty);
      ReducedOwnCell(m.table, list, list[0].remaining - qty);
    }
    OwnCellEitherWay(t, side);
  }

  lemma ClearedOwnCell(table: seq<int>, list: seq<Entry>, k: nat)
    requires k < |table| && OwnCell(table, list)
    ensures OwnCell(table[k := NULL], list)
  {
  }

  lemma ReducedOwnCell(table: seq<int>, list: seq<Entry>, remaining: nat)
    requires |table| > 0 && list != [] && OwnCell(table, list)
    ensures OwnCell(table, [list[0].(remaining := remaining)] + list[1..])
  {
  }

  /** Removing the order of list entry `i` from its queue shows the list without that entry. */
  lemma RemovalShows(side: Side, st: Store, m: State, pending: multiset<nat>, i: nat, k: nat, t: seq<Order>,
                     changed: set<nat>)
    requires Represents(st, m, pending) && i < |m.Of(side)|
    requires var e := m.Of(side)[i];
             0 <= e.price < |st.Queues(side)| && k < |st.Queues(side)[e.price]| && st.Queues(side)[e.price][k] == e.slot
    requires SameOrders(st.slots, t, changed)
    requires forall j :: 0 <= j < |m.Of(side)| && j != i ==> m.Of(side)[j].slot !in changed
    ensures var e, queues := m.Of(side)[i], st.Queues(side);
            Shows(side, t, queues[e.price := Without<nat>(queues[e.price], k)], Without<Entry>(m.Of(side), i))
  {
    hide Represents, SlotsOk, TableOk, LeakedFilled;
    Unpack(st, m, pending);
    var p := m.Of(side)[i].price;
    LadderPriced(side, st.slots, st.Levels(side), st.Queues(side), m.Excess(side));
    var k' := StoredAt(side, st.slots, st.Queues(side), m.Of(side), i);
    assert LevelOk(side, st.slots, p, st.Levels(side)[p], st.Queues(side)[p], m.Excess(side)[p]);
    assert k' == k;
    assert Displays(side, t, Without<Entry>(m.Of(side), i)) by {
      hide SlotsOk, TableOk, LevelOk, LeakedFilled, Flat, Shown;
      DisplaysFrame(side, st.slots, t, Without<Entry>(m.Of(side), i), changed);
    }
  }

  /** A pending slot is not listed, leaked or free. */
  lemma PendingNotListed(m: State, pending: multiset<nat>, x: nat)
    requires SlotsOk(m, pending) && x in pending
    ensures x < |m.table| && x !in m.leaked && x !in m.free
    ensures forall side, i :: 0 <= i < |m.Of(side)| ==> m.Of(side)[i].slot != x
  {
    assert multiset(AllSlots(|m.table|))[x] <= 1;
    forall side: Side, i | 0 <= i < |m.Of(side)|
      ensures m.Of(side)[i].slot != x
    {
      assert Slots(m.Of(side))[i] in multiset(Slots(m.Of(side)));
    }
  }

  /** A pending order is in no queue. */
  lemma PendingNotQueued(side: Side, st: Store, m: State, pending: multiset<nat>, x: nat)
    requires SideOk(side, st, m) && SlotsOk(m, pending) && x in pending
    ensures forall r, i :: 0 <= r < |st.Queues(side)| && 0 <= i < |st.Queues(side)[r]| ==> st.Queues(side)[r][i] != x
  {
    PendingNotListed(m, pending, x);
    forall r, i | 0 <= r < |st.Queues(side)| && 0 <= i < |st.Queues(side)[r]|
      ensures st.Queues(side)[r][i] != x
    {
      FlatSplit(side, st.Queues(side), r, []);
      assert st.Queues(side)[r][i] in Flat(side, st.Queues(side));
    }
  }

  lemma LeakedFrame(s: seq<Order>, t: seq<Order>, leaked: set<nat>, changed: set<nat>)
    requires LeakedFilled(s, leaked) && SameOrders(s, t, changed) && leaked !! changed
    ensures LeakedFilled(t, leaked)
  {
  }

  /** What `fill` does to the stored book, for an aggressor in slot `agg`. */
  ghost predicate Filling(st: Store, t: Store, m: State, side: Side, agg: nat, qty: nat) {
    && m.Of(side.Opposite()) != [] && m.Shaped() && |st.table| == |m.table|
    && var opp := side.Opposite();
       var e := m.Of(opp)[0];
       && qty <= e.remaining && |st.slots| == |t.slots| && e.slot < |st.slots|
       && 0 <= e.price < |st.Queues(opp)| && st.Queues(opp)[e.price] != [] && st.Queues(opp)[e.price][0] == e.slot
       && t.Levels(side) == st.Levels(side) && t.Queues(side) == st.Queues(side)
       && LadderOk(opp, t.slots, t.Levels(opp), t.Queues(opp), m.Excess(opp))
       && SameOrders(st.slots, t.slots, {e.slot, agg})
       && (forall x :: 0 <= x < |st.slots| && x != agg && st.slots[x].side == side ==> t.slots[x] == st.slots[x])
       && (if qty == e.remaining then
             && t.Queues(opp) == st.Queues(opp)[e.price := Without<nat>(st.Queues(opp)[e.price], 0)]
             && t.free == st.free + [e.slot] && t.table == st.table[m.Cell(e.id) := NULL]
           else
             && t.Queues(opp) == st.Queues(opp) && t.free == st.free && t.table == st.table
             && Reduced(st.slots, t.slots, e.slot, qty) && t.slots[e.slot].Resting())
  }

  lemma Unpack(st: Store, m: State, pending: multiset<nat>)
    requires Represents(st, m, pending)
    ensures m.Shaped() && SlotsOk(m, pending) && TableOk(m) && |st.slots| == |st.table| == |m.table|
    ensures st.free == m.free && st.table == m.table && |st.buyLevels| == |m.bidExcess|
    ensures SideOk(Buy, st, m) && SideOk(Sell, st, m) && LeakedFilled(st.slots, m.leaked)
  {
  }

  lemma FillingShowsRetired(st: Store, t: Store, m: State, side: Side, agg: nat, qty: nat)
    requires Represents(st, m, multiset{agg}) && Filling(st, t, m, side, agg, qty)
    requires qty == m.Of(side.Opposite())[0].remaining
    ensures Shows(side.Opposite(), t.slots, t.Queues(side.Opposite()), m.Of(side.Opposite())[1..])
  {
    hide Represents, Shows;
    var opp, list := side.Opposite(), m.Of(side.Opposite());
    assert m.Shaped() && SlotsOk(m, multiset{agg}) by { Unpack(st, m, multiset{agg}); }
    ListedOnce(m, multiset{agg}, opp, 0);
    PendingNotListed(m, multiset{agg}, agg);
    RemovalShows(opp, st, m, multiset{agg}, 0, 0, t.slots, {list[0].slot, agg});
    assert Without<Entry>(list, 0) == list[1..];
  }

  lemma ReducedDisplays(side: Side, s: seq<Order>, t: seq<Order>, list: seq<Entry>, agg: nat, qty: nat)
    requires list != [] && Displays(side, s, list) && qty <= list[0].remaining
    requires SameOrders(s, t, {list[0].slot, agg}) && Reduced(s, t, list[0].slot, qty) && t[list[0].slot].Resting()
    requires forall i :: 0 <= i < |list| ==> list[i].slot != agg && (list[i].slot == list[0].slot ==> i == 0)
    ensures var list' := [list[0].(remaining := list[0].remaining - qty)] + list[1..];
            Displays(side, t, list') && Slots(list') == Slots(list)
  {
    assert Shown(side, s[list[0].slot], list[0]);
    assert forall i :: 0 <= i < |list[1..]| ==> list[1..][i] == list[i + 1];
    DisplaysFrame(side, s, t, list[1..], {list[0].slot, agg});
  }

  lemma FillingShowsReduced(st: Store, t: Store, m: State, side: Side, agg: nat, qty: nat)
    requires Represents(st, m, multiset{agg}) && Filling(st, t, m, side, agg, qty)
    requires qty < m.Of(side.Opposite())[0].remaining
    ensures var list := m.Of(side.Opposite());
            Shows(side.Opposite(), t.slots, t.Queues(side.Opposite()),
              [list[0].(remaining := list[0].remaining - qty)] + list[1..])
  {
    hide LadderOk, TableOk, SlotsOk, LeakedFilled, Displays;
    var opp, list := side.Opposite(), m.Of(side.Opposite());
    ListedOnce(m, multiset{agg}, opp, 0);
    PendingNotListed(m, multiset{agg}, agg);
    ReducedDisplays(opp, st.slots, t.slots, list, agg, qty);
  }

  lemma FillingOppSide(st: Store, t: Store, m: State, side: Side, agg: nat, qty: nat)
    requires Represents(st, m, multiset{agg}) && Filling(st, t, m, side, agg, qty)
    ensures SideOk(side.Opposite(), t, FillStep(m, side, qty))
  {
    FillStepParts(m, side, qty);
    if qty == m.Of(side.Opposite())[0].remaining {
      FillingShowsRetired(st, t, m, side, agg, qty);
    } else {
      FillingShowsReduced(st, t, m, side, agg, qty);
    }
  }

  lemma FillingOwnSide(st: Store, t: Store, m: State, side: Side, agg: nat, qty: nat)
    requires Represents(st, m, multiset{agg}) && Filling(st, t, m, side, agg, qty)
    ensures SideOk(side, t, m)
  {
    PendingNotQueued(side, st, m, multiset{agg}, agg);
    PendingNotListed(m, multiset{agg}, agg);
    SideFrame(side, st, t, m, m, agg);
  }

  lemma FillingRepresents(st: Store, t: Store, m: State, side: Side, agg: nat, qty: nat)
    requires Represents(st, m, multiset{agg}) && Filling(st, t, m, side, agg, qty)
    ensures Represents(t, FillStep(m, side, qty), multiset{agg})
  {
    var m' := FillStep(m, side, qty);
    assert SideOk(side.Opposite(), t, m') by { FillingOppSide(st, t, m, side, agg, qty); }
    assert SideOk(side, t, m') by { FillingOwnSide(st, t, m, side, agg, qty); FillStepParts(m, side, qty); }
    assert LeakedFilled(t.slots, m.leaked) by {
      ListedOnce(m, multiset{agg}, side.Opposite(), 0);
      PendingNotListed(m, multiset{agg}, agg);
      LeakedFrame(st.slots, t.slots, m.leaked, {m.Of(side.Opposite())[0].slot, agg});
    }
    FillStepSlots(m, side, qty, multiset{agg});
    FillStepParts(m, side, qty);
  }

  /** A ladder does not notice changes to an order it does not queue. */
  lemma OutsiderFrame(side: Side, s: seq<Order>, t: seq<Order>, levels: seq<LimitLevel>, queues: seq<seq<nat>>,
                      excess: seq<nat>, x: nat)
    requires LadderOk(side, s, levels, queues, excess)
    requires x < |s| == |t| && forall y :: 0 <= y < |s| && y != x ==> t[y] == s[y]
    requires forall r, i :: 0 <= r < |queues| && 0 <= i < |queues[r]| ==> queues[r][i] != x
    ensures LadderOk(side, t, levels, queues, excess)
  {
    LadderPriced(side, s, levels, queues, excess);
    LadderFrame(side, s, t, levels, queues, excess);
  }

  /** The front entry of a side is the front order of the level at its price, and no better level
      holds anything. */
  lemma FrontStored(side: Side, st: Store, m: State)
    requires SideOk(side, st, m) && m.Of(side) != []
    ensures var p, queues := m.Of(side)[0].price, st.Queues(side);
            && 0 <= p < |queues| == |st.Levels(side)| && queues[p] != [] && queues[p][0] == m.Of(side)[0].slot
            && BetterEmpty(side, queues, p)
  {
    LadderPriced(side, st.slots, st.Levels(side), st.Queues(side), m.Excess(side));
    var k := StoredAt(side, st.slots, st.Queues(side), m.Of(side), 0);
  }

  lemma EntryFacts(side: Side, st: Store, m: State, pending: multiset<nat>, i: nat)
    requires Represents(st, m, pending) && i < |m.Of(side)|
    ensures m.Shaped() && |st.slots| == |m.table| && st.table == m.table && st.free == m.free
    ensures var e := m.Of(side)[i];
            && e.slot < |st.slots| && Shown(side, st.slots[e.slot], e)
            && e.slot !in st.free && e.slot !in pending
            && 0 <= e.price < |st.Levels(side)| == |st.Queues(side)|
  {
    ListedOnce(m, pending, side, i);
    LadderPriced(side, st.slots, st.Levels(side), st.Queues(side), m.Excess(side));
    var k := StoredAt(side, st.slots, st.Queues(side), m.Of(side), i);
  }

  /** What `fill` leaves behind, seen from its caller. */
  ghost predicate FillEffect(st: Store, t: Store, m: State, side: Side, agg: nat, qty: Word64)
    requires m.Of(side.Opposite()) != []
  {
    var opp := side.Opposite();
    var e := m.Of(opp)[0];
    && agg < |st.slots| == |t.slots|
    && st.slots[agg].filled + qty < TWO64
    && t.slots[agg] == Settled(Took(st.slots[agg], qty)).(next := t.slots[agg].next, prev := t.slots[agg].prev)
    && t.Queues(side) == st.Queues(side)
    && 0 <= e.price < |st.Queues(opp)| && st.Queues(opp)[e.price] != []
    && t.Queues(opp) == (if qty == e.remaining then st.Queues(opp)[e.price := st.Queues(opp)[e.price][1..]]
         else st.Queues(opp))
  }

  /** With an exact best tick, its oldest order is the front of the list and links to the next oldest. */
  lemma BestFront(side: Side, st: Store, m: State, p: nat)
    requires SideOk(side, st, m) && BestOk(side, st.Queues(side), p)
    ensures m.Of(side) != [] && m.Of(side)[0].price == p && m.Of(side)[0].slot == st.Queues(side)[p][0]
    ensures p < |st.Levels(side)|
    ensures var q := st.Queues(side)[p];
            q[0] < |st.slots| && st.slots[q[0]].next == (if |q| == 1 then NULL else q[1])
  {
    LadderPriced(side, st.slots, st.Levels(side), st.Queues(side), m.Excess(side));
    BestIsFront(side, st.slots, st.Queues(side), m.Of(side), p);
    HeadNext(side, st.slots, st.Levels(side), st.Queues(side), m.Excess(side), p);
  }

  /** A bound on the best tick bounds the front of the list. */
  lemma BoundFront(side: Side, st: Store, m: State, best: int)
    requires SideOk(side, st, m) && BestBound(side, st.Queues(side), best)
    ensures if best == INVALID_PRICE then m.Of(side) == []
            else m.Of(side) == [] || NoWorse(side, best, m.Of(side)[0].price)
  {
    LadderPriced(side, st.slots, st.Levels(side), st.Queues(side), m.Excess(side));
    BoundBeforeFront(side, st.slots, st.Queues(side), m.Of(side), best);
  }

  /** An exact best tick is the best price of the list, and the other way round for a bound. */
  lemma ExactIsBest(side: Side, st: Store, m: State, best: int)
    requires SideOk(side, st, m) && BestBound(side, st.Queues(side), best)
    ensures BestOk(side, st.Queues(side), best) <==> best == Best(m.Of(side))
  {
    LadderPriced(side, st.slots, st.Levels(side), st.Queues(side), m.Excess(side));
    if BestOk(side, st.Queues(side), best) {
      BestIsFront(side, st.slots, st.Queues(side), m.Of(side), best);
    } else if m.Of(side) != [] {
      FrontStored(side, st, m);
    }
  }

  /** The level that a list and its excess call for at tick `p`. */
  function LevelOf(list: seq<Entry>, excess: nat, p: nat): LimitLevel {
    var q := QueueAt(list, p);
    LimitLevel(p, Wrap64(DepthAt(list, p) + excess), Wrap32(|q|),
               if q == [] then NULL else q[0], if q == [] then NULL else q[|q| - 1])
  }

  /** The slots of the first and the last entry of a list at a price, or null. */
  ghost predicate Ends(head: int, tail: int, list: seq<Entry>, p: int) {
    && ((forall i :: 0 <= i < |list| ==> list[i].price != p) ==> head == -1 && tail == -1)
    && (forall i :: 0 <= i < |list| && list[i].price == p && (forall j :: 0 <= j < i ==> list[j].price != p) ==>
          head == list[i].slot)
    && (forall i :: 0 <= i < |list| && list[i].price == p && (forall j :: i < j < |list| ==> list[j].price != p) ==>
          tail == list[i].slot)
  }

  lemma QueueEnds(list: seq<Entry>, p: int)
    ensures var q := QueueAt(list, p);
            Ends(if q == [] then -1 else q[0], if q == [] then -1 else q[|q| - 1], list, p)
  {
    hide QueueAt;
    if forall i :: 0 <= i < |list| ==> list[i].price != p {
      FiguresElsewhere(list, p);
    }
    forall i | 0 <= i < |list| && list[i].price == p
      ensures QueueAt(list, p) != []
      ensures (forall j :: 0 <= j < i ==> list[j].price != p) ==> QueueAt(list, p)[0] == list[i].slot
      ensures (forall j :: i < j < |list| ==> list[j].price != p) ==>
                QueueAt(list, p)[|QueueAt(list, p)| - 1] == list[i].slot
    {
      QueueAtEnds(list, p, i);
    }
  }

  /** What a level says, in plain terms: how many entries the list has there, modulo 2^32; what remains of them
      and the excess, modulo 2^64; and where the first and the last of them are. */
  ghost predicate LevelSays(level: LimitLevel, list: seq<Entry>, excess: nat, p: nat) {
    var n := multiset(Prices(list))[p];
    && level.price == p
    && (level.count - n) % 0x1_0000_0000 == 0 && (n < 0x1_0000_0000 ==> level.count == n)
    && (level.total - (DepthAt(list, p) + excess)) % 0x1_0000_0000_0000_0000 == 0
    && Ends(level.head, level.tail, list, p)
  }

  lemma SameWord(w: int, n: nat)
    requires 0 <= w < 0x1_0000_0000 && (w - n) % 0x1_0000_0000 == 0
    ensures n < 0x1_0000_0000 ==> w == n
  {
  }

  lemma LevelOfSays(list: seq<Entry>, excess: nat, p: nat)
    ensures LevelSays(LevelOf(list, excess, p), list, excess, p)
  {
    hide QueueAt, DepthAt, Prices, Wrap64, Wrap32, Ends;
    QueueAtCount(list, p);
    WrapsModulo(|QueueAt(list, p)|);
    WrapsModulo(DepthAt(list, p) + excess);
    SameWord(Wrap32(|QueueAt(list, p)|), |QueueAt(list, p)|);
    QueueEnds(list, p);
  }

  function AllLevels(list: seq<Entry>, excess: seq<nat>): seq<LimitLevel> {
    seq(|excess|, p requires 0 <= p < |excess| => LevelOf(list, excess[p], p))
  }

  /** Every field of a stored level, in terms of the reference list. */
  lemma SideFigures(side: Side, st: Store, m: State, p: nat)
    requires SideOk(side, st, m) && p < |st.Levels(side)|
    ensures |m.Excess(side)| == |st.Levels(side)|
    ensures st.Levels(side)[p] == LevelOf(m.Of(side), m.Excess(side)[p], p)
  {
    hide Shows, DepthAt, QueueAt, Owed;
    assert LevelOk(side, st.slots, p, st.Levels(side)[p], st.Queues(side)[p], m.Excess(side)[p]);
    LadderPriced(side, st.slots, st.Levels(side), st.Queues(side), m.Excess(side));
    QueueFigures(side, st.slots, st.Queues(side), m.Of(side), p);
  }

  lemma OthersElsewhere(side: Side, s: seq<Order>, levels: seq<LimitLevel>, queues: seq<seq<nat>>, excess: seq<nat>,
                        p: nat, k: nat)
    requires LadderOk(side, s, levels, queues, excess) && p < |queues| && k < |queues[p]|
    ensures queues[p][k] < |s|
    ensures forall r, i :: 0 <= r < |queues| && 0 <= i < |queues[r]| && !(r == p && i == k) ==>
              queues[r][i] != queues[p][k] && queues[r][i] < |s|
  {
    LadderPriced(side, s, levels, queues, excess);
    assert LevelOk(side, s, p, levels[p], queues[p], excess[p]);
  }

  /** The front opposite order is reduced and its level's total with it. */
  lemma ReduceFront(st: Store, m: State, side: Side, agg: nat, qty: nat, t: seq<Order>)
    requires Represents(st, m, multiset{agg}) && m.Of(side.Opposite()) != [] && |t| == |st.slots|
    requires var x := m.Of(side.Opposite())[0].slot;
             && x < |t| && Reduced(st.slots, t, x, qty)
             && forall y :: 0 <= y < |t| && y != x && y != agg ==> t[y] == st.slots[y]
    ensures var opp := side.Opposite();
            var p, levels := m.Of(opp)[0].price, st.Levels(opp);
            && 0 <= p < |levels| == |st.Queues(opp)|
            && st.Queues(opp)[p] != [] && st.Queues(opp)[p][0] == m.Of(opp)[0].slot
            && LadderOk(opp, t, levels[p := levels[p].(total := Wrap64(levels[p].total - qty))], st.Queues(opp),
                 m.Excess(opp))
  {
    hide TableOk, SlotsOk, Displays, LevelOk, LeakedFilled;
    var opp := side.Opposite();
    FrontStored(opp, st, m);
    PendingNotQueued(opp, st, m, multiset{agg}, agg);
    OthersElsewhere(opp, st.slots, st.Levels(opp), st.Queues(opp), m.Excess(opp), m.Of(opp)[0].price, 0);
    ReduceKeeps(opp, st.slots, t, st.Levels(opp), st.Queues(opp), m.Excess(opp), m.Of(opp)[0].price, 0, qty);
  }

  // ----- The stored book as `fill` changes it, one function per part of the code

  function Took(o: Order, qty: Word64): Order
    requires o.filled + qty < TWO64
  {
    o.(filled := o.filled + qty)
  }

  function Settled(o: Order): Order {
    o.(status := if o.filled >= o.quantity then Filled else PartiallyFilled)
  }

  /** Both orders take the quantity, and so does the total of the resting order's level. */
  ghost function AdvancedStore(st: Store, side: Side, p: nat, x: nat, agg: nat, qty: Word64): Store
    requires x < |st.slots| && agg < |st.slots| && p < |st.Levels(side)|
    requires st.slots[x].filled + qty < TWO64 && st.slots[agg].filled + qty < TWO64
  {
    st.With(side, st.Levels(side)[p := st.Levels(side)[p].(total := Wrap64(st.Levels(side)[p].total - qty))],
            st.Queues(side)).(slots := st.slots[x := Took(st.slots[x], qty)][agg := Took(st.slots[agg], qty)])
  }

  /** Order `x`, the `k`-th of level `p`, leaves the level and the id table. */
  ghost function DetachedStore(st: Store, side: Side, p: nat, k: nat, x: nat): Store
    requires x < |st.slots| && p < |st.Levels(side)| == |st.Queues(side)| && k < |st.Queues(side)[p]| && |st.table| > 0
  {
    st.With(side, st.Levels(side)[p := RemovedLevel(st.Levels(side)[p], st.slots[x])],
            st.Queues(side)[p := Without<nat>(st.Queues(side)[p], k)]).(
    slots := LinkedOut(st.slots, x), table := st.table[st.slots[x].id % |st.table| := NULL])
  }

  /** Every slot still shows the id, the side, the price and the time of arrival it showed before. */
  ghost predicate SamePlaces(s: seq<Order>, t: seq<Order>) {
    && |s| == |t|
    && forall x :: 0 <= x < |s| ==>
         t[x].id == s[x].id && t[x].sideByte == s[x].sideByte && t[x].price == s[x].price &&
         t[x].timestamp == s[x].timestamp
  }

  lemma SamePlacesTwice(s: seq<Order>, t: seq<Order>, u: seq<Order>)
    requires SamePlaces(s, t) && SamePlaces(t, u)
    ensures SamePlaces(s, u)
  {
  }

  lemma RelinkedPlaces(s: seq<Order>, t: seq<Order>, side: Side, p: int)
    requires Relinked(s, t, side, p)
    ensures SamePlaces(s, t)
  {
  }

  ghost function SideBytes(s: seq<Order>): (bytes: seq<Byte>)
    ensures |bytes| == |s|
  {
    seq(|s|, i requires 0 <= i < |s| => s[i].sideByte)
  }

  lemma SamePlacesBytes(s: seq<Order>, t: seq<Order>)
    requires SamePlaces(s, t)
    ensures SideBytes(s) == SideBytes(t)
  {
  }

  lemma LinkedOutPlaces(s: seq<Order>, x: nat, status: Status)
    requires x < |s|
    ensures SamePlaces(s, LinkedOut(s[x := s[x].(status := status)], x))
  {
  }

  /** Order `x` is detached and its slot goes back to the pool. */
  ghost function RetiredStore(st: Store, side: Side, p: nat, k: nat, x: nat): Store
    requires x < |st.slots| && p < |st.Levels(side)| == |st.Queues(side)| && k < |st.Queues(side)[p]| && |st.table| > 0
  {
    DetachedStore(st, side, p, k, x).(free := st.free + [x])
  }

  /** The resting order's new status, and its retirement if nothing is left of it. */
  ghost function SettledStore(st: Store, side: Side, p: nat, x: nat): Store
    requires x < |st.slots| && p < |st.Levels(side)| == |st.Queues(side)| && st.Queues(side)[p] != [] && |st.table| > 0
  {
    var t := st.(slots := st.slots[x := Settled(st.slots[x])]);
    if st.slots[x].filled >= st.slots[x].quantity then RetiredStore(t, side, p, 0, x) else t
  }

  ghost function FilledStore(st: Store, side: Side, p: nat, x: nat, agg: nat, qty: Word64): Store
    requires x < |st.slots| && agg < |st.slots| && p < |st.Levels(side)| == |st.Queues(side)|
    requires st.slots[x].filled + qty < TWO64 && st.slots[agg].filled + qty < TWO64 && |st.table| > 0
    requires st.Queues(side)[p] != []
  {
    var t := SettledStore(AdvancedStore(st, side, p, x, agg, qty), side, p, x);
    t.(slots := t.slots[agg := Settled(t.slots[agg])])
  }

  /** A fill between a pending aggressor and the front opposite order. */
  ghost predicate CanFill(st: Store, m: State, side: Side, agg: nat, qty: Word64) {
    && Represents(st, m, multiset{agg})
    && agg < |st.slots| && st.slots[agg].side == side
    && m.Of(side.Opposite()) != []
    && st.slots[agg].filled <= st.slots[agg].quantity
    && qty == Min(m.Of(side.Opposite())[0].remaining, st.slots[agg].Remaining())
  }

  lemma CanFillFacts(st: Store, m: State, side: Side, agg: nat, qty: Word64)
    requires CanFill(st, m, side, agg, qty)
    ensures m.Shaped() && |st.table| == |m.table| == |st.slots|
    ensures var opp := side.Opposite();
            var e := m.Of(opp)[0];
            && e.slot < |st.slots| && e.slot != agg && e.slot !in st.free && Shown(opp, st.slots[e.slot], e)
            && 0 <= e.price < |st.Levels(opp)| == |st.Queues(opp)|
            && st.Queues(opp)[e.price] != [] && st.Queues(opp)[e.price][0] == e.slot
            && qty <= e.remaining && st.slots[e.slot].filled + qty <= st.slots[e.slot].quantity
            && st.slots[agg].filled + qty < TWO64
  {
    hide LadderOk, TableOk, SlotsOk;
    EntryFacts(side.Opposite(), st, m, multiset{agg}, 0);
    FrontStored(side.Opposite(), st, m);
  }

  ghost function AdvancedBook(st: Store, m: State, side: Side, agg: nat, qty: Word64): Store
    requires CanFill(st, m, side, agg, qty)
  {
    CanFillFacts(st, m, side, agg, qty);
    AdvancedStore(st, side.Opposite(), m.Of(side.Opposite())[0].price, m.Of(side.Opposite())[0].slot, agg, qty)
  }

  ghost function FilledBook(st: Store, m: State, side: Side, agg: nat, qty: Word64): Store
    requires CanFill(st, m, side, agg, qty)
  {
    CanFillFacts(st, m, side, agg, qty);
    FilledStore(st, side.Opposite(), m.Of(side.Opposite())[0].price, m.Of(side.Opposite())[0].slot, agg, qty)
  }

  lemma FilledPlaces(st: Store, m: State, side: Side, agg: nat, qty: Word64)
    requires CanFill(st, m, side, agg, qty)
    ensures SamePlaces(st.slots, FilledBook(st, m, side, agg, qty).slots)
  {
    hide Represents, RemovedLevel;
    CanFillFacts(st, m, side, agg, qty);
  }

  /** The ladder `Settle` needs once both orders have taken the quantity. */
  lemma FrontLadder(st: Store, m: State, side: Side, agg: nat, qty: Word64)
    requires CanFill(st, m, side, agg, qty)
    ensures var opp, t := side.Opposite(), AdvancedBook(st, m, side, agg, qty);
            var x := m.Of(opp)[0].slot;
            x < |t.slots| && LadderOk(opp, t.slots[x := Settled(t.slots[x])], t.Levels(opp), t.Queues(opp),
              m.Excess(opp))
  {
    hide TableOk, SlotsOk, LevelOk, LeakedFilled, LadderOk, Shows;
    CanFillFacts(st, m, side, agg, qty);
    var opp, x := side.Opposite(), m.Of(side.Opposite())[0].slot;
    var t := AdvancedStore(st, opp, m.Of(opp)[0].price, x, agg, qty);
    ReduceFront(st, m, side, agg, qty, t.slots[x := Settled(t.slots[x])]);
  }

  /** Relinking at the other side's price, then settling the aggressor, keeps this side as it was. */
  lemma TookThenRelinked(s: seq<Order>, s2: seq<Order>, s3: seq<Order>, t: seq<Order>, x: nat, agg: nat, side: Side,
                         p: int)
    requires x < |s| == |s2| && agg < |s| && (forall y :: 0 <= y < |s| && y != x && y != agg ==> s2[y] == s[y])
    requires Relinked(s2, s3, side, p) && |t| == |s3| && (forall y :: 0 <= y < |t| && y != agg ==> t[y] == s3[y])
    ensures SameOrders(s, t, {x, agg})
    ensures forall y :: 0 <= y < |s| && y != x && y != agg && s[y].side != side ==> t[y] == s[y]
    ensures s3[agg] == s2[agg].(next := s3[agg].next, prev := s3[agg].prev)
  {
  }

  lemma FilledRetires(st: Store, m: State, side: Side, agg: nat, qty: Word64)
    requires CanFill(st, m, side, agg, qty) && qty == m.Of(side.Opposite())[0].remaining
    ensures Filling(st, FilledBook(st, m, side, agg, qty), m, side, agg, qty)
  {
    hide TableOk, SlotsOk, LevelOk, LeakedFilled, LadderOk, LinkedOut, RemovedLevel, Shows;
    CanFillFacts(st, m, side, agg, qty);
    FrontLadder(st, m, side, agg, qty);
    var opp, e, t1 := side.Opposite(), m.Of(side.Opposite())[0], AdvancedBook(st, m, side, agg, qty);
    var s2 := t1.slots[e.slot := Settled(t1.slots[e.slot])];
    RemoveLadder(opp, s2, t1.Levels(opp), st.Queues(opp), m.Excess(opp), e.price, 0);
    var t := FilledBook(st, m, side, agg, qty);
    TookThenRelinked(st.slots, s2, LinkedOut(s2, e.slot), t.slots, e.slot, agg, opp, e.price);
    PendingNotQueued(opp, st, m, multiset{agg}, agg);
    OutsiderFrame(opp, LinkedOut(s2, e.slot), t.slots, t.Levels(opp), t.Queues(opp), m.Excess(opp), agg);
  }

  lemma FilledEffect(st: Store, m: State, side: Side, agg: nat, qty: Word64)
    requires CanFill(st, m, side, agg, qty)
    ensures FillEffect(st, FilledBook(st, m, side, agg, qty), m, side, agg, qty)
  {
    hide Represents, RemovedLevel;
    CanFillFacts(st, m, side, agg, qty);
    var x := m.Of(side.Opposite())[0].slot;
    var t := SettledStore(AdvancedBook(st, m, side, agg, qty), side.Opposite(), m.Of(side.Opposite())[0].price, x);
    assert t.slots[agg] == Took(st.slots[agg], qty).(next := t.slots[agg].next, prev := t.slots[agg].prev);
    if qty == m.Of(side.Opposite())[0].remaining {
      assert Without<nat>(st.Queues(side.Opposite())[m.Of(side.Opposite())[0].price], 0)
          == st.Queues(side.Opposite())[m.Of(side.Opposite())[0].price][1..];
    }
  }

  lemma FilledReduces(st: Store, m: State, side: Side, agg: nat, qty: Word64)
    requires CanFill(st, m, side, agg, qty) && qty < m.Of(side.Opposite())[0].remaining
    ensures Filling(st, FilledBook(st, m, side, agg, qty), m, side, agg, qty)
  {
    hide TableOk, SlotsOk, LevelOk, LeakedFilled, LadderOk, Shows;
    CanFillFacts(st, m, side, agg, qty);
    ReduceFront(st, m, side, agg, qty, FilledBook(st, m, side, agg, qty).slots);
  }

  /** A fill of the stored book is the fill step of the reference book. */
  lemma FillRefines(st: Store, m: State, side: Side, agg: nat, qty: Word64)
    requires CanFill(st, m, side, agg, qty)
    ensures Represents(FilledBook(st, m, side, agg, qty), FillStep(m, side, qty), multiset{agg})
    ensures FillEffect(st, FilledBook(st, m, side, agg, qty), m, side, agg, qty)
  {
    hide Represents, Filling, FillEffect, FilledBook;
    if qty == m.Of(side.Opposite())[0].remaining {
      FilledRetires(st, m, side, agg, qty);
    } else {
      FilledReduces(st, m, side, agg, qty);
    }
    FillingRepresents(st, FilledBook(st, m, side, agg, qty), m, side, agg, qty);
    FilledEffect(st, m, side, agg, qty);
  }

  // ----- Walking a level

  /** Tick `p` is the best of its side unless its level is exhausted, and `resting` is the front of that
      level as long as the aggressor wants more. */
  ghost predicate AtLevel(st: Store, side: Side, p: int, resting: int, left: int) {
    && 0 <= p < |st.Queues(side)|
    && BetterEmpty(side, st.Queues(side), p)
    && (left > 0 ==> resting == if st.Queues(side)[p] == [] then NULL else st.Queues(side)[p][0])
  }

  /** What the matching loops decrease: the aggressor's remainder and the opposite orders. */
  ghost function Work(st: Store, m: State, side: Side, agg: nat): int
    requires agg < |st.slots|
  {
    st.slots[agg].Remaining() + |m.Of(side)|
  }

  lemma FillProgress(st: Store, t: Store, m: State, side: Side, agg: nat, q: Word64, p: nat, next: int)
    requires m.Shaped() && m.Of(side.Opposite()) != [] && m.Of(side.Opposite())[0].price == p
    requires BestOk(side.Opposite(), st.Queues(side.Opposite()), p) && FillEffect(st, t, m, side, agg, q)
    requires st.slots[agg].Remaining() > 0 && q == Min(m.Of(side.Opposite())[0].remaining, st.slots[agg].Remaining())
    requires var queue := st.Queues(side.Opposite())[p];
             next == if |queue| == 1 then NULL else queue[1]
    ensures AtLevel(t, side.Opposite(), p, next, t.slots[agg].Remaining())
    ensures Work(t, FillStep(m, side, q), side.Opposite(), agg) < Work(st, m, side.Opposite(), agg)
  {
    FillStepParts(m, side, q);
  }

  // ----- Allocating, resting and retiring an aggressor

  lemma AllocatedRepresents(st: Store, t: Store, m: State, id: Word64)
    requires Represents(st, m, multiset{}) && m.free != []
    requires var slot := m.free[|m.free| - 1];
             && t == st.(slots := t.slots, free := m.free[..|m.free| - 1], table := st.table[m.Cell(id) := slot])
             && |t.slots| == |st.slots|
             && forall y :: 0 <= y < |st.slots| && y != slot ==> t.slots[y] == st.slots[y]
    ensures Represents(t, Allocate(m, id), multiset{m.free[|m.free| - 1]})
    ensures m.free[|m.free| - 1] < |st.slots|
  {
    hide LadderOk, TableOk, SlotsOk, Shows;
    var slot, m' := m.free[|m.free| - 1], Allocate(m, id);
    AllocateKeeps(m, id);
    PendingNotListed(m', multiset{slot}, slot);
    assert SideOk(Buy, st, m') && SideOk(Sell, st, m');
    PendingNotQueued(Buy, st, m', multiset{slot}, slot);
    PendingNotQueued(Sell, st, m', multiset{slot}, slot);
    assert forall i :: 0 <= i < |m.bids| ==> m.bids[i].slot == m'.Of(Buy)[i].slot;
    assert forall i :: 0 <= i < |m.asks| ==> m.asks[i].slot == m'.Of(Sell)[i].slot;
    SideFrame(Buy, st, t, m', m', slot);
    SideFrame(Sell, st, t, m', m', slot);
  }

  lemma RestedOwnSide(st: Store, t: Store, m: State, o: Incoming, slot: nat, left: nat)
    requires SideOk(o.side, st, m) && m.Shaped() && 0 <= o.price < |st.Queues(o.side)|
    requires slot < |st.slots| && Shown(o.side, st.slots[slot], Entry(slot, o.id, o.price, left, m.clock))
    requires left <= o.quantity
    requires |t.slots| == |st.slots| && Relinked(st.slots, t.slots, o.side, o.price)
    requires t.Queues(o.side) == st.Queues(o.side)[o.price := st.Queues(o.side)[o.price] + [slot]]
    ensures Shows(o.side, t.slots, t.Queues(o.side),
              Insert(o.side, m.Of(o.side), Entry(slot, o.id, o.price, left, m.clock)))
  {
    hide LevelOk;
    var e, list := Entry(slot, o.id, o.price, left, m.clock), m.Of(o.side);
    LadderPriced(o.side, st.slots, st.Levels(o.side), st.Queues(o.side), m.Excess(o.side));
    QueuedAtBack(o.side, st.slots, st.Queues(o.side), list, e);
    InsertAt(o.side, list, e);
    assert Displays(o.side, st.slots, Insert(o.side, list, e));
    DisplaysFrame(o.side, st.slots, t.slots, Insert(o.side, list, e), {});
  }

  lemma RestParts(m: State, slot: nat, o: Incoming, left: nat)
    requires m.Shaped() && left <= o.quantity
    ensures var t := Rest(m, slot, o, left);
            && t.Of(o.side) == Insert(o.side, m.Of(o.side), Entry(slot, o.id, o.price, left, m.clock))
            && t.Of(o.side.Opposite()) == m.Of(o.side.Opposite())
            && (0 <= o.price < |m.bidExcess| ==>
                  t.Excess(o.side) == m.Excess(o.side)[o.price := m.Excess(o.side)[o.price] + (o.quantity - left)])
            && t.Excess(o.side.Opposite()) == m.Excess(o.side.Opposite())
            && t.free == m.free && t.table == m.table && t.leaked == m.leaked
            && t.matchCount == m.matchCount && t.volume == m.volume
  {
  }

  /** What `push_back` does to the stored book. */
  ghost predicate QueuedStore(st: Store, t: Store, m: State, o: Incoming, slot: nat, left: nat) {
    && 0 <= o.price < |st.Queues(o.side)| && o.price < |m.Excess(o.side)| && left <= o.quantity
    && |t.slots| == |st.slots| && Relinked(st.slots, t.slots, o.side, o.price)
    && t.free == st.free && t.table == st.table
    && t.Queues(o.side) == st.Queues(o.side)[o.price := st.Queues(o.side)[o.price] + [slot]]
    && t.Queues(o.side.Opposite()) == st.Queues(o.side.Opposite())
    && t.Levels(o.side.Opposite()) == st.Levels(o.side.Opposite())
    && LadderOk(o.side, t.slots, t.Levels(o.side), t.Queues(o.side),
                m.Excess(o.side)[o.price := m.Excess(o.side)[o.price] + (o.quantity - left)])
  }

  lemma RestedSides(st: Store, t: Store, m: State, o: Incoming, slot: nat, left: nat)
    requires SideOk(o.side, st, m) && SideOk(o.side.Opposite(), st, m) && m.Shaped()
    requires slot < |st.slots| && Shown(o.side, st.slots[slot], Entry(slot, o.id, o.price, left, m.clock))
    requires QueuedStore(st, t, m, o, slot, left)
    ensures SideOk(o.side, t, Rest(m, slot, o, left)) && SideOk(o.side.Opposite(), t, Rest(m, slot, o, left))
  {
    hide LevelOk, Shows, Rest, LadderOk, Relinked;
    RestParts(m, slot, o, left) by { ExcessTicks(o.side, st, m); }
    RelinkedElsewhere(st.slots, t.slots, o.side, o.price);
    RestedOwnSide(st, t, m, o, slot, left);
    OffSideFrame(o.side.Opposite(), st, t, m);
  }

  lemma ExcessTicks(side: Side, st: Store, m: State)
    requires SideOk(side, st, m) && m.Shaped()
    ensures |m.bidExcess| == |st.Queues(side)|
  {
  }

  lemma EitherSide(side: Side, st: Store, m: State)
    ensures SideOk(side, st, m) && SideOk(side.Opposite(), st, m) <==> SideOk(Buy, st, m) && SideOk(Sell, st, m)
  {
    hide SideOk;
  }

  lemma RestedRepresents(st: Store, t: Store, m: State, o: Incoming, slot: nat, left: nat)
    requires Represents(st, m, multiset{slot}) && left <= o.quantity
    requires slot < |st.slots| && Shown(o.side, st.slots[slot], Entry(slot, o.id, o.price, left, m.clock))
    requires QueuedStore(st, t, m, o, slot, left)
    requires SlotsOk(Rest(m, slot, o, left), multiset{}) && TableOk(Rest(m, slot, o, left))
    ensures Represents(t, Rest(m, slot, o, left), multiset{})
  {
    hide SideOk, SlotsOk, TableOk, Shown, LadderOk, Relinked, LeakedFilled;
    var r := Rest(m, slot, o, left);
    EitherSide(o.side, st, m);
    RestedSides(st, t, m, o, slot, left);
    EitherSide(o.side, t, r);
    RelinkedElsewhere(st.slots, t.slots, o.side, o.price);
    LeakedFrame(st.slots, t.slots, m.leaked, {});
    RestParts(m, slot, o, left);
  }

  lemma RelinkedElsewhere(s: seq<Order>, t: seq<Order>, side: Side, p: int)
    requires Relinked(s, t, side, p)
    ensures SameOrders(s, t, {}) && forall y :: 0 <= y < |s| && s[y].side == side.Opposite() ==> t[y] == s[y]
  {
  }

  lemma LeakedRepresents(st: Store, m: State, slot: nat)
    requires Represents(st, m, multiset{slot}) && slot < |st.slots| && st.slots[slot].status == Filled
    ensures Represents(st, m.(leaked := m.leaked + {slot}), multiset{})
  {
    hide SlotsOk, LadderOk, Shows, NoDangling, OwnCell;
    LeakKeepsSlots(m, slot);
  }

  // ----- Cancelling

  /** A slot that is not free and not leaked is listed. */
  lemma ListedSomewhere(m: State, x: nat)
    requires SlotsOk(m, multiset{}) && x < |m.table| && x !in m.free && x !in m.leaked
    ensures exists side, i :: 0 <= i < |m.Of(side)| && m.Of(side)[i].slot == x
  {
    assert multiset(AllSlots(|m.table|))[x] == 1;
    assert x in multiset(Slots(m.bids)) || x in multiset(Slots(m.asks));
    if x in multiset(Slots(m.bids)) {
      var i :| 0 <= i < |Slots(m.bids)| && Slots(m.bids)[i] == x;
      assert m.Of(Buy)[i].slot == x;
    } else {
      var i :| 0 <= i < |Slots(m.asks)| && Slots(m.asks)[i] == x;
      assert m.Of(Sell)[i].slot == x;
    }
  }

  /** The checks `cancel_order` and `modify_order` make succeed exactly when the reference book finds the id. */
  lemma LocateStored(st: Store, m: State, id: Word64)
    requires Represents(st, m, multiset{})
    ensures var x := st.table[m.Cell(id)];
            && -1 <= x < |st.slots|
            && (if x == NULL || st.slots[x].id != id || !st.slots[x].Resting() then
                  m.Locate(id) == Nowhere
                else
                  m.Locate(id).At? && m.Locate(id).side == st.slots[x].side)
  {
    hide LadderOk, Slots, Flat;
    var x := st.table[m.Cell(id)];
    if x != NULL && st.slots[x].id == id && st.slots[x].Resting() {
      ListedSomewhere(m, x);
      var side, i :| 0 <= i < |m.Of(side)| && m.Of(side)[i].slot == x;
      EntryFacts(side, st, m, multiset{}, i);
      ListedOnce(m, multiset{}, side, i);
    } else if m.Locate(id).At? {
      EntryFacts(m.Locate(id).side, st, m, multiset{}, m.Locate(id).index);
    }
  }

  /** Where a located order is queued. */
  lemma LocatedAt(st: Store, m: State, side: Side, i: nat) returns (k: nat)
    requires Represents(st, m, multiset{}) && i < |m.Of(side)|
    ensures var e := m.Of(side)[i];
            && e.slot < |st.slots| && Shown(side, st.slots[e.slot], e) && e.slot !in st.free
            && 0 <= e.price < |st.Levels(side)| == |st.Queues(side)|
            && k < |st.Queues(side)[e.price]| && st.Queues(side)[e.price][k] == e.slot
  {
    EntryFacts(side, st, m, multiset{}, i);
    LadderPriced(side, st.slots, st.Levels(side), st.Queues(side), m.Excess(side));
    k := StoredAt(side, st.slots, st.Queues(side), m.Of(side), i);
  }

  /** List entry `i` is stored as the `k`-th order of its level. */
  ghost predicate KthOfLevel(st: Store, m: State, side: Side, i: nat, k: nat)
    requires i < |m.Of(side)|
  {
    && m.Of(side)[i].slot < |st.slots| && Shown(side, st.slots[m.Of(side)[i].slot], m.Of(side)[i])
    && 0 <= m.Of(side)[i].price < |st.Levels(side)| == |st.Queues(side)|
    && k < |st.Queues(side)[m.Of(side)[i].price]| && st.Queues(side)[m.Of(side)[i].price][k] == m.Of(side)[i].slot
  }

  ghost function CancelledBook(st: Store, m: State, side: Side, i: nat, k: nat): Store
    requires i < |m.Of(side)| && m.Of(side)[i].slot < |st.slots| && |st.table| > 0
    requires 0 <= m.Of(side)[i].price < |st.Levels(side)| == |st.Queues(side)|
    requires k < |st.Queues(side)[m.Of(side)[i].price]|
  {
    var x := m.Of(side)[i].slot;
    RetiredStore(st.(slots := st.slots[x := st.slots[x].(status := Cancelled)]), side, m.Of(side)[i].price, k, x)
  }

  lemma CancelledSides(st: Store, m: State, side: Side, i: nat, k: nat)
    requires Represents(st, m, multiset{}) && i < |m.Of(side)|
    requires m.Of(side)[i].slot < |st.slots| && Shown(side, st.slots[m.Of(side)[i].slot], m.Of(side)[i])
    requires 0 <= m.Of(side)[i].price < |st.Levels(side)| == |st.Queues(side)|
    requires k < |st.Queues(side)[m.Of(side)[i].price]| && st.Queues(side)[m.Of(side)[i].price][k] == m.Of(side)[i].slot
    ensures |st.table| > 0
    ensures var t, opp := CancelledBook(st, m, side, i, k), side.Opposite();
            && LadderOk(side, t.slots, t.Levels(side), t.Queues(side), m.Excess(side))
            && Shows(side, t.slots, t.Queues(side), Without<Entry>(m.Of(side), i))
            && SideOk(opp, t, m) && LeakedFilled(t.slots, m.leaked) && |t.slots| == |st.slots|
  {
    hide LevelOk, SlotsOk, TableOk, LinkedOut, RemovedLevel, Displays, Flat;
    var e, x, opp := m.Of(side)[i], m.Of(side)[i].slot, side.Opposite();
    var s2 := st.slots[x := st.slots[x].(status := Cancelled)];
    var t := CancelledBook(st, m, side, i, k);
    ListedOnce(m, multiset{}, side, i);
    StatusFrame(side, st.slots, st.Levels(side), st.Queues(side), m.Excess(side), x, Cancelled);
    RemoveLadder(side, s2, st.Levels(side), st.Queues(side), m.Excess(side), e.price, k);
    RemovalShows(side, st, m, multiset{}, i, k, t.slots, {x});
    LeakedFrame(st.slots, t.slots, m.leaked, {x});
    OthersElsewhere(side, st.slots, st.Levels(side), st.Queues(side), m.Excess(side), e.price, k);
    OffSideFrame(opp, st, t, m);
  }

  /** A side is untouched when only orders of the other side changed. */
  lemma OffSideFrame(side: Side, st: Store, t: Store, m: State)
    requires SideOk(side, st, m) && |st.slots| == |t.slots|
    requires t.Levels(side) == st.Levels(side) && t.Queues(side) == st.Queues(side)
    requires forall y :: 0 <= y < |st.slots| && st.slots[y].side == side ==> t.slots[y] == st.slots[y]
    ensures SideOk(side, t, m)
  {
    LadderPriced(side, st.slots, st.Levels(side), st.Queues(side), m.Excess(side));
    SideFrame(side, st, t, m, m, |st.slots|);
  }

  lemma CancelRefines(st: Store, m: State, id: Word64, k: nat)
    requires Represents(st, m, multiset{}) && m.Locate(id).At?
    requires KthOfLevel(st, m, m.Locate(id).side, m.Locate(id).index, k)
    ensures |st.table| > 0
    ensures Represents(CancelledBook(st, m, m.Locate(id).side, m.Locate(id).index, k), Cancel(m, id).state, multiset{})
  {
    hide LadderOk, Shows, SlotsOk, TableOk, LeakedFilled, LinkedOut, RemovedLevel;
    CancelledSides(st, m, m.Locate(id).side, m.Locate(id).index, k);
    CancelKeepsSlots(m, id);
  }

  // ----- Decreasing

  /** A located order shrinks in place, and its level's total with it. */
  ghost function DecreasedStore(st: Store, side: Side, p: nat, x: nat, quantity: Word64): Store
    requires x < |st.slots| && p < |st.Levels(side)| && st.slots[x].filled + quantity < TWO64
  {
    st.With(side, st.Levels(side)[p := st.Levels(side)[p].(
                                  total := Wrap64(st.Levels(side)[p].total - (st.slots[x].Remaining() - quantity)))],
            st.Queues(side)).(
    slots := st.slots[x := st.slots[x].(quantity := st.slots[x].filled + quantity)])
  }

  lemma DecreasedDisplays(side: Side, s: seq<Order>, list: seq<Entry>, i: nat, quantity: Word64)
    requires Displays(side, s, list) && i < |list| && list[i].slot < |s| && s[list[i].slot].filled + quantity < TWO64
    requires quantity <= list[i].remaining && forall j :: 0 <= j < |list| && list[j].slot == list[i].slot ==> j == i
    ensures var x := list[i].slot;
            Displays(side, s[x := s[x].(quantity := s[x].filled + quantity)],
              list[i := list[i].(remaining := quantity)])
  {
    forall j | 0 <= j < |list|
      ensures list[j].slot < |s| && Shown(side, s[list[j].slot], list[j])
    {
    }
  }

  lemma DecreaseRefines(st: Store, m: State, side: Side, i: nat, quantity: Word64)
    requires Represents(st, m, multiset{}) && Inv(m) && i < |m.Of(side)| && quantity <= m.Of(side)[i].remaining
    requires m.Of(side)[i].slot < |st.slots| && Shown(side, st.slots[m.Of(side)[i].slot], m.Of(side)[i])
    requires 0 <= m.Of(side)[i].price < |st.Levels(side)|
    ensures Represents(DecreasedStore(st, side, m.Of(side)[i].price, m.Of(side)[i].slot, quantity),
                       m.With(side, m.Of(side)[i := m.Of(side)[i].(remaining := quantity)]), multiset{})
  {
    hide Represents, Inv, LadderOk, LevelOk, SlotsOk, TableOk, Flat, Displays;
    var e, list := m.Of(side)[i], m.Of(side);
    var t := DecreasedStore(st, side, e.price, e.slot, quantity);
    var m' := m.With(side, list[i := e.(remaining := quantity)]);
    Unpack(st, m, multiset{});
    DecreaseKeepsInv(m, side, i, quantity);
    InvParts(m');
    ListedOnce(m, multiset{}, side, i);
    var k := LocatedAt(st, m, side, i);
    OthersElsewhere(side, st.slots, st.Levels(side), st.Queues(side), m.Excess(side), e.price, k);
    ReduceKeeps(side, st.slots, t.slots, st.Levels(side), st.Queues(side), m.Excess(side), e.price, k,
      e.remaining - quantity);
    assert Slots(m'.Of(side)) == Slots(list);
    DecreasedDisplays(side, st.slots, list, i, quantity);
    OffSideFrame(side.Opposite(), st, t, m);
    assert SideOk(side, t, m') && SideOk(side.Opposite(), t, m');
    LeakedFrame(st.slots, t.slots, m.leaked, {e.slot});
    Pack(t, m', multiset{});
  }

  lemma Pack(st: Store, m: State, pending: multiset<nat>)
    requires m.Shaped() && SlotsOk(m, pending) && TableOk(m) && |st.slots| == |st.table| == |m.table|
    requires st.free == m.free && st.table == m.table && LeakedFilled(st.slots, m.leaked)
    requires SideOk(Buy, st, m) && SideOk(Sell, st, m)
    ensures Represents(st, m, pending)
  {
  }

  /** The stored form of an empty book. */
  lemma EmptyRepresents(st: Store, capacity: nat, ticks: nat)
    requires capacity > 0 && |st.slots| == capacity && |st.buyLevels| == |st.sellLevels| == ticks
    requires |st.free| == capacity && forall i :: 0 <= i < capacity ==> st.free[i] == capacity - 1 - i
    requires |st.table| == capacity && forall i :: 0 <= i < capacity ==> st.table[i] == NULL
    requires |st.buyQueues| == |st.sellQueues| == ticks
    requires forall p :: 0 <= p < ticks ==> st.buyQueues[p] == st.sellQueues[p] == []
    requires forall p :: 0 <= p < ticks ==> st.buyLevels[p] == st.sellLevels[p] == LimitLevel(p, 0, 0, NULL, NULL)
    ensures Represents(st, Empty(capacity, ticks), multiset{}) && Inv(Empty(capacity, ticks))
    ensures BestOk(Buy, st.buyQueues, INVALID_PRICE) && BestOk(Sell, st.sellQueues, INVALID_PRICE)
    ensures Empty(capacity, ticks).matchCount == Empty(capacity, ticks).volume == 0
  {
    hide LadderOk, Shows, SlotsOk, TableOk;
    EmptyInv(capacity, ticks);
    var m := Empty(capacity, ticks);
    EmptySide(Buy, st.slots, st.buyLevels, st.buyQueues, m.bidExcess);
    EmptySide(Sell, st.slots, st.sellLevels, st.sellQueues, m.askExcess);
    assert st.free == m.free && st.table == m.table;
  }

  lemma EmptySide(side: Side, s: seq<Order>, levels: seq<LimitLevel>, queues: seq<seq<nat>>, excess: seq<nat>)
    requires |levels| == |queues| == |excess|
    requires forall p :: 0 <= p < |queues| ==>
               queues[p] == [] && excess[p] == 0 && levels[p] == LimitLevel(p, 0, 0, NULL, NULL)
    ensures LadderOk(side, s, levels, queues, excess) && Shows(side, s, queues, [])
  {
    AllEmpty(side, queues, 0);
    assert Slots([]) == [];
  }
}
