/** From stored queues to the reference lists: reading the levels from the best tick to the worst. */
module Ladder {
  import opened Types
  import opened Matcher
  import opened BookSpec
  import opened Levels

  /** The `r`-th best tick of a side; it is its own inverse. */
  function TickAt(side: Side, ticks: nat, r: int): int {
    if side.Sell? then r else ticks - 1 - r
  }

  /** The queues of rank `r` and worse, best first. */
  ghost function FlatFrom(side: Side, queues: seq<seq<nat>>, r: nat): seq<nat>
    decreases |queues| - r
  {
    if r >= |queues| then [] else queues[TickAt(side, |queues|, r)] + FlatFrom(side, queues, r + 1)
  }

  /** The queues better than rank `r`, best first. */
  ghost function FlatTo(side: Side, queues: seq<seq<nat>>, r: nat): seq<nat>
    requires r <= |queues|
  {
    if r == 0 then [] else FlatTo(side, queues, r - 1) + queues[TickAt(side, |queues|, r - 1)]
  }

  ghost function Flat(side: Side, queues: seq<seq<nat>>): seq<nat> {
    FlatFrom(side, queues, 0)
  }

  lemma {:induction false} FlatCut(side: Side, queues: seq<seq<nat>>, r: nat)
    requires r <= |queues|
    ensures Flat(side, queues) == FlatTo(side, queues, r) + FlatFrom(side, queues, r)
  {
    if r == 0 {
    } else {
      FlatCut(side, queues, r - 1);
    }
  }

  lemma {:induction false} FlatFromFrame(side: Side, queues: seq<seq<nat>>, r: nat, p: nat, q: seq<nat>)
    requires p < |queues| && TickAt(side, |queues|, p) < r
    ensures FlatFrom(side, queues[p := q], r) == FlatFrom(side, queues, r)
    decreases |queues| - r
  {
    if r >= |queues| {
    } else {
      FlatFromFrame(side, queues, r + 1, p, q);
    }
  }

  lemma {:induction false} FlatToFrame(side: Side, queues: seq<seq<nat>>, r: nat, p: nat, q: seq<nat>)
    requires p < |queues| && r <= TickAt(side, |queues|, p)
    ensures FlatTo(side, queues[p := q], r) == FlatTo(side, queues, r)
  {
    if r == 0 {
    } else {
      FlatToFrame(side, queues, r - 1, p, q);
    }
  }

  /** One level inside the whole, before and after it is replaced. */
  lemma FlatSplit(side: Side, queues: seq<seq<nat>>, p: nat, q: seq<nat>)
    requires p < |queues|
    ensures var r := TickAt(side, |queues|, p);
            && Flat(side, queues) == FlatTo(side, queues, r) + (queues[p] + FlatFrom(side, queues, r + 1))
            && Flat(side, queues[p := q]) == FlatTo(side, queues, r) + (q + FlatFrom(side, queues, r + 1))
  {
    var r := TickAt(side, |queues|, p);
    FlatCut(side, queues, r);
    FlatCut(side, queues[p := q], r);
    FlatToFrame(side, queues, r, p, q);
    FlatFromFrame(side, queues, r + 1, p, q);
  }

  /** Every queue holds orders of its own price. */
  ghost predicate Priced(s: seq<Order>, queues: seq<seq<nat>>) {
    forall p, i :: 0 <= p < |queues| && 0 <= i < |queues[p]| ==> queues[p][i] < |s| && s[queues[p][i]].price == p
  }

  lemma LadderPriced(side: Side, s: seq<Order>, levels: seq<LimitLevel>, queues: seq<seq<nat>>, excess: seq<nat>)
    requires LadderOk(side, s, levels, queues, excess)
    ensures Priced(s, queues)
  {
    forall p, i | 0 <= p < |queues| && 0 <= i < |queues[p]|
      ensures queues[p][i] < |s| && s[queues[p][i]].price == p
    {
      assert LevelOk(side, s, p, levels[p], queues[p], excess[p]);
    }
  }

  lemma {:induction false} FlatFromPrices(side: Side, s: seq<Order>, queues: seq<seq<nat>>, r: nat)
    requires Priced(s, queues)
    ensures forall i :: 0 <= i < |FlatFrom(side, queues, r)| ==>
              FlatFrom(side, queues, r)[i] < |s| &&
              r <= TickAt(side, |queues|, s[FlatFrom(side, queues, r)[i]].price) < |queues|
    decreases |queues| - r
  {
    if r >= |queues| {
    } else {
      FlatFromPrices(side, s, queues, r + 1);
    }
  }

  lemma {:induction false} FlatToPrices(side: Side, s: seq<Order>, queues: seq<seq<nat>>, r: nat)
    requires Priced(s, queues) && r <= |queues|
    ensures forall i :: 0 <= i < |FlatTo(side, queues, r)| ==>
              FlatTo(side, queues, r)[i] < |s| &&
              0 <= TickAt(side, |queues|, s[FlatTo(side, queues, r)[i]].price) < r
  {
    if r == 0 {
    } else {
      FlatToPrices(side, s, queues, r - 1);
    }
  }

  // ----- The reference list and the stored queues agree

  /** Entry `e` shows what slot contents `o` mean. */
  ghost predicate Shown(side: Side, o: Order, e: Entry) {
    && o.side == side && o.id == e.id && o.price == e.price
    && o.filled <= o.quantity && o.Remaining() == e.remaining && o.Resting()
  }

  ghost predicate Displays(side: Side, s: seq<Order>, list: seq<Entry>) {
    forall i :: 0 <= i < |list| ==> list[i].slot < |s| && Shown(side, s[list[i].slot], list[i])
  }

  ghost predicate Shows(side: Side, s: seq<Order>, queues: seq<seq<nat>>, list: seq<Entry>) {
    Slots(list) == Flat(side, queues) && Displays(side, s, list)
  }

  /** Where an element of the whole is stored: at its own price, behind everything better. */
  lemma StoredFlat(side: Side, s: seq<Order>, queues: seq<seq<nat>>, i: nat) returns (k: nat)
    requires Priced(s, queues) && i < |Flat(side, queues)| && Flat(side, queues)[i] < |s|
    ensures var p := s[Flat(side, queues)[i]].price;
            && 0 <= p < |queues|
            && i == |FlatTo(side, queues, TickAt(side, |queues|, p))| + k
            && k < |queues[p]| && queues[p][k] == Flat(side, queues)[i]
  {
    var flat := Flat(side, queues);
    var p := s[flat[i]].price;
    FlatFromPrices(side, s, queues, 0);
    var r := TickAt(side, |queues|, p);
    FlatSplit(side, queues, p, []);
    var a, b := FlatTo(side, queues, r), FlatFrom(side, queues, r + 1);
    FlatToPrices(side, s, queues, r);
    FlatFromPrices(side, s, queues, r + 1);
    k := i - |a|;
  }

  lemma SlotsThinned(list: seq<Entry>, i: nat)
    requires i < |list|
    ensures Slots(Without<Entry>(list, i)) == Without<nat>(Slots(list), i)
  {
  }

  /** Where list entry `i` is stored, and what taking it out of its queue does to the whole. */
  lemma StoredAt(side: Side, s: seq<Order>, queues: seq<seq<nat>>, list: seq<Entry>, i: nat) returns (k: nat)
    requires Priced(s, queues) && Shows(side, s, queues, list) && i < |list|
    ensures 0 <= list[i].price < |queues|
    ensures var p := list[i].price;
            && k < |queues[p]| && queues[p][k] == list[i].slot && k <= i
            && Slots(Without<Entry>(list, i)) == Flat(side, queues[p := Without<nat>(queues[p], k)])
            && (i == 0 ==> BetterEmpty(side, queues, p))
  {
    hide Flat, FlatTo, FlatFrom;
    assert Slots(list)[i] == Flat(side, queues)[i];
    k := StoredFlat(side, s, queues, i);
    var p := list[i].price;
    FlatSplit(side, queues, p, Without<nat>(queues[p], k));
    SlotsThinned(list, i);
    if i == 0 {
      EmptyAhead(side, queues, TickAt(side, |queues|, p));
    }
  }

  // ----- A level's figures are those of the list at its price

  /** The slots of the orders at one price, oldest first. */
  function QueueAt(list: seq<Entry>, price: int): seq<nat> {
    if list == [] then []
    else (if list[0].price == price then [list[0].slot] else []) + QueueAt(list[1..], price)
  }

  /** The part of a list whose slots are a stretch of one queue. */
  lemma {:induction false} FiguresOfQueue(s: seq<Order>, list: seq<Entry>, p: int)
    requires forall i :: 0 <= i < |list| ==>
               list[i].slot < |s| && s[list[i].slot].Remaining() == list[i].remaining && list[i].price == p
    ensures Owed(s, Slots(list)) == DepthAt(list, p) && QueueAt(list, p) == Slots(list)
  {
    if list == [] {
    } else {
      FiguresOfQueue(s, list[1..], p);
      assert Slots(list) == [list[0].slot] + Slots(list[1..]);
      assert Slots(list)[1..] == Slots(list[1..]);
    }
  }

  lemma {:induction false} FiguresElsewhere(list: seq<Entry>, p: int)
    requires forall i :: 0 <= i < |list| ==> list[i].price != p
    ensures DepthAt(list, p) == 0 && QueueAt(list, p) == []
  {
    if list == [] {
    } else {
      FiguresElsewhere(list[1..], p);
    }
  }

  lemma {:induction false} FiguresAppend(a: seq<Entry>, b: seq<Entry>, p: int)
    ensures DepthAt(a + b, p) == DepthAt(a, p) + DepthAt(b, p) && QueueAt(a + b, p) == QueueAt(a, p) + QueueAt(b, p)
  {
    if a == [] {
      assert a + b == b;
    } else {
      assert (a + b)[1..] == a[1..] + b;
      FiguresAppend(a[1..], b, p);
    }
  }

  ghost function Prices(list: seq<Entry>): seq<int> {
    seq(|list|, i requires 0 <= i < |list| => list[i].price)
  }

  /** As many orders are queued at a price as the list has entries there. */
  lemma {:induction false} QueueAtCount(list: seq<Entry>, p: int)
    ensures |QueueAt(list, p)| == multiset(Prices(list))[p]
  {
    if list == [] {
    } else {
      QueueAtCount(list[1..], p);
      assert Prices(list) == [list[0].price] + Prices(list[1..]);
    }
  }

  /** The first and the last entry at a price are the ends of its queue. */
  lemma {:induction false} QueueAtEnds(list: seq<Entry>, p: int, i: nat)
    requires i < |list| && list[i].price == p
    ensures QueueAt(list, p) != []
    ensures (forall j :: 0 <= j < i ==> list[j].price != p) ==> QueueAt(list, p)[0] == list[i].slot
    ensures (forall j :: i < j < |list| ==> list[j].price != p) ==>
              QueueAt(list, p)[|QueueAt(list, p)| - 1] == list[i].slot
  {
    hide QueueAt, DepthAt;
    assert list == list[..i] + ([list[i]] + list[i + 1..]);
    FiguresAppend(list[..i], [list[i]] + list[i + 1..], p);
    FiguresAppend([list[i]], list[i + 1..], p);
    OneQueued(list[i]);
    if forall j :: 0 <= j < i ==> list[j].price != p {
      FiguresElsewhere(list[..i], p);
    }
    if forall j :: i < j < |list| ==> list[j].price != p {
      FiguresElsewhere(list[i + 1..], p);
    }
  }

  lemma OneQueued(e: Entry)
    ensures QueueAt([e], e.price) == [e.slot]
  {
    assert [e][1..] == [];
  }

  /** A queue, and what it owes, are those of the list at its price. */
  lemma QueueFigures(side: Side, s: seq<Order>, queues: seq<seq<nat>>, list: seq<Entry>, p: nat)
    requires Priced(s, queues) && Shows(side, s, queues, list) && p < |queues|
    ensures forall i :: 0 <= i < |queues[p]| ==> queues[p][i] < |s|
    ensures Owed(s, queues[p]) == DepthAt(list, p) && queues[p] == QueueAt(list, p)
  {
    hide Flat, FlatTo, Slots, Owed, DepthAt, QueueAt;
    var a := |FlatTo(side, queues, TickAt(side, |queues|, p))|;
    var b := a + |queues[p]|;
    ListParts(side, s, queues, list, p);
    FiguresOfQueue(s, list[a..b], p);
    FiguresElsewhere(list[..a], p);
    FiguresElsewhere(list[b..], p);
    FiguresAppend(list[..a], list[a..b] + list[b..], p);
    FiguresAppend(list[a..b], list[b..], p);
    assert list == list[..a] + (list[a..b] + list[b..]);
  }

  /** The stretch of the list that is level `p`. */
  lemma ListParts(side: Side, s: seq<Order>, queues: seq<seq<nat>>, list: seq<Entry>, p: nat)
    requires Priced(s, queues) && Shows(side, s, queues, list) && p < |queues|
    ensures var a := |FlatTo(side, queues, TickAt(side, |queues|, p))|;
            var b := a + |queues[p]|;
            && b <= |list|
            && Slots(list[a..b]) == queues[p]
            && (forall i :: 0 <= i < |list| ==> (list[i].price == p <==> a <= i < b))
  {
    var r := TickAt(side, |queues|, p);
    FlatSplit(side, queues, p, []);
    FlatToPrices(side, s, queues, r);
    FlatFromPrices(side, s, queues, r + 1);
    var flat := Flat(side, queues);
    assert |flat| == |list|;
    forall i | 0 <= i < |list|
      ensures list[i].slot == flat[i]
    {
      assert Slots(list)[i] == list[i].slot;
    }
  }

  /** No order is queued at a price strictly better than `p`. */
  ghost predicate BetterEmpty(side: Side, queues: seq<seq<nat>>, p: int) {
    forall r :: 0 <= r < |queues| && r != p && NoWorse(side, r, p) ==> queues[r] == []
  }

  /** No order is queued beyond the cached best price, though it may itself be an empty tick. */
  ghost predicate BestBound(side: Side, queues: seq<seq<nat>>, best: int) {
    if best == INVALID_PRICE then forall r :: 0 <= r < |queues| ==> queues[r] == []
    else 0 <= best < |queues| && BetterEmpty(side, queues, best)
  }

  /** The cached best price is exact. */
  ghost predicate BestOk(side: Side, queues: seq<seq<nat>>, best: int) {
    BestBound(side, queues, best) && (best == INVALID_PRICE || queues[best] != [])
  }

  /** Queueing at tick `p` moves the best there exactly when `p` beats it. */
  lemma BestAfterPush(side: Side, queues: seq<seq<nat>>, best: int, p: nat, o: nat)
    requires BestBound(side, queues, best) && p < |queues|
    ensures var queues' := queues[p := queues[p] + [o]];
            var best' := if best == INVALID_PRICE || (p != best && NoWorse(side, p, best)) then p else best;
            && BestBound(side, queues', best')
            && (BestOk(side, queues', best') <==> BestOk(side, queues, best) || best' == p)
  {
  }

  /** Emptying or shortening a level disturbs the best only when it was the last of the best level. */
  lemma BestAfterRemove(side: Side, queues: seq<seq<nat>>, best: int, p: nat, q: seq<nat>)
    requires BestBound(side, queues, best) && p < |queues| && queues[p] != []
    ensures best != INVALID_PRICE && BestBound(side, queues[p := q], best)
    ensures BestOk(side, queues[p := q], best) <==> BestOk(side, queues, best) && (q != [] || p != best)
  {
    if p == best {
    } else {
      assert queues[p := q][best] == queues[best];
    }
  }

  /** The two cached best prices bound their sides and do not cross. */
  ghost predicate BoundsOk(bids: seq<seq<nat>>, asks: seq<seq<nat>>, bestBid: int, bestAsk: int) {
    && BestBound(Buy, bids, bestBid) && BestBound(Sell, asks, bestAsk)
    && (bestBid == INVALID_PRICE || bestAsk == INVALID_PRICE || bestBid < bestAsk)
  }

  lemma {:induction false} AllEmpty(side: Side, queues: seq<seq<nat>>, r: nat)
    requires forall p :: 0 <= p < |queues| ==> queues[p] == []
    ensures FlatFrom(side, queues, r) == []
    decreases |queues| - r
  {
    if r >= |queues| {
    } else {
      AllEmpty(side, queues, r + 1);
    }
  }

  lemma {:induction false} EmptyTo(side: Side, queues: seq<seq<nat>>, r: nat)
    requires r <= |queues| && forall p :: 0 <= p < |queues| && TickAt(side, |queues|, p) < r ==> queues[p] == []
    ensures FlatTo(side, queues, r) == []
  {
    if r == 0 {
    } else {
      EmptyTo(side, queues, r - 1);
    }
  }

  /** An exact cached best price is the best price of the reference list, and the front order of that
      level is the front of the list. */
  lemma BestIsFront(side: Side, s: seq<Order>, queues: seq<seq<nat>>, list: seq<Entry>, best: int)
    requires Priced(s, queues) && Shows(side, s, queues, list) && BestOk(side, queues, best)
    ensures best == Best(list)
    ensures if best == INVALID_PRICE then list == [] else list[0].slot == queues[best][0]
  {
    if best == INVALID_PRICE {
      AllEmpty(side, queues, 0);
      assert |Slots(list)| == |list|;
    } else {
      FlatSplit(side, queues, best, []);
      EmptyTo(side, queues, TickAt(side, |queues|, best));
      assert Flat(side, queues)[0] == queues[best][0];
      assert Slots(list)[0] == queues[best][0];
    }
  }

  /** A bound on the best price bounds the front of the reference list. */
  lemma BoundBeforeFront(side: Side, s: seq<Order>, queues: seq<seq<nat>>, list: seq<Entry>, best: int)
    requires Priced(s, queues) && Shows(side, s, queues, list) && BestBound(side, queues, best)
    ensures if best == INVALID_PRICE then list == [] else list == [] || NoWorse(side, best, list[0].price)
  {
    if best == INVALID_PRICE {
      BestIsFront(side, s, queues, list, best);
    } else if list != [] {
      var k := StoredAt(side, s, queues, list, 0);
    }
  }

  /** The oldest order of a level points to the next oldest. */
  lemma HeadNext(side: Side, s: seq<Order>, levels: seq<LimitLevel>, queues: seq<seq<nat>>, excess: seq<nat>, p: nat)
    requires LadderOk(side, s, levels, queues, excess) && p < |queues|
    ensures levels[p].head == (if queues[p] == [] then NULL else queues[p][0])
    ensures queues[p] != [] ==>
              queues[p][0] < |s| && s[queues[p][0]].next == (if |queues[p]| == 1 then NULL else queues[p][1])
  {
    assert LevelOk(side, s, p, levels[p], queues[p], excess[p]);
  }

  /** Levels are empty exactly when their queues are. */
  lemma LadderHeads(side: Side, s: seq<Order>, levels: seq<LimitLevel>, queues: seq<seq<nat>>, excess: seq<nat>)
    requires LadderOk(side, s, levels, queues, excess)
    ensures |queues| == |levels| && forall p :: 0 <= p < |levels| ==> (levels[p].head == NULL <==> queues[p] == [])
  {
    forall p | 0 <= p < |levels|
      ensures levels[p].head == NULL <==> queues[p] == []
    {
      HeadNext(side, s, levels, queues, excess, p);
    }
  }

  /** Links and quantities matter to a ladder, status does not. */
  lemma StatusFrame(side: Side, s: seq<Order>, levels: seq<LimitLevel>, queues: seq<seq<nat>>, excess: seq<nat>,
                    x: nat, status: Status)
    requires LadderOk(side, s, levels, queues, excess) && x < |s|
    ensures LadderOk(side, s[x := s[x].(status := status)], levels, queues, excess)
  {
    var t := s[x := s[x].(status := status)];
    forall p | 0 <= p < |levels|
      ensures LevelOk(side, t, p, levels[p], queues[p], excess[p])
    {
      assert LevelOk(side, s, p, levels[p], queues[p], excess[p]);
      OwedFrame(s, t, queues[p]);
    }
  }

  /** Queueing an order at the back of its level inserts it at its price-time place in the list. */
  lemma QueuedAtBack(side: Side, s: seq<Order>, queues: seq<seq<nat>>, list: seq<Entry>, e: Entry)
    requires Priced(s, queues) && Shows(side, s, queues, list) && 0 <= e.price < |queues|
    ensures Slots(Insert(side, list, e)) == Flat(side, queues[e.price := queues[e.price] + [e.slot]])
  {
    var p := e.price;
    var r := TickAt(side, |queues|, p);
    var a, b := FlatTo(side, queues, r), FlatFrom(side, queues, r + 1);
    FlatSplit(side, queues, p, queues[p] + [e.slot]);
    RankInLadder(side, s, queues, list, p);
    SlotsAround(list, a + queues[p], b, e);
    assert a + queues[p] + [e.slot] + b == a + (queues[p] + [e.slot] + b);
  }

  lemma SlotsAround(list: seq<Entry>, a: seq<nat>, b: seq<nat>, e: Entry)
    requires Slots(list) == a + b
    ensures |a| <= |list| && Slots(list[..|a|] + [e] + list[|a|..]) == a + [e.slot] + b
  {
    assert |Slots(list)| == |list|;
    forall i | 0 <= i < |list|
      ensures list[i].slot == (a + b)[i]
    {
      assert Slots(list)[i] == list[i].slot;
    }
  }

  lemma RankInLadder(side: Side, s: seq<Order>, queues: seq<seq<nat>>, list: seq<Entry>, p: int)
    requires Priced(s, queues) && Shows(side, s, queues, list) && 0 <= p < |queues|
    ensures var r := TickAt(side, |queues|, p);
            && Rank(side, list, p) == |FlatTo(side, queues, r) + queues[p]|
            && Slots(list) == FlatTo(side, queues, r) + queues[p] + FlatFrom(side, queues, r + 1)
  {
    var r := TickAt(side, |queues|, p);
    var n := |FlatTo(side, queues, r) + queues[p]|;
    FlatOrder(side, s, queues, p);
    forall i | 0 <= i < |list|
      ensures NoWorse(side, list[i].price, p) <==> i < n
    {
      assert Slots(list)[i] == list[i].slot;
    }
    assert |Slots(list)| == |list|;
    RankIs(side, list, p, n);
  }

  /** The whole is in price order: what is no worse than tick `p` comes first. */
  lemma FlatOrder(side: Side, s: seq<Order>, queues: seq<seq<nat>>, p: int)
    requires Priced(s, queues) && 0 <= p < |queues|
    ensures var flat, r := Flat(side, queues), TickAt(side, |queues|, p);
            var ahead := FlatTo(side, queues, r) + queues[p];
            && flat == ahead + FlatFrom(side, queues, r + 1)
            && forall i :: 0 <= i < |flat| ==>
                 flat[i] < |s| && (NoWorse(side, s[flat[i]].price, p) <==> i < |ahead|)
  {
    hide FlatTo, FlatFrom, Flat, NoWorse;
    var r := TickAt(side, |queues|, p);
    var a, b := FlatTo(side, queues, r), FlatFrom(side, queues, r + 1);
    FlatSplit(side, queues, p, []);
    FlatToPrices(side, s, queues, r);
    FlatFromPrices(side, s, queues, r + 1);
    PartsInOrder(side, |queues|, s, a, queues[p], b, p);
    assert a + (queues[p] + b) == a + queues[p] + b;
  }

  lemma PartsInOrder(side: Side, ticks: nat, s: seq<Order>, a: seq<nat>, q: seq<nat>, b: seq<nat>, p: int)
    requires forall i :: 0 <= i < |a| ==> a[i] < |s| && TickAt(side, ticks, s[a[i]].price) < TickAt(side, ticks, p)
    requires forall i :: 0 <= i < |q| ==> q[i] < |s| && s[q[i]].price == p
    requires forall i :: 0 <= i < |b| ==> b[i] < |s| && TickAt(side, ticks, s[b[i]].price) > TickAt(side, ticks, p)
    ensures var flat := a + q + b;
            forall i :: 0 <= i < |flat| ==>
              flat[i] < |s| && (NoWorse(side, s[flat[i]].price, p) <==> i < |a + q|)
  {
  }

  lemma RankIs(side: Side, list: seq<Entry>, p: int, n: nat)
    requires n <= |list| && forall i :: 0 <= i < |list| ==> (NoWorse(side, list[i].price, p) <==> i < n)
    ensures Rank(side, list, p) == n
  {
    var k := Rank(side, list, p);
    assert k < |list| ==> (NoWorse(side, list[k].price, p) <==> k < n);
    assert n < |list| ==> (NoWorse(side, list[n].price, p) <==> n < n);
  }

  lemma {:induction false} EmptyAhead(side: Side, queues: seq<seq<nat>>, r: nat)
    requires r <= |queues| && FlatTo(side, queues, r) == []
    ensures forall p :: 0 <= p < |queues| && TickAt(side, |queues|, p) < r ==> queues[p] == []
  {
    if r == 0 {
    } else {
      EmptyAhead(side, queues, r - 1);
    }
  }
}
