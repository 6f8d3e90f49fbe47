/** Every operation of the reference book keeps `Inv`, so every run does. */
module BookInvariant {
  import opened Types
  import opened Matcher
  import opened BookSpec

  // ----- Slots: matching moves them from the opposite list to the free stack

  lemma RetiredNone()
    ensures Retired([]) == []
  {
  }

  lemma RetiredHead(f: Fill, rest: seq<Fill>)
    ensures Retired([f] + rest) == (if f.done then [f.slot] else []) + Retired(rest)
  {
    assert ([f] + rest)[1..] == rest;
  }

  lemma {:induction false} RetiredAppend(a: seq<Fill>, b: seq<Fill>)
    ensures Retired(a + b) == Retired(a) + Retired(b)
  {
    hide Retired;
    RetiredNone();
    if a == [] {
      assert a + b == b;
    } else {
      assert a == [a[0]] + a[1..] && a + b == [a[0]] + (a[1..] + b);
      RetiredHead(a[0], a[1..]);
      RetiredHead(a[0], a[1..] + b);
      RetiredAppend(a[1..], b);
    }
  }

  lemma SlotsSplit(list: seq<Entry>, i: nat)
    requires i <= |list|
    ensures Slots(list) == Slots(list[..i]) + Slots(list[i..])
    ensures multiset(Slots(list)) == multiset(Slots(list[..i])) + multiset(Slots(list[i..]))
  {
    assert Slots(list) == Slots(list[..i]) + Slots(list[i..]);
  }

  lemma SlotsHead(list: seq<Entry>)
    requires list != []
    ensures multiset(Slots(list)) == multiset{list[0].slot} + multiset(Slots(list[1..]))
  {
    SlotsSplit(list, 1);
    assert Slots(list[..1]) == [list[0].slot];
  }

  lemma SlotsWithout(list: seq<Entry>, i: nat)
    requires i < |list|
    ensures multiset(Slots(list)) == multiset{list[i].slot} + multiset(Slots(Without<Entry>(list, i)))
  {
    SlotsSplit(list, i);
    SlotsHead(list[i..]);
    assert list[i..][1..] == list[i + 1..];
    assert Slots(Without<Entry>(list, i)) == Slots(list[..i]) + Slots(list[i + 1..]);
  }

  lemma SlotsInsert(side: Side, list: seq<Entry>, e: Entry)
    ensures multiset(Slots(Insert(side, list, e))) == multiset(Slots(list)) + multiset{e.slot}
  {
    var k := Rank(side, list, e.price);
    var l := Insert(side, list, e);
    SlotsWithout(l, k);
    assert Without<Entry>(l, k) == list;
  }

  lemma {:induction false} MatchSlots(side: Side, limit: int, qty: nat, opp: seq<Entry>)
    ensures var o := Match(side, limit, qty, opp);
            multiset(Slots(opp)) == multiset(Slots(o.book)) + multiset(Retired(o.fills))
    decreases |opp|
  {
    hide Retired, Slots;
    RetiredNone();
    if qty > 0 && opp != [] && Crosses(side, limit, opp[0].price) {
      var e := opp[0];
      if qty < e.remaining {
        RetiredHead(FillOf(e, qty), []);
        assert [FillOf(e, qty)] + [] == [FillOf(e, qty)];
        SlotsReduced(opp, e.remaining - qty);
      } else {
        var r := Match(side, limit, qty - e.remaining, opp[1..]);
        MatchSlots(side, limit, qty - e.remaining, opp[1..]);
        RetiredHead(FillOf(e, e.remaining), r.fills);
        SlotsHead(opp);
      }
    }
  }

  lemma SlotsReduced(list: seq<Entry>, remaining: nat)
    requires list != []
    ensures Slots([list[0].(remaining := remaining)] + list[1..]) == Slots(list)
  {
  }

  /** A listed slot is nowhere else. */
  lemma ListedOnce(s: State, pending: multiset<nat>, side: Side, i: nat)
    requires s.Shaped() && SlotsOk(s, pending) && i < |s.Of(side)|
    ensures var slot := s.Of(side)[i].slot;
            && slot < |s.table|
            && slot !in s.free && slot !in s.leaked && slot !in pending
            && (forall j :: 0 <= j < |s.Of(side)| && s.Of(side)[j].slot == slot ==> j == i)
            && (forall j :: 0 <= j < |s.Of(side.Opposite())| ==> s.Of(side.Opposite())[j].slot != slot)
  {
    var list, slot := s.Of(side), s.Of(side)[i].slot;
    SlotsWithout(list, i);
    var all := multiset(AllSlots(|s.table|));
    assert all[slot] <= 1;
    assert slot !in multiset(Slots(Without<Entry>(list, i)));
    forall j | 0 <= j < |list| && j != i
      ensures list[j].slot != slot
    {
      var w := Without<Entry>(list, i);
      var j' := if j < i then j else j - 1;
      assert w[j'] == list[j];
      assert Slots(w)[j'] in multiset(Slots(w));
    }
    var other := s.Of(side.Opposite());
    forall j | 0 <= j < |other|
      ensures other[j].slot != slot
    {
      assert Slots(other)[j] in multiset(Slots(other));
    }
  }

  /** A free slot is on the stack once and nowhere else. */
  lemma FreeOnce(s: State, pending: multiset<nat>, i: nat)
    requires s.Shaped() && SlotsOk(s, pending) && i < |s.free|
    ensures var slot := s.free[i];
            && slot < |s.table| && slot !in s.leaked && slot !in pending
            && (forall j :: 0 <= j < |s.free| && s.free[j] == slot ==> j == i)
            && (forall side, j :: 0 <= j < |s.Of(side)| ==> s.Of(side)[j].slot != slot)
  {
    var slot := s.free[i];
    assert multiset(AllSlots(|s.table|))[slot] <= 1;
    assert s.free == s.free[..i] + [slot] + s.free[i + 1..];
    assert multiset(s.free) == multiset(s.free[..i]) + multiset{slot} + multiset(s.free[i + 1..]);
    forall j | 0 <= j < |s.free| && j != i
      ensures s.free[j] != slot
    {
      if j < i {
        assert s.free[..i][j] in multiset(s.free[..i]);
      } else {
        assert s.free[i + 1..][j - i - 1] in multiset(s.free[i + 1..]);
      }
    }
    forall side: Side, j | 0 <= j < |s.Of(side)|
      ensures s.Of(side)[j].slot != slot
    {
      assert Slots(s.Of(side))[j] in multiset(Slots(s.Of(side)));
    }
  }

  // ----- The id table while a match retires orders

  lemma {:induction false} UnindexedAppend(table: seq<int>, a: seq<Fill>, b: seq<Fill>)
    requires |table| > 0
    ensures Unindexed(table, a + b) == Unindexed(Unindexed(table, a), b)
    decreases |a|
  {
    if a == [] {
      assert a + b == b;
    } else {
      assert (a + b)[1..] == a[1..] + b;
      UnindexedAppend(if a[0].done then table[a[0].id % |table| := NULL] else table, a[1..], b);
    }
  }

  ghost predicate Fresh(list: seq<Entry>, free: seq<nat>) {
    && (forall i, j :: 0 <= i < j < |list| ==> list[i].slot != list[j].slot)
    && (forall i :: 0 <= i < |list| ==> list[i].slot !in free)
  }

  lemma {:induction false} MatchTable(side: Side, limit: int, qty: nat, opp: seq<Entry>, table: seq<int>,
                                      free: seq<nat>)
    requires |table| > 0 && NoDangling(table, free) && OwnCell(table, opp) && Fresh(opp, free)
    ensures var o := Match(side, limit, qty, opp);
            var t := Unindexed(table, o.fills);
            && NoDangling(t, free + Retired(o.fills))
            && OwnCell(t, o.book)
            && forall k :: 0 <= k < |table| ==> t[k] == table[k] || t[k] == NULL
    decreases |opp|
  {
    var o := Match(side, limit, qty, opp);
    if qty > 0 && opp != [] && Crosses(side, limit, opp[0].price) && opp[0].remaining <= qty {
      var e := opp[0];
      var r := Match(side, limit, qty - e.remaining, opp[1..]);
      var table1, free1 := table[e.id % |table| := NULL], free + [e.slot];
      RetireHead(opp, table, free);
      MatchTable(side, limit, qty - e.remaining, opp[1..], table1, free1);
      assert o.fills[1..] == r.fills;
      assert free1 + Retired(r.fills) == free + Retired(o.fills);
    } else {
      assert |o.fills| > 0 ==> o.fills[1..] == [];
      assert free + Retired(o.fills) == free;
      assert Unindexed(table, o.fills) == table;
    }
  }

  lemma RetireHead(opp: seq<Entry>, table: seq<int>, free: seq<nat>)
    requires |table| > 0 && opp != [] && NoDangling(table, free) && OwnCell(table, opp) && Fresh(opp, free)
    ensures var table1, free1 := table[opp[0].id % |table| := NULL], free + [opp[0].slot];
            NoDangling(table1, free1) && OwnCell(table1, opp[1..]) && Fresh(opp[1..], free1)
  {
  }

  // ----- Lists

  /** `book` is a suffix of `opp`, possibly with less remaining. */
  ghost predicate Suffix(book: seq<Entry>, opp: seq<Entry>) {
    && |book| <= |opp|
    && forall i :: 0 <= i < |book| ==>
         var e := opp[i + |opp| - |book|];
         book[i] == e.(remaining := book[i].remaining) && book[i].remaining <= e.remaining
  }

  lemma SuffixCons(book: seq<Entry>, opp: seq<Entry>)
    requires opp != [] && Suffix(book, opp[1..])
    ensures Suffix(book, opp)
  {
  }

  lemma SuffixReduced(opp: seq<Entry>, remaining: nat)
    requires opp != [] && remaining <= opp[0].remaining
    ensures Suffix([opp[0].(remaining := remaining)] + opp[1..], opp) && Suffix(opp, opp)
  {
  }

  /** What a match leaves is a suffix of what it found, the front one possibly reduced. */
  lemma {:induction false} MatchLeavesSuffix(side: Side, limit: int, qty: nat, opp: seq<Entry>)
    ensures Suffix(Match(side, limit, qty, opp).book, opp)
    decreases |opp|
  {
    if qty == 0 || opp == [] || !Crosses(side, limit, opp[0].price) {
    } else if qty < opp[0].remaining {
      SuffixReduced(opp, opp[0].remaining - qty);
    } else {
      MatchLeavesSuffix(side, limit, qty - opp[0].remaining, opp[1..]);
      SuffixCons(Match(side, limit, qty - opp[0].remaining, opp[1..]).book, opp);
    }
  }

  lemma MatchKeepsListOk(side: Side, limit: int, qty: nat, opp: seq<Entry>, ticks: nat, clock: nat)
    requires ListOk(side.Opposite(), opp, ticks, clock)
    ensures ListOk(side.Opposite(), Match(side, limit, qty, opp).book, ticks, clock)
  {
    MatchLeavesSuffix(side, limit, qty, opp);
    var book := Match(side, limit, qty, opp).book;
    var d := |opp| - |book|;
    forall i, j | 0 <= i < j < |book|
      ensures Before(side.Opposite(), book[i], book[j])
    {
      assert Before(side.Opposite(), opp[i + d], opp[j + d]);
    }
  }

  lemma InsertKeepsListOk(side: Side, list: seq<Entry>, e: Entry, ticks: nat)
    requires ListOk(side, list, ticks, e.stamp) && 0 <= e.price < ticks
    ensures ListOk(side, Insert(side, list, e), ticks, e.stamp + 1)
  {
    var k := Rank(side, list, e.price);
    var l := Insert(side, list, e);
    forall i | 0 <= i < |list|
      ensures if i < k then Before(side, list[i], e) else Before(side, e, list[i])
    {
      if k < i {
        assert Before(side, list[k], list[i]);
      }
    }
    assert forall i :: 0 <= i < |l| ==> l[i] == if i < k then list[i] else if i == k then e else list[i - 1];
  }

  // ----- Operations

  lemma AllocateKeeps(s: State, id: Word64)
    requires s.Shaped() && SlotsOk(s, multiset{}) && TableOk(s) && s.free != []
    ensures var slot := s.free[|s.free| - 1];
            var t := Allocate(s, id);
            && SlotsOk(t, multiset{slot}) && TableOk(t)
            && forall k :: 0 <= k < |t.table| && t.table[k] == slot ==> k == id % |t.table|
  {
    var slot := s.free[|s.free| - 1];
    var t := Allocate(s, id);
    FreeOnce(s, multiset{}, |s.free| - 1);
    assert s.free == t.free + [slot];
    forall k | 0 <= k < |t.table| && s.table[k] != NULL
      ensures s.table[k] != slot
    {
      assert slot in s.free;
    }
    forall i, k | 0 <= i < |t.bids| && 0 <= k < |t.table| && t.table[k] == t.bids[i].slot
      ensures k == t.bids[i].id % |t.table|
    {
      assert s.Of(Buy)[i].slot != slot;
    }
    forall i, k | 0 <= i < |t.asks| && 0 <= k < |t.table| && t.table[k] == t.asks[i].slot
      ensures k == t.asks[i].id % |t.table|
    {
      assert s.Of(Sell)[i].slot != slot;
    }
  }

  /** The aggressor's own list and the table entry of its slot survive the match untouched, up to clearing. */
  lemma AbsorbKeeps(s: State, pending: multiset<nat>, side: Side, limit: int, qty: nat)
    requires s.Shaped() && SlotsOk(s, pending) && TableOk(s)
    ensures var m := Match(side, limit, qty, s.Of(side.Opposite()));
            var t := Absorb(s, side, m.fills, m.book);
            && SlotsOk(t, pending) && TableOk(t)
            && forall k :: 0 <= k < |t.table| ==> t.table[k] == s.table[k] || t.table[k] == NULL
  {
    hide Match, NoDangling, OwnCell, Retired, Unindexed, Slots, SlotsOk, Fresh, Traded;
    var opp := s.Of(side.Opposite());
    var m := Match(side, limit, qty, opp);
    ListedFresh(s, pending, side.Opposite());
    OwnCellEitherWay(s, side);
    MatchSlots(side, limit, qty, opp);
    AbsorbSlots(s, pending, side, m.fills, m.book);
    MatchTable(side, limit, qty, opp, s.table, s.free);
    OwnCellAnyOf(s, side, m.fills);
    OwnCellEitherWay(Absorb(s, side, m.fills, m.book), side);
  }

  /** Emptying cells of the table cannot make it refer to an order from elsewhere. */
  lemma OwnCellAnyOf(s: State, side: Side, fills: seq<Fill>)
    requires s.Shaped() && OwnCell(s.table, s.Of(side))
    ensures OwnCell(Unindexed(s.table, fills), s.Of(side))
  {
    OnlyEmptied(s.table, fills);
  }

  lemma {:induction false} OnlyEmptied(table: seq<int>, fills: seq<Fill>)
    requires |table| > 0
    ensures forall k :: 0 <= k < |table| ==>
              Unindexed(table, fills)[k] == table[k] || Unindexed(table, fills)[k] == NULL
    decreases |fills|
  {
    if fills == [] {
    } else {
      OnlyEmptied(if fills[0].done then table[fills[0].id % |table| := NULL] else table, fills[1..]);
    }
  }

  lemma AbsorbSlots(s: State, pending: multiset<nat>, side: Side, fills: seq<Fill>, book: seq<Entry>)
    requires s.Shaped() && SlotsOk(s, pending)
    requires multiset(Slots(s.Of(side.Opposite()))) == multiset(Slots(book)) + multiset(Retired(fills))
    ensures SlotsOk(Absorb(s, side, fills, book), pending)
  {
    hide Retired, Unindexed, Slots, Traded;
    assert multiset(s.free + Retired(fills)) == multiset(s.free) + multiset(Retired(fills));
  }

  lemma ListedFresh(s: State, pending: multiset<nat>, side: Side)
    requires s.Shaped() && SlotsOk(s, pending)
    ensures Fresh(s.Of(side), s.free)
  {
    var list := s.Of(side);
    forall i | 0 <= i < |list|
      ensures list[i].slot !in s.free
      ensures forall j :: i < j < |list| ==> list[i].slot != list[j].slot
    {
      ListedOnce(s, pending, side, i);
    }
  }

  lemma AddKeepsSlots(s: State, o: Incoming)
    requires s.Shaped() && SlotsOk(s, multiset{}) && TableOk(s)
    ensures SlotsOk(Add(s, o).state, multiset{}) && TableOk(Add(s, o).state)
  {
    if s.free != [] {
      var slot := s.free[|s.free| - 1];
      AllocateKeeps(s, o.id);
      var a := Allocate(s, o.id);
      AbsorbKeeps(a, multiset{slot}, o.side, o.price, o.quantity);
      var m := Match(o.side, o.price, o.quantity, s.Of(o.side.Opposite()));
      var t := Absorb(a, o.side, m.fills, m.book);
      if m.left > 0 {
        RestKeepsSlots(t, slot, o, m.left);
      } else {
        LeakKeepsSlots(t, slot);
      }
    }
  }

  lemma LeakKeepsSlots(t: State, slot: nat)
    requires t.Shaped() && SlotsOk(t, multiset{slot})
    ensures SlotsOk(t.(leaked := t.leaked + {slot}), multiset{})
  {
    assert multiset(AllSlots(|t.table|))[slot] <= 1;
    assert slot !in t.leaked;
    assert multiset(t.leaked + {slot}) == multiset(t.leaked) + multiset{slot};
  }

  lemma RestKeepsSlots(t: State, slot: nat, o: Incoming, left: nat)
    requires t.Shaped() && SlotsOk(t, multiset{slot}) && TableOk(t) && left <= o.quantity
    requires forall k :: 0 <= k < |t.table| && t.table[k] == slot ==> k == o.id % |t.table|
    ensures SlotsOk(Rest(t, slot, o, left), multiset{}) && TableOk(Rest(t, slot, o, left))
  {
    hide Insert, OwnCell, NoDangling, Slots;
    var e := Entry(slot, o.id, o.price, left, t.clock);
    SlotsInsert(o.side, t.Of(o.side), e);
    InsertOwnCell(t.table, o.side, t.Of(o.side), e);
  }

  lemma InsertOwnCell(table: seq<int>, side: Side, list: seq<Entry>, e: Entry)
    requires |table| > 0 && OwnCell(table, list)
    requires forall k :: 0 <= k < |table| && table[k] == e.slot ==> k == e.id % |table|
    ensures OwnCell(table, Insert(side, list, e))
  {
    InsertAt(side, list, e);
  }

  /** The two lists, the clock and the tick count after an add, whichever side it came in on. */
  lemma AddLists(s: State, o: Incoming)
    requires s.Shaped() && s.free != []
    ensures var t := Add(s, o).state;
            var m := Match(o.side, o.price, o.quantity, s.Of(o.side.Opposite()));
            && t.Of(o.side.Opposite()) == m.book
            && |t.bidExcess| == |s.bidExcess|
            && (if m.left > 0 then
                  var e := Entry(s.free[|s.free| - 1], o.id, o.price, m.left, s.clock);
                  t.Of(o.side) == Insert(o.side, s.Of(o.side), e) && t.clock == s.clock + 1
                else
                  t.Of(o.side) == s.Of(o.side) && t.clock == s.clock)
  {
  }

  lemma InsertAt(side: Side, list: seq<Entry>, e: Entry)
    ensures |Insert(side, list, e)| == |list| + 1
    ensures forall i {:trigger Insert(side, list, e)[i]} :: 0 <= i <= |list| ==>
              Insert(side, list, e)[i] == if i < Rank(side, list, e.price) then list[i]
                                          else if i == Rank(side, list, e.price) then e else list[i - 1]
  {
  }

  ghost predicate Apart(side: Side, own: seq<Entry>, opp: seq<Entry>) {
    forall i, j :: 0 <= i < |own| && 0 <= j < |opp| ==> !Crosses(side, own[i].price, opp[j].price)
  }

  lemma UncrossedEitherWay(s: State, side: Side)
    ensures Uncrossed(s.bids, s.asks) <==> Apart(side, s.Of(side), s.Of(side.Opposite()))
  {
    if side.Sell? && Apart(side, s.asks, s.bids) {
      forall i, j | 0 <= i < |s.bids| && 0 <= j < |s.asks|
        ensures s.bids[i].price < s.asks[j].price
      {
        assert !Crosses(side, s.asks[j].price, s.bids[i].price);
      }
    }
  }

  lemma ListsOkEitherWay(s: State, side: Side)
    requires s.Shaped()
    ensures ListOk(Buy, s.bids, |s.bidExcess|, s.clock) && ListOk(Sell, s.asks, |s.askExcess|, s.clock) <==>
            ListOk(side, s.Of(side), |s.bidExcess|, s.clock) &&
            ListOk(side.Opposite(), s.Of(side.Opposite()), |s.bidExcess|, s.clock)
  {
  }

  /** After a match either the aggressor is filled or no opposite order crosses it, so resting the
      remainder cannot cross the book. */
  lemma AddKeepsUncrossed(s: State, o: Incoming)
    requires s.Shaped() && s.free != [] && Uncrossed(s.bids, s.asks)
    requires Sorted(o.side.Opposite(), s.Of(o.side.Opposite()))
    ensures Uncrossed(Add(s, o).state.bids, Add(s, o).state.asks)
  {
    var own, opp := s.Of(o.side), s.Of(o.side.Opposite());
    AddLists(s, o);
    UncrossedEitherWay(s, o.side);
    AddStaysApart(o, own, opp, Entry(s.free[|s.free| - 1], o.id, o.price,
                                     Match(o.side, o.price, o.quantity, opp).left, s.clock));
    UncrossedEitherWay(Add(s, o).state, o.side);
  }

  lemma AddStaysApart(o: Incoming, own: seq<Entry>, opp: seq<Entry>, e: Entry)
    requires Apart(o.side, own, opp) && Sorted(o.side.Opposite(), opp) && e.price == o.price
    ensures var m := Match(o.side, o.price, o.quantity, opp);
            Apart(o.side, own, m.book) && (m.left > 0 ==> Apart(o.side, Insert(o.side, own, e), m.book))
  {
    var m := Match(o.side, o.price, o.quantity, opp);
    assert Apart(o.side, own, m.book) by {
      MatchLeavesSuffix(o.side, o.price, o.quantity, opp);
    }
    if m.left > 0 {
      MatchTradesDepth(o.side, o.price, o.quantity, opp);
      InsertStaysApart(o.side, own, m.book, e);
    }
  }

  lemma InsertStaysApart(side: Side, own: seq<Entry>, opp: seq<Entry>, e: Entry)
    requires Apart(side, own, opp) && forall j :: 0 <= j < |opp| ==> !Crosses(side, e.price, opp[j].price)
    ensures Apart(side, Insert(side, own, e), opp)
  {
    InsertAt(side, own, e);
  }

  lemma AddKeepsLists(s: State, o: Incoming)
    requires Inv(s) && ValidOrder(s, o) && s.free != []
    ensures var t := Add(s, o).state;
            ListOk(Buy, t.bids, |t.bidExcess|, t.clock) && ListOk(Sell, t.asks, |t.askExcess|, t.clock)
  {
    var opp, t := s.Of(o.side.Opposite()), Add(s, o).state;
    AddLists(s, o);
    ListsOkEitherWay(s, o.side);
    var m := Match(o.side, o.price, o.quantity, opp);
    MatchKeepsListOk(o.side, o.price, o.quantity, opp, |s.bidExcess|, s.clock);
    InsertKeepsListOk(o.side, s.Of(o.side), Entry(s.free[|s.free| - 1], o.id, o.price, m.left, s.clock), |s.bidExcess|);
    ListsOkEitherWay(t, o.side);
  }

  lemma AddKeepsInv(s: State, o: Incoming)
    requires Inv(s) && ValidOrder(s, o)
    ensures Inv(Add(s, o).state)
  {
    if s.free != [] {
      AddKeepsSlots(s, o);
      AddKeepsUncrossed(s, o);
      AddKeepsLists(s, o);
    }
  }

  lemma CancelKeepsSlots(s: State, id: Word64)
    requires s.Shaped() && SlotsOk(s, multiset{}) && TableOk(s)
    ensures SlotsOk(Cancel(s, id).state, multiset{}) && TableOk(Cancel(s, id).state)
  {
    match s.Locate(id)
    case Nowhere =>
    case At(side, i) =>
      var list, t := s.Of(side), Cancel(s, id).state;
      ListedOnce(s, multiset{}, side, i);
      SlotsWithout(list, i);
      OwnCellEitherWay(s, side);
      CellCleared(s.table, s.free, list, i);
      OwnCellEitherWay(t, side);
  }

  lemma CellCleared(table: seq<int>, free: seq<nat>, list: seq<Entry>, i: nat)
    requires |table| > 0 && NoDangling(table, free) && OwnCell(table, list) && i < |list|
    ensures var t := table[list[i].id % |table| := NULL];
            NoDangling(t, free + [list[i].slot]) && OwnCell(t, Without<Entry>(list, i))
  {
  }

  lemma OwnCellEitherWay(s: State, side: Side)
    requires s.Shaped()
    ensures OwnCell(s.table, s.bids) && OwnCell(s.table, s.asks) <==>
            OwnCell(s.table, s.Of(side)) && OwnCell(s.table, s.Of(side.Opposite()))
  {
  }

  /** Replacing a list by one whose entries all come from it, in order, keeps the order invariants. */
  lemma ThinnedListOk(s: State, t: State, side: Side, from: seq<nat>)
    requires s.Shaped() && t.Shaped() && |s.bidExcess| == |t.bidExcess| && s.clock == t.clock
    requires s.Of(side.Opposite()) == t.Of(side.Opposite())
    requires |from| == |t.Of(side)| && forall i :: 0 <= i < |from| ==> from[i] < |s.Of(side)|
    requires forall i, j :: 0 <= i < j < |from| ==> from[i] < from[j]
    requires forall i :: 0 <= i < |from| ==>
               t.Of(side)[i].price == s.Of(side)[from[i]].price && t.Of(side)[i].stamp == s.Of(side)[from[i]].stamp
    requires ListOk(Buy, s.bids, |s.bidExcess|, s.clock) && ListOk(Sell, s.asks, |s.askExcess|, s.clock)
    requires Uncrossed(s.bids, s.asks)
    ensures ListOk(Buy, t.bids, |t.bidExcess|, t.clock) && ListOk(Sell, t.asks, |t.askExcess|, t.clock)
    ensures Uncrossed(t.bids, t.asks)
  {
    ListsOkEitherWay(s, side);
    UncrossedEitherWay(s, side);
    forall i, j | 0 <= i < j < |t.Of(side)|
      ensures Before(side, t.Of(side)[i], t.Of(side)[j])
    {
      assert Before(side, s.Of(side)[from[i]], s.Of(side)[from[j]]);
    }
    ListsOkEitherWay(t, side);
    UncrossedEitherWay(t, side);
  }

  lemma CancelKeepsLists(s: State, id: Word64)
    requires s.Shaped() && Uncrossed(s.bids, s.asks)
    requires ListOk(Buy, s.bids, |s.bidExcess|, s.clock) && ListOk(Sell, s.asks, |s.askExcess|, s.clock)
    ensures var t := Cancel(s, id).state;
            && ListOk(Buy, t.bids, |t.bidExcess|, t.clock) && ListOk(Sell, t.asks, |t.askExcess|, t.clock)
            && Uncrossed(t.bids, t.asks)
  {
    match s.Locate(id)
    case Nowhere =>
    case At(side, i) =>
      ThinnedListOk(s, Cancel(s, id).state, side, seq(|s.Of(side)| - 1, j => if j < i then j else j + 1));
  }

  lemma CancelKeepsInv(s: State, id: Word64)
    requires Inv(s)
    ensures Inv(Cancel(s, id).state)
  {
    match s.Locate(id)
    case Nowhere =>
    case At(side, i) =>
      CancelKeepsSlots(s, id);
      CancelKeepsLists(s, id);
  }

  lemma DecreaseKeepsInv(s: State, side: Side, i: nat, quantity: nat)
    requires Inv(s) && i < |s.Of(side)|
    ensures Inv(s.With(side, s.Of(side)[i := s.Of(side)[i].(remaining := quantity)]))
  {
    var l := s.Of(side)[i := s.Of(side)[i].(remaining := quantity)];
    var t := s.With(side, l);
    assert Slots(l) == Slots(s.Of(side));
    OwnCellEitherWay(s, side);
    OwnCellEitherWay(t, side);
    ThinnedListOk(s, t, side, seq(|l|, j => j));
  }

  lemma ModifyKeepsInv(s: State, id: Word64, quantity: Word64)
    requires Inv(s)
    ensures Inv(Modify(s, id, quantity).state)
  {
    match s.Locate(id)
    case Nowhere =>
    case At(side, i) =>
      var e := s.Of(side)[i];
      if quantity <= e.remaining {
        DecreaseKeepsInv(s, side, i, quantity);
      } else {
        CancelKeepsInv(s, id);
        AddKeepsInv(Cancel(s, id).state, Incoming(id, side, e.price, quantity));
      }
  }

  /** On an uncrossed book an increase re-queues the order without trading, and cannot run out of slots. */
  lemma ModifyNeverTrades(s: State, id: Word64, quantity: Word64)
    requires Inv(s)
    ensures Modify(s, id, quantity).fills == []
    ensures Modify(s, id, quantity).slot == (if s.Locate(id).At? then s.table[s.Cell(id)] else NULL)
  {
    match s.Locate(id)
    case Nowhere =>
    case At(side, i) =>
      UncrossedEitherWay(s, side);
      assert s.Of(side)[i].price == s.Of(side)[i].price;
  }

  lemma StepKeepsInv(s: State, op: Op)
    requires Inv(s) && ValidOp(s, op)
    ensures Inv(Step(s, op).state)
    ensures |Step(s, op).state.bidExcess| == |s.bidExcess|
  {
    match op
    case AddOp(o) => AddKeepsInv(s, o);
    case CancelOp(id) => CancelKeepsInv(s, id);
    case ModifyOp(id, quantity) => ModifyKeepsInv(s, id, quantity);
  }

  lemma InvParts(m: State)
    requires Inv(m)
    ensures m.Shaped() && SlotsOk(m, multiset{}) && TableOk(m)
  {
  }

  /** A located order rests at a valid price. */
  lemma LocatedPrice(s: State, id: Word64)
    requires Inv(s) && s.Locate(id).At?
    ensures 0 <= s.Of(s.Locate(id).side)[s.Locate(id).index].price < |s.bidExcess|
  {
    ListsOkEitherWay(s, s.Locate(id).side);
  }

  /** Counting the slots of a book: resting, leaked and free ones make up the pool. */
  lemma CountSlots(m: State)
    requires Inv(m)
    ensures |m.bids| + |m.asks| + |m.free| + |m.leaked| == |m.table|
  {
    assert |Slots(m.bids)| == |m.bids| && |Slots(m.asks)| == |m.asks|;
    assert |multiset(Slots(m.bids)) + multiset(Slots(m.asks)) + multiset(m.free) + multiset(m.leaked) + multiset{}|
        == |m.bids| + |m.asks| + |m.free| + |m.leaked|;
  }

  // ----- Runs

  function Run(s: State, ops: seq<Op>): (t: State)
    requires s.Shaped()
    ensures t.Shaped() && |t.table| == |s.table|
    decreases |ops|
  {
    if ops == [] then s else Run(Step(s, ops[0]).state, ops[1..])
  }

  ghost predicate ValidOps(s: State, ops: seq<Op>) {
    forall i :: 0 <= i < |ops| ==> ValidOp(s, ops[i])
  }

  /** Safety over whole runs: whatever is added, cancelled and modified, in any order, the book stays
      uncrossed and sorted, slots are conserved, and the id table never refers to a free slot. */
  lemma {:induction false} RunKeepsInv(s: State, ops: seq<Op>)
    requires Inv(s) && ValidOps(s, ops)
    ensures Inv(Run(s, ops))
    decreases |ops|
  {
    if ops == [] {
    } else {
      StepKeepsInv(s, ops[0]);
      RunKeepsInv(Step(s, ops[0]).state, ops[1..]);
    }
  }

  /** The free stack of a new pool: slot 0 on top. */
  function Down(n: nat): seq<nat> {
    seq(n, i requires 0 <= i < n => n - 1 - i)
  }

  function Empty(capacity: nat, ticks: nat): State {
    State([], [], seq(capacity, _ => NULL), Down(capacity), {},
          seq(ticks, _ => 0), seq(ticks, _ => 0), 0, 0, 0)
  }

  lemma DownStep(last: nat)
    ensures Down(last + 1) == [last] + Down(last)
  {
  }

  lemma AllSlotsStep(last: nat)
    ensures multiset(AllSlots(last + 1)) == multiset(AllSlots(last)) + multiset{last}
  {
    assert last !in AllSlots(last);
  }

  lemma {:induction false} Countdown(n: nat)
    ensures multiset(Down(n)) == multiset(AllSlots(n))
  {
    hide Down, AllSlots;
    if n == 0 {
      DownNone();
    } else {
      Countdown(n - 1);
      DownStep(n - 1);
      AllSlotsStep(n - 1);
    }
  }

  lemma DownNone()
    ensures Down(0) == [] && AllSlots(0) == {}
  {
  }

  lemma EmptyInv(capacity: nat, ticks: nat)
    requires capacity > 0
    ensures Inv(Empty(capacity, ticks))
  {
    Countdown(capacity);
    var s := Empty(capacity, ticks);
    assert Slots(s.bids) == [] && Slots(s.asks) == [];
  }
}
