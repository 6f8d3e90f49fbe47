/** Operations that undo each other, commute, or leave things where they are. */
module BookIdentities {
  import opened Types
  import opened Matcher
  import opened BookSpec
  import opened BookInvariant

  /** The id table leads to entry `i` of a side when that entry's slot is in the id's cell and carries the id. */
  lemma LocateIs(s: State, id: Word64, side: Side, i: nat)
    requires s.Shaped() && SlotsOk(s, multiset{}) && i < |s.Of(side)|
    requires s.Of(side)[i].slot == s.table[s.Cell(id)]
    ensures s.Locate(id) == (if s.Of(side)[i].id == id then At(side, i) else Nowhere)
  {
    ListedOnce(s, multiset{}, side, i);
    var slot := s.table[s.Cell(id)];
    FindNone(s.Of(side.Opposite()), slot);
    FindOnly(s.Of(side), slot, i);
  }

  lemma FindNone(list: seq<Entry>, slot: int)
    requires forall j :: 0 <= j < |list| ==> list[j].slot != slot
    ensures Find(list, slot) == -1
  {
  }

  lemma FindOnly(list: seq<Entry>, slot: int, i: nat)
    requires i < |list| && list[i].slot == slot && forall j :: 0 <= j < |list| && list[j].slot == slot ==> j == i
    ensures Find(list, slot) == i
  {
    assert list[i].slot == slot;
  }

  /** A resting order can be cancelled and modified by its id exactly while the id table still points to it. */
  lemma CancellableIffIndexed(s: State, side: Side, i: nat)
    requires Inv(s) && i < |s.Of(side)|
    ensures s.Locate(s.Of(side)[i].id) == At(side, i) <==> s.table[s.Cell(s.Of(side)[i].id)] == s.Of(side)[i].slot
  {
    hide TableOk, SlotsOk;
    if s.table[s.Cell(s.Of(side)[i].id)] == s.Of(side)[i].slot {
      LocateIs(s, s.Of(side)[i].id, side, i);
    }
  }

  // ----- Modify

  /** A decrease changes one remaining quantity and nothing else: every queue position and stamp is kept. */
  lemma ModifyDecreases(s: State, id: Word64, quantity: Word64)
    requires Inv(s) && s.Locate(id).At? && quantity <= s.Of(s.Locate(id).side)[s.Locate(id).index].remaining
    ensures var t, side, i := Modify(s, id, quantity).state, s.Locate(id).side, s.Locate(id).index;
            && t.Locate(id) == At(side, i) && t.Of(side)[i].remaining == quantity
            && t == s.With(side, t.Of(side))
            && |t.Of(side)| == |s.Of(side)|
            && forall j :: 0 <= j < |t.Of(side)| ==>
                 t.Of(side)[j] == s.Of(side)[j].(remaining := t.Of(side)[j].remaining) &&
                   (j != i ==> t.Of(side)[j] == s.Of(side)[j])
  {
    var t, side, i := Modify(s, id, quantity).state, s.Locate(id).side, s.Locate(id).index;
    ModifyKeepsInv(s, id, quantity);
    LocateIs(t, id, side, i);
  }

  /** An increase takes the order out and puts it, with the new quantity and a new stamp, behind everything
      else at its price; the slot, the id table, the free stack and the level excesses end as they were. */
  lemma ModifyIncreases(s: State, id: Word64, quantity: Word64)
    requires Inv(s) && s.Locate(id).At? && quantity > s.Of(s.Locate(id).side)[s.Locate(id).index].remaining
    ensures var t, side, i := Modify(s, id, quantity).state, s.Locate(id).side, s.Locate(id).index;
            var e := s.Of(side)[i].(remaining := quantity, stamp := s.clock);
            && t == s.With(side, Insert(side, Without<Entry>(s.Of(side), i), e)).(clock := s.clock + 1)
            && (forall j :: 0 <= j < |t.Of(side)| && t.Of(side)[j].price == e.price && t.Of(side)[j] != e ==>
                  Before(side, t.Of(side)[j], e))
  {
    var side, i := s.Locate(id).side, s.Locate(id).index;
    var e := s.Of(side)[i].(remaining := quantity, stamp := s.clock);
    hide SlotsOk, TableOk, Modify, Sorted, Uncrossed;
    IncreaseState(s, id, quantity);
    ListsOkEitherWay(s, side);
    NewestIsLast(side, Without<Entry>(s.Of(side), i), e);
  }

  /** An order keeps its place in the queue of its side if and only if its quantity does not grow, or nothing
      rests behind it at its price. */
  lemma ModifyKeepsPlaceIff(s: State, id: Word64, quantity: Word64)
    requires Inv(s) && s.Locate(id).At?
    ensures var side, i := s.Locate(id).side, s.Locate(id).index;
            var list := s.Of(side);
            Slots(Modify(s, id, quantity).state.Of(side)) == Slots(list) <==>
            quantity <= list[i].remaining || i + 1 == |list| || list[i + 1].price != list[i].price
  {
    hide SlotsOk, TableOk, Modify, Uncrossed, Find, Insert;
    var side, i := s.Locate(id).side, s.Locate(id).index;
    var list := s.Of(side);
    if quantity <= list[i].remaining {
      ModifyDecreases(s, id, quantity);
    } else {
      IncreaseState(s, id, quantity);
      ListsOkEitherWay(s, side);
      ListedOnce(s, multiset{}, side, i);
      RequeuedSlots(side, list, i, list[i].(remaining := quantity, stamp := s.clock));
    }
  }

  lemma RequeuedSlots(side: Side, list: seq<Entry>, i: nat, e: Entry)
    requires Sorted(side, list) && i < |list| && e.price == list[i].price && e.slot == list[i].slot
    requires forall j :: 0 <= j < |list| && list[j].slot == e.slot ==> j == i
    ensures Slots(Insert(side, Without<Entry>(list, i), e)) == Slots(list) <==>
            i + 1 == |list| || list[i + 1].price != e.price
  {
    var w := Without<Entry>(list, i);
    var k, l := Rank(side, w, e.price), Insert(side, w, e);
    InsertAt(side, w, e);
    forall j | 0 <= j < i
      ensures NoWorse(side, w[j].price, e.price)
    {
      assert Before(side, list[j], list[i]);
    }
    assert k >= i;
    if i + 1 < |list| {
      assert w[i] == list[i + 1];
      assert Before(side, list[i], list[i + 1]);
      if list[i + 1].price == e.price {
        assert k > i && l[i] == list[i + 1];
        assert Slots(l)[i] != Slots(list)[i];
      } else {
        assert k == i;
      }
    }
    if k == i {
      assert forall j :: 0 <= j < |list| ==> l[j].slot == list[j].slot;
    }
  }

  lemma NewestIsLast(side: Side, list: seq<Entry>, e: Entry)
    requires forall j :: 0 <= j < |list| ==> list[j].stamp < e.stamp
    ensures var l := Insert(side, list, e);
            forall j :: 0 <= j < |l| && l[j].price == e.price && l[j] != e ==> Before(side, l[j], e)
  {
    InsertAt(side, list, e);
  }

  lemma IncreaseState(s: State, id: Word64, quantity: Word64)
    requires Inv(s) && s.Locate(id).At? && quantity > s.Of(s.Locate(id).side)[s.Locate(id).index].remaining
    ensures var side, i := s.Locate(id).side, s.Locate(id).index;
            var e := s.Of(side)[i].(remaining := quantity, stamp := s.clock);
            Modify(s, id, quantity).state
            == s.With(side, Insert(side, Without<Entry>(s.Of(side), i), e)).(clock := s.clock + 1)
  {
    hide SlotsOk, TableOk, Insert;
    var side, i := s.Locate(id).side, s.Locate(id).index;
    var c, o := Cancel(s, id).state, Incoming(id, side, s.Of(side)[i].price, quantity);
    ModifyNeverTrades(s, id, quantity);
    NoTradeAdd(c, o);
    assert c.free[..|c.free| - 1] == s.free;
    assert c.table[s.Cell(id) := s.Of(side)[i].slot] == s.table;
  }

  /** An add that makes no trade rests the whole order. */
  lemma NoTradeAdd(s: State, o: Incoming)
    requires s.Shaped() && s.free != [] && o.quantity > 0
    requires s.Of(o.side.Opposite()) == [] || !Crosses(o.side, o.price, s.Of(o.side.Opposite())[0].price)
    ensures var slot := s.free[|s.free| - 1];
            Add(s, o).state
            == s.With(o.side, Insert(o.side, s.Of(o.side), Entry(slot, o.id, o.price, o.quantity, s.clock))).(
              free := s.free[..|s.free| - 1], table := s.table[s.Cell(o.id) := slot], clock := s.clock + 1)
  {
    hide Insert;
    var slot := s.free[|s.free| - 1];
    assert s.free[..|s.free| - 1] + Retired([]) == s.free[..|s.free| - 1];
    var x := s.Excess(o.side);
    assert 0 <= o.price < |x| ==> x[o.price := x[o.price] + 0] == x;
  }

  // ----- Add, then cancel

  /** An order that does not cross rests whole, and its id leads to it. */
  lemma AddedIsLocated(s: State, o: Incoming) returns (k: nat)
    requires Inv(s) && ValidOrder(s, o) && s.free != []
    requires s.Of(o.side.Opposite()) == [] || !Crosses(o.side, o.price, s.Of(o.side.Opposite())[0].price)
    ensures var a, e := Add(s, o).state, Entry(s.free[|s.free| - 1], o.id, o.price, o.quantity, s.clock);
            && a.Of(o.side) == Insert(o.side, s.Of(o.side), e) && a.Of(o.side.Opposite()) == s.Of(o.side.Opposite())
            && k == Rank(o.side, s.Of(o.side), o.price) < |a.Of(o.side)| && a.Of(o.side)[k] == e
            && a.Locate(o.id) == At(o.side, k)
  {
    hide Add, Cancel, Insert, Find, TableOk, SlotsOk, Uncrossed, ListOk;
    k := Rank(o.side, s.Of(o.side), o.price);
    hide Rank;
    NoTradeAdd(s, o);
    AddKeepsInv(s, o);
    InsertAt(o.side, s.Of(o.side), Entry(s.free[|s.free| - 1], o.id, o.price, o.quantity, s.clock));
    LocateIs(Add(s, o).state, o.id, o.side, k);
  }

  /** Adding an order that does not cross and cancelling it again restores the whole book, free stack
      and level excesses included, exactly when the id's cell of the table was empty before. */
  lemma AddThenCancel(s: State, o: Incoming)
    requires Inv(s) && ValidOrder(s, o) && s.free != []
    requires s.Of(o.side.Opposite()) == [] || !Crosses(o.side, o.price, s.Of(o.side.Opposite())[0].price)
    ensures var t := Cancel(Add(s, o).state, o.id).state;
            && t == s.(clock := s.clock + 1, table := s.table[s.Cell(o.id) := NULL])
            && (t == s.(clock := s.clock + 1) <==> s.table[s.Cell(o.id)] == NULL)
  {
    hide Add, Cancel, Insert, Find, Rank, TableOk, SlotsOk, Uncrossed, ListOk;
    var slot := s.free[|s.free| - 1];
    var k := AddedIsLocated(s, o);
    NoTradeAdd(s, o);
    CancelAdded(s, o, Add(s, o).state, slot, k);
    SetTwice(s.table, s.Cell(o.id), slot);
  }

  lemma CancelAdded(s: State, o: Incoming, a: State, slot: nat, k: nat)
    requires s.Shaped() && s.free != [] && slot == s.free[|s.free| - 1] && k == Rank(o.side, s.Of(o.side), o.price)
    requires a == s.With(o.side, Insert(o.side, s.Of(o.side), Entry(slot, o.id, o.price, o.quantity, s.clock))).(
                    free := s.free[..|s.free| - 1], table := s.table[s.Cell(o.id) := slot], clock := s.clock + 1)
    requires a.Locate(o.id) == At(o.side, k)
    ensures Cancel(a, o.id).state == s.(clock := s.clock + 1, table := s.table[s.Cell(o.id) := NULL])
  {
    hide Insert, Find, Rank;
    var list, e := s.Of(o.side), Entry(slot, o.id, o.price, o.quantity, s.clock);
    WithoutInserted(o.side, list, e);
    PushPopped(s.free);
    SetTwice(s.table, s.Cell(o.id), slot);
  }

  lemma WithoutInserted(side: Side, list: seq<Entry>, e: Entry)
    ensures |Insert(side, list, e)| == |list| + 1 && Insert(side, list, e)[Rank(side, list, e.price)] == e
    ensures Without<Entry>(Insert(side, list, e), Rank(side, list, e.price)) == list
  {
    hide Rank;
  }

  lemma PushPopped(free: seq<nat>)
    requires free != []
    ensures free[..|free| - 1] + [free[|free| - 1]] == free
  {
  }

  lemma SetTwice(table: seq<int>, k: nat, x: int)
    requires k < |table|
    ensures table[k := x][k := NULL] == table[k := NULL]
    ensures table[k := NULL] == table <==> table[k] == NULL
  {
  }

  // ----- Cancels commute

  /** Cancelling one located order does not lose the other; it may move up by one. */
  lemma LocateAfterCancel(s: State, id: Word64, other: Word64)
    requires Inv(s) && id != other && s.Locate(id).At? && s.Locate(other).At?
    ensures var side, i, side', j := s.Locate(id).side, s.Locate(id).index, s.Locate(other).side, s.Locate(other).index;
            && s.Cell(id) != s.Cell(other) && (side == side' ==> i != j)
            && Cancel(s, id).state.Locate(other) == At(side', if side == side' && i < j then j - 1 else j)
  {
    var side, i, side', j := s.Locate(id).side, s.Locate(id).index, s.Locate(other).side, s.Locate(other).index;
    hide TableOk, Uncrossed, ListOk, SlotsOk, Find;
    if s.Cell(id) == s.Cell(other) {
      LocateIs(s, id, side', j);
    }
    ListedOnce(s, multiset{}, side, i);
    CancelKeepsSlots(s, id) by { InvParts(s); }
    var j' := if side == side' && i < j then j - 1 else j;
    EntryAfterCancel(s, id, side', j, j');
    LocateIs(Cancel(s, id).state, other, side', j');
  }

  lemma EntryAfterCancel(s: State, id: Word64, side: Side, j: nat, j': int)
    requires s.Shaped() && s.Locate(id).At? && j < |s.Of(side)|
    requires (side == s.Locate(id).side ==> j != s.Locate(id).index)
    requires j' == if side == s.Locate(id).side && s.Locate(id).index < j then j - 1 else j
    ensures 0 <= j' < |Cancel(s, id).state.Of(side)| && Cancel(s, id).state.Of(side)[j'] == s.Of(side)[j]
    ensures Cancel(s, id).state.table == s.table[s.Cell(id) := NULL]
  {
    hide Find, Without;
  }

  /** Cancels of two different located orders commute: same lists, table and excesses, and the same free
      slots, if in the other order. */
  lemma CancelsCommute(s: State, id: Word64, other: Word64)
    requires Inv(s) && id != other && s.Locate(id).At? && s.Locate(other).At?
    ensures var t := Cancel(Cancel(s, id).state, other).state;
            var u := Cancel(Cancel(s, other).state, id).state;
            t == u.(free := t.free) && multiset(t.free) == multiset(u.free)
  {
    hide Inv, Uncrossed, Find, SlotsOk, TableOk;
    InvParts(s);
    LocateAfterCancel(s, id, other);
    LocateAfterCancel(s, other, id);
    var side, i, side', j := s.Locate(id).side, s.Locate(id).index, s.Locate(other).side, s.Locate(other).index;
    if side == side' {
      WithoutBoth(s.Of(side), i, j);
    }
    PushBoth(s.free, s.Of(side)[i].slot, s.Of(side')[j].slot);
    ClearBoth(s.table, s.Cell(id), s.Cell(other));
  }

  lemma PushBoth(free: seq<nat>, x: nat, y: nat)
    ensures multiset(free + [x] + [y]) == multiset(free + [y] + [x])
  {
  }

  lemma ClearBoth(table: seq<int>, a: nat, b: nat)
    requires a < |table| && b < |table|
    ensures table[a := NULL][b := NULL] == table[b := NULL][a := NULL]
  {
  }

  lemma WithoutBoth(list: seq<Entry>, i: nat, j: nat)
    requires i < |list| && j < |list| && i != j
    ensures Without<Entry>(Without<Entry>(list, i), if i < j then j - 1 else j)
         == Without<Entry>(Without<Entry>(list, j), if j < i then i - 1 else i)
  {
  }
}
