/** Where the cached figures and the id table drift from the orders, and exactly when. Three expectations
    of the repository's tests and comments are false of the code; here is the exact condition under which the
    code meets each of them. `BookRuns` has the runs that break them. */
module BookAccounting {
  import opened Types
  import opened Matcher
  import opened BookSpec
  import opened BookInvariant
  import opened BookLaws

  /** What a level's `total_quantity` holds. `OrderBook.LevelFigures` ties it to the stored levels. */
  function CachedTotal(s: State, side: Side, p: nat): Word64
    requires p < |s.Excess(side)|
  {
    Wrap64(DepthAt(s.Of(side), p) + s.Excess(side)[p])
  }

  // ----- Level totals

  /** How far an operation pushes the total of level `p` above the truth: by what its aggressor had
      already traded when the rest of it was queued there. */
  function Drift(s: State, op: Op, side: Side, p: nat): nat
    requires s.Shaped()
  {
    if op.AddOp? && op.order.side == side && op.order.price == p && Step(s, op).slot != NULL &&
       Traded(Step(s, op).fills) < op.order.quantity
    then Traded(Step(s, op).fills)
    else 0
  }

  function TotalDrift(s: State, ops: seq<Op>, side: Side, p: nat): nat
    requires s.Shaped()
    decreases |ops|
  {
    if ops == [] then 0 else Drift(s, ops[0], side, p) + TotalDrift(Step(s, ops[0]).state, ops[1..], side, p)
  }

  lemma AddDrifts(s: State, o: Incoming, side: Side, p: nat)
    requires s.Shaped() && ValidOrder(s, o) && p < |s.bidExcess|
    ensures var t := Add(s, o).state;
            |t.bidExcess| == |s.bidExcess| && t.Excess(side)[p] == s.Excess(side)[p] + Drift(s, AddOp(o), side, p)
  {
    hide Traded, Insert;
    if s.free != [] {
      RestingMatch(o.side, o.price, o.quantity, s.Of(o.side.Opposite()));
    }
  }

  lemma StepDrifts(s: State, op: Op, side: Side, p: nat)
    requires s.Shaped() && Inv(s) && ValidOp(s, op) && p < |s.bidExcess|
    ensures |Step(s, op).state.bidExcess| == |s.bidExcess|
    ensures Step(s, op).state.Excess(side)[p] == s.Excess(side)[p] + Drift(s, op, side, p)
  {
    hide Inv, Traded, Add;
    match op
    case AddOp(o) => AddDrifts(s, o, side, p);
    case CancelOp(id) =>
    case ModifyOp(id, quantity) =>
      if s.Locate(id).At? && quantity > s.Of(s.Locate(id).side)[s.Locate(id).index].remaining {
        var o := Incoming(id, s.Locate(id).side, s.Of(s.Locate(id).side)[s.Locate(id).index].price, quantity);
        ModifyNeverTrades(s, id, quantity);
        LocatedPrice(s, id);
        AddDrifts(Cancel(s, id).state, o, side, p);
        assert Traded([]) == 0 by { TradedNothing(); }
      }
  }

  /** Over any run, a level's total exceeds the quantity resting there by exactly the amounts that orders
      had already filled when they came to rest there, modulo the machine word. */
  lemma {:induction false} RunTotals(s: State, ops: seq<Op>, side: Side, p: nat)
    requires s.Shaped() && Inv(s) && ValidOps(s, ops) && p < |s.bidExcess|
    ensures |Run(s, ops).Excess(side)| == |s.bidExcess|
    ensures Run(s, ops).Excess(side)[p] == s.Excess(side)[p] + TotalDrift(s, ops, side, p)
    ensures CachedTotal(Run(s, ops), side, p)
         == Wrap64(DepthAt(Run(s, ops).Of(side), p) + s.Excess(side)[p] + TotalDrift(s, ops, side, p))
    decreases |ops|
  {
    hide Inv, Step, Drift, DepthAt;
    if ops == [] {
    } else {
      StepDrifts(s, ops[0], side, p);
      StepKeepsInv(s, ops[0]);
      RunTotals(Step(s, ops[0]).state, ops[1..], side, p);
    }
  }

  /** An add keeps an exact level total exact if and only if its order trades nothing or trades in full:
      the crossable depth is zero or covers it. */
  lemma AddKeepsTotalIff(s: State, o: Incoming)
    requires s.Shaped() && Inv(s) && ValidOrder(s, o) && s.free != [] && s.Excess(o.side)[o.price] == 0
    ensures var t, depth := Add(s, o).state, Depth(o.side, o.price, s.Of(o.side.Opposite()));
            && |t.Excess(o.side)| == |s.bidExcess|
            && (CachedTotal(t, o.side, o.price) == Wrap64(DepthAt(t.Of(o.side), o.price)) <==>
                depth == 0 || depth >= o.quantity)
  {
    hide Inv, DepthAt, Insert, Match, Traded, Retired, Unindexed;
    AddDrifts(s, o, o.side, o.price);
    LeftIffShallow(s, o);
    WrapShift(DepthAt(Add(s, o).state.Of(o.side), o.price), Drift(s, AddOp(o), o.side, o.price));
  }

  lemma WrapShift(d: int, x: int)
    requires 0 <= x < TWO64
    ensures Wrap64(d + x) == Wrap64(d) <==> x == 0
  {
  }

  // ----- Slots held by filled aggressors

  function Leaks(s: State, op: Op): nat
    requires s.Shaped()
  {
    if op.AddOp? && Step(s, op).slot != NULL && Traded(Step(s, op).fills) == op.order.quantity then 1 else 0
  }

  function TotalLeaks(s: State, ops: seq<Op>): nat
    requires s.Shaped()
    decreases |ops|
  {
    if ops == [] then 0 else Leaks(s, ops[0]) + TotalLeaks(Step(s, ops[0]).state, ops[1..])
  }

  lemma AddLeaks(s: State, o: Incoming)
    requires s.Shaped() && Inv(s)
    ensures |Add(s, o).state.leaked| == |s.leaked| + Leaks(s, AddOp(o))
    ensures s.free != [] ==>
              (Leaks(s, AddOp(o)) == 1 <==> Depth(o.side, o.price, s.Of(o.side.Opposite())) >= o.quantity)
  {
    if s.free != [] {
      FreeOnce(s, multiset{}, |s.free| - 1);
      ListsOkEitherWay(s, o.side);
      RestingMatch(o.side, o.price, o.quantity, s.Of(o.side.Opposite()));
      MatchTradesDepth(o.side, o.price, o.quantity, s.Of(o.side.Opposite()));
    }
  }

  lemma StepLeaks(s: State, op: Op)
    requires s.Shaped() && Inv(s)
    ensures |Step(s, op).state.leaked| == |s.leaked| + Leaks(s, op)
  {
    hide Inv, Traded, Add;
    match op
    case AddOp(o) => AddLeaks(s, o);
    case CancelOp(id) =>
    case ModifyOp(id, quantity) =>
      if s.Locate(id).At? && quantity > s.Of(s.Locate(id).side)[s.Locate(id).index].remaining {
        var o := Incoming(id, s.Locate(id).side, s.Of(s.Locate(id).side)[s.Locate(id).index].price, quantity);
        ModifyNeverTrades(s, id, quantity);
        CancelKeepsInv(s, id);
        AddLeaks(Cancel(s, id).state, o);
        assert Traded([]) == 0 by { TradedNothing(); }
      }
  }

  /** Over any run, the slots in use are the resting orders plus one for each aggressor that was filled
      outright; so `order_count` is the number of resting orders if and only if there was none. */
  lemma {:induction false} RunCounts(s: State, ops: seq<Op>)
    requires s.Shaped() && Inv(s) && ValidOps(s, ops)
    ensures var t := Run(s, ops);
            |t.table| - |t.free| == |t.bids| + |t.asks| + |s.leaked| + TotalLeaks(s, ops)
    decreases |ops|
  {
    if ops == [] {
      CountSlots(s);
    } else {
      hide Inv, Step, Leaks;
      StepLeaks(s, ops[0]);
      StepKeepsInv(s, ops[0]);
      RunCounts(Step(s, ops[0]).state, ops[1..]);
    }
  }

  // ----- Orders the id table has lost

  /** Every resting order can be reached through its id. */
  ghost predicate Indexed(s: State)
    requires s.Shaped()
  {
    forall side, i :: 0 <= i < |s.Of(side)| ==> s.table[s.Cell(s.Of(side)[i].id)] == s.Of(side)[i].slot
  }

  /** How many opposite orders an aggressor would consume whole. */
  function Consumes(side: Side, limit: int, qty: nat, opp: seq<Entry>): nat {
    if qty == 0 || opp == [] || !Crosses(side, limit, opp[0].price) || qty < opp[0].remaining then 0
    else 1 + Consumes(side, limit, qty - opp[0].remaining, opp[1..])
  }

  lemma {:induction false} ConsumesIsRetired(side: Side, limit: int, qty: nat, opp: seq<Entry>)
    ensures Consumes(side, limit, qty, opp) == |opp| - |Match(side, limit, qty, opp).book|
    decreases |opp|
  {
    if qty > 0 && opp != [] && Crosses(side, limit, opp[0].price) && opp[0].remaining <= qty {
      ConsumesIsRetired(side, limit, qty - opp[0].remaining, opp[1..]);
    }
  }

  /** The cells an aggressor's fills clear are those of the orders it consumed whole. */
  lemma {:induction false} ClearedCells(side: Side, limit: int, qty: nat, opp: seq<Entry>, table: seq<int>, k: nat)
    requires k < |table|
    ensures var o := Match(side, limit, qty, opp);
            Unindexed(table, o.fills)[k]
            == if exists i :: 0 <= i < Consumes(side, limit, qty, opp) && i < |opp| && opp[i].id % |table| == k then
                 NULL else table[k]
    decreases |opp|
  {
    var o := Match(side, limit, qty, opp);
    if qty > 0 && opp != [] && Crosses(side, limit, opp[0].price) {
      if qty < opp[0].remaining {
        assert o.fills[1..] == [];
      } else {
        var table1 := table[opp[0].id % |table| := NULL];
        ClearedCells(side, limit, qty - opp[0].remaining, opp[1..], table1, k);
        assert o.fills[1..] == Match(side, limit, qty - opp[0].remaining, opp[1..]).fills;
        var n := Consumes(side, limit, qty, opp);
        assert forall i :: 0 <= i < n - 1 && i < |opp[1..]| ==> opp[1..][i] == opp[i + 1];
        if opp[0].id % |table| != k && exists i :: 0 <= i < n && i < |opp| && opp[i].id % |table| == k {
          var i :| 0 <= i < n && i < |opp| && opp[i].id % |table| == k;
          assert opp[1..][i - 1].id % |table| == k;
        }
      }
    }
  }

  lemma AddTable(s: State, o: Incoming)
    requires s.Shaped() && s.free != []
    ensures var m := Match(o.side, o.price, o.quantity, s.Of(o.side.Opposite()));
            Add(s, o).state.table == Unindexed(s.table[s.Cell(o.id) := s.free[|s.free| - 1]], m.fills)
  {
    hide Match, Traded, Retired, Insert, Unindexed;
  }

  /** The id cell of an order after an add, for an order listed before it. */
  lemma CellAfterAdd(s: State, o: Incoming, side: Side, i: nat)
    requires Inv(s) && s.free != [] && Indexed(s) && i < |s.Of(side)|
    requires side == o.side.Opposite() ==> i >= Consumes(o.side, o.price, o.quantity, s.Of(side))
    ensures var e, t := s.Of(side)[i], Add(s, o).state;
            && (e.slot == s.table[s.Cell(o.id)] <==> s.Cell(e.id) == s.Cell(o.id))
            && t.table[s.Cell(e.id)] == (if s.Cell(e.id) == s.Cell(o.id) then s.free[|s.free| - 1] else e.slot)
            && s.free[|s.free| - 1] != e.slot
  {
    hide TableOk, Uncrossed, ListOk, Match, Consumes, Add, SlotsOk;
    AddTable(s, o);
    var e, opp, slot := s.Of(side)[i], s.Of(o.side.Opposite()), s.free[|s.free| - 1];
    var table1 := s.table[s.Cell(o.id) := slot];
    ListedOnce(s, multiset{}, side, i);
    ClearedCells(o.side, o.price, o.quantity, opp, table1, s.Cell(e.id));
    forall j | 0 <= j < Consumes(o.side, o.price, o.quantity, opp) && j < |opp|
      ensures opp[j].id % |s.table| != s.Cell(e.id)
    {
      assert s.table[s.Cell(opp[j].id)] == opp[j].slot;
    }
    OwnCellOf(s, side, i, s.Cell(o.id));
  }

  lemma OwnCellOf(s: State, side: Side, i: nat, k: nat)
    requires s.Shaped() && TableOk(s) && i < |s.Of(side)| && k < |s.table|
    ensures s.table[k] == s.Of(side)[i].slot ==> k == s.Cell(s.Of(side)[i].id)
  {
    OwnCellEitherWay(s, side);
  }

  /** The id cell of the new order itself after an add. */
  lemma OwnCellAfterAdd(s: State, o: Incoming)
    requires Inv(s) && s.free != [] && Indexed(s)
    ensures var opp, c := s.Of(o.side.Opposite()), s.table[s.Cell(o.id)];
            Add(s, o).state.table[s.Cell(o.id)]
            == if exists i :: 0 <= i < Consumes(o.side, o.price, o.quantity, opp) && i < |opp| && opp[i].slot == c then
                 NULL
               else s.free[|s.free| - 1]
  {
    hide TableOk, Uncrossed, ListOk, SlotsOk;
    var opp, slot, c := s.Of(o.side.Opposite()), s.free[|s.free| - 1], s.table[s.Cell(o.id)];
    var n := Consumes(o.side, o.price, o.quantity, opp);
    ClearedCells(o.side, o.price, o.quantity, opp, s.table[s.Cell(o.id) := slot], s.Cell(o.id));
    forall i | 0 <= i < n && i < |opp|
      ensures opp[i].id % |s.table| == s.Cell(o.id) <==> opp[i].slot == c
    {
      assert s.table[s.Cell(opp[i].id)] == opp[i].slot;
      OwnCellOf(s, o.side.Opposite(), i, s.Cell(o.id));
    }
  }

  /** The new id's cell leads to no resting order, or to one that this very order consumes while being
      filled in full. */
  ghost predicate KeepsIndex(s: State, o: Incoming)
    requires s.Shaped()
  {
    forall side, i :: 0 <= i < |s.Of(side)| && s.Of(side)[i].slot == s.table[s.Cell(o.id)] ==>
      && side == o.side.Opposite()
      && i < Consumes(o.side, o.price, o.quantity, s.Of(side))
      && Depth(o.side, o.price, s.Of(side)) >= o.quantity
  }

  /** Where a listed order that an add does not consume is found afterwards. */
  lemma Survivor(s: State, o: Incoming, side: Side, i: nat) returns (j: nat)
    requires s.Shaped() && s.free != [] && i < |s.Of(side)|
    requires side == o.side.Opposite() ==> i >= Consumes(o.side, o.price, o.quantity, s.Of(side))
    ensures var t := Add(s, o).state;
            j < |t.Of(side)| && t.Of(side)[j].slot == s.Of(side)[i].slot && t.Of(side)[j].id == s.Of(side)[i].id
  {
    var opp := s.Of(o.side.Opposite());
    AddLists(s, o);
    if side == o.side.Opposite() {
      MatchLeavesSuffix(o.side, o.price, o.quantity, opp);
      ConsumesIsRetired(o.side, o.price, o.quantity, opp);
      j := i - Consumes(o.side, o.price, o.quantity, opp);
    } else {
      var m := Match(o.side, o.price, o.quantity, opp);
      var e := Entry(s.free[|s.free| - 1], o.id, o.price, m.left, s.clock);
      InsertAt(o.side, s.Of(side), e);
      j := if m.left > 0 && i >= Rank(o.side, s.Of(side), o.price) then i + 1 else i;
    }
  }

  /** Where an order listed after an add comes from: an earlier listed order, or (-1) the new one. */
  lemma Origin(s: State, o: Incoming, side: Side, j: nat) returns (i: int)
    requires s.Shaped() && s.free != [] && j < |Add(s, o).state.Of(side)|
    ensures var t := Add(s, o).state;
            if i < 0 then
              && side == o.side && t.Of(side)[j].slot == s.free[|s.free| - 1] && t.Of(side)[j].id == o.id
              && Match(o.side, o.price, o.quantity, s.Of(o.side.Opposite())).left > 0
            else
              && i < |s.Of(side)| && t.Of(side)[j].slot == s.Of(side)[i].slot && t.Of(side)[j].id == s.Of(side)[i].id
              && (side == o.side.Opposite() ==> i >= Consumes(o.side, o.price, o.quantity, s.Of(side)))
  {
    hide Add, Match;
    var opp := s.Of(o.side.Opposite());
    AddLists(s, o);
    if side == o.side.Opposite() {
      MatchLeavesSuffix(o.side, o.price, o.quantity, opp);
      ConsumesIsRetired(o.side, o.price, o.quantity, opp);
      i := j + Consumes(o.side, o.price, o.quantity, opp);
    } else {
      assert side == o.side;
      var m := Match(o.side, o.price, o.quantity, opp);
      var e := Entry(s.free[|s.free| - 1], o.id, o.price, m.left, s.clock);
      var k := Rank(side, s.Of(side), e.price);
      InsertAt(side, s.Of(side), e);
      if m.left == 0 {
        i := j;
      } else {
        var l := Insert(side, s.Of(side), e);
        assert Add(s, o).state.Of(side) == l;
        assert l[j] == if j < k then s.Of(side)[j] else if j == k then e else s.Of(side)[j - 1];
        i := if j < k then j else if j == k then -1 else j - 1;
      }
    }
  }

  lemma KeptIndexed(s: State, o: Incoming)
    requires s.Shaped() && Inv(s) && s.free != [] && Indexed(s) && KeepsIndex(s, o)
    ensures Indexed(Add(s, o).state)
  {
    hide Inv, Add, Match;
    var t := Add(s, o).state;
    forall side, j | 0 <= j < |t.Of(side)|
      ensures t.table[t.Cell(t.Of(side)[j].id)] == t.Of(side)[j].slot
    {
      var i := Origin(s, o, side, j);
      if i >= 0 {
        CellAfterAdd(s, o, side, i);
      } else {
        OwnCellAfterAdd(s, o);
        LeftIffShallow(s, o);
      }
    }
  }

  lemma LeftIffShallow(s: State, o: Incoming)
    requires Inv(s)
    ensures var opp := s.Of(o.side.Opposite());
            Traded(Match(o.side, o.price, o.quantity, opp).fills) == Min(o.quantity, Depth(o.side, o.price, opp))
    ensures var opp := s.Of(o.side.Opposite());
            Match(o.side, o.price, o.quantity, opp).left > 0 <==> Depth(o.side, o.price, opp) < o.quantity
  {
    ListsOkEitherWay(s, o.side);
    MatchTradesDepth(o.side, o.price, o.quantity, s.Of(o.side.Opposite()));
  }

  lemma IndexBroken(s: State, o: Incoming)
    requires s.Shaped() && Inv(s) && s.free != [] && Indexed(s) && !KeepsIndex(s, o)
    ensures !Indexed(Add(s, o).state)
  {
    hide Inv, Add, Match;
    var t := Add(s, o).state;
    var side, i :| 0 <= i < |s.Of(side)| && s.Of(side)[i].slot == s.table[s.Cell(o.id)] &&
                   !(side == o.side.Opposite() && i < Consumes(o.side, o.price, o.quantity, s.Of(side)) &&
                     Depth(o.side, o.price, s.Of(side)) >= o.quantity);
    if side == o.side.Opposite() && i < Consumes(o.side, o.price, o.quantity, s.Of(side)) {
      OwnCellAfterAdd(s, o);
      LeftIffShallow(s, o);
      var k := NewcomerListed(s, o);
      assert t.table[t.Cell(t.Of(o.side)[k].id)] != t.Of(o.side)[k].slot;
    } else {
      CellAfterAdd(s, o, side, i);
      var j := Survivor(s, o, side, i);
      assert t.table[t.Cell(t.Of(side)[j].id)] != t.Of(side)[j].slot;
    }
  }

  lemma NewcomerListed(s: State, o: Incoming) returns (k: nat)
    requires s.Shaped() && s.free != [] && Match(o.side, o.price, o.quantity, s.Of(o.side.Opposite())).left > 0
    ensures var t := Add(s, o).state;
            k < |t.Of(o.side)| && t.Of(o.side)[k].slot == s.free[|s.free| - 1] && t.Of(o.side)[k].id == o.id
  {
    AddLists(s, o);
    k := Rank(o.side, s.Of(o.side), o.price);
  }

  /** An add keeps every resting order reachable through its id if and only if the new id's cell of the
      table leads to no resting order, or to one that the new order consumes while being filled in full. */
  lemma AddKeepsIndexIff(s: State, o: Incoming)
    requires s.Shaped() && Inv(s) && s.free != [] && Indexed(s)
    ensures Indexed(Add(s, o).state) <==> KeepsIndex(s, o)
  {
    hide Inv, Indexed, KeepsIndex;
    if KeepsIndex(s, o) {
      KeptIndexed(s, o);
    } else {
      IndexBroken(s, o);
    }
  }
}
