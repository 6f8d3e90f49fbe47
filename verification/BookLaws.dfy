/** What the reference book guarantees across operations and over whole runs. Every statement here is one
    about the running `Book.OrderBook`, whose operations are proved to be these. */
module BookLaws {
  import opened Types
  import opened Matcher
  import opened BookSpec
  import opened BookInvariant

  // ----- Best prices

  /** The best bid is the highest bid, the best ask the lowest ask, and they never meet. */
  lemma BestPrices(s: State)
    requires Inv(s)
    ensures forall i :: 0 <= i < |s.bids| ==> 0 <= s.bids[i].price <= Best(s.bids)
    ensures forall i :: 0 <= i < |s.asks| ==> Best(s.asks) <= s.asks[i].price
    ensures (Best(s.bids) == INVALID_PRICE <==> s.bids == []) && (Best(s.asks) == INVALID_PRICE <==> s.asks == [])
    ensures s.bids == [] || s.asks == [] || Best(s.bids) < Best(s.asks)
  {
    assert forall i :: 0 < i < |s.bids| ==> Before(Buy, s.bids[0], s.bids[i]);
    assert forall i :: 0 < i < |s.asks| ==> Before(Sell, s.asks[0], s.asks[i]);
  }

  // ----- Priority over whole runs

  /** At any point of any run, when an add makes its fill `i`, every opposite order still resting then has
      a worse price, or the same price and a later stamp. */
  lemma RunPriority(s: State, ops: seq<Op>, j: nat, i: nat, k: nat)
    requires Inv(s) && ValidOps(s, ops) && j < |ops| && ops[j].AddOp?
    requires var t := Run(s, ops[..j]);
             i < |Step(t, ops[j]).fills| && k < |t.Of(ops[j].order.side.Opposite())|
    ensures var t, o := Run(s, ops[..j]), ops[j].order;
            var opp, fills := t.Of(o.side.Opposite()), Step(t, ops[j]).fills;
            && i < |opp| && fills[i].slot == opp[i].slot && fills[i].price == opp[i].price
            && Crosses(o.side, o.price, fills[i].price)
            && (k == i || Before(o.side.Opposite(), opp[i], opp[k]) ||
                (k < i && fills[k] == FillOf(opp[k], opp[k].remaining)))
  {
    RunKeepsInv(s, ops[..j]);
    var t, o := Run(s, ops[..j]), ops[j].order;
    ListsOkEitherWay(t, o.side);
    MatchPriority(o.side, o.price, o.quantity, t.Of(o.side.Opposite()), i, k);
    MatchPrices(o.side, o.price, o.quantity, t.Of(o.side.Opposite()));
  }

  // ----- Conservation of quantity

  function Resting(list: seq<Entry>): nat {
    if list == [] then 0 else list[0].remaining + Resting(list[1..])
  }

  /** Quantity an operation brings to a side, takes from it by cancelling, and changes on it by modifying. */
  function Accepted(s: State, op: Op, side: Side): nat
    requires s.Shaped()
  {
    if op.AddOp? && op.order.side == side && Step(s, op).slot != NULL then op.order.quantity else 0
  }

  function Cancelled(s: State, op: Op, side: Side): nat
    requires s.Shaped()
  {
    if op.CancelOp? && s.Locate(op.id).At? && s.Locate(op.id).side == side then
      s.Of(side)[s.Locate(op.id).index].remaining
    else 0
  }

  function Modified(s: State, op: Op, side: Side): int
    requires s.Shaped()
  {
    if op.ModifyOp? && s.Locate(op.id).At? && s.Locate(op.id).side == side then
      op.quantity - s.Of(side)[s.Locate(op.id).index].remaining
    else 0
  }

  lemma {:induction false} RestingAppend(a: seq<Entry>, b: seq<Entry>)
    ensures Resting(a + b) == Resting(a) + Resting(b)
  {
    if a == [] {
      assert a + b == b;
    } else {
      assert (a + b)[1..] == a[1..] + b;
      RestingAppend(a[1..], b);
    }
  }

  lemma RestingCons(e: Entry, rest: seq<Entry>)
    ensures Resting([e] + rest) == e.remaining + Resting(rest)
  {
    assert ([e] + rest)[1..] == rest;
  }

  lemma RestingAround(a: seq<Entry>, e: Entry, b: seq<Entry>)
    ensures Resting(a + ([e] + b)) == Resting(a + b) + e.remaining
  {
    hide Resting;
    RestingAppend(a, [e] + b);
    RestingAppend(a, b);
    RestingCons(e, b);
  }

  lemma RestingAt(list: seq<Entry>, i: nat)
    requires i < |list|
    ensures Resting(list) == Resting(Without<Entry>(list, i)) + list[i].remaining
  {
    hide Resting;
    RestingAround(list[..i], list[i], list[i + 1..]);
    AroundIndex(list, i);
  }

  lemma RestingInsert(side: Side, list: seq<Entry>, e: Entry)
    ensures Resting(Insert(side, list, e)) == Resting(list) + e.remaining
  {
    var k := Rank(side, list, e.price);
    RestingAt(Insert(side, list, e), k);
    assert Without<Entry>(Insert(side, list, e), k) == list;
  }

  lemma {:induction false} RestingMatch(side: Side, limit: int, qty: nat, opp: seq<Entry>)
    ensures var o := Match(side, limit, qty, opp);
            Resting(o.book) + Traded(o.fills) == Resting(opp) && o.left + Traded(o.fills) == qty
    decreases |opp|
  {
    var o := Match(side, limit, qty, opp);
    if qty > 0 && opp != [] && Crosses(side, limit, opp[0].price) {
      if qty < opp[0].remaining {
        assert o.book[1..] == opp[1..] && o.fills[1..] == [];
      } else {
        RestingMatch(side, limit, qty - opp[0].remaining, opp[1..]);
        assert o.fills[1..] == Match(side, limit, qty - opp[0].remaining, opp[1..]).fills;
      }
    }
  }

  lemma AddConserves(s: State, o: Incoming, side: Side)
    requires s.Shaped() && s.free != []
    ensures Resting(Add(s, o).state.Of(side)) + Traded(Add(s, o).fills)
         == Resting(s.Of(side)) + (if side == o.side then o.quantity else 0)
    ensures Add(s, o).state.volume == Wrap64(s.volume + Traded(Add(s, o).fills))
    ensures Add(s, o).state.matchCount == Wrap64(s.matchCount + |Add(s, o).fills|)
  {
    AddLists(s, o);
    RestingMatch(o.side, o.price, o.quantity, s.Of(o.side.Opposite()));
    var m := Match(o.side, o.price, o.quantity, s.Of(o.side.Opposite()));
    RestingInsert(o.side, s.Of(o.side), Entry(s.free[|s.free| - 1], o.id, o.price, m.left, s.clock));
  }

  lemma StepConserves(s: State, op: Op, side: Side)
    requires s.Shaped() && Inv(s)
    ensures Resting(Step(s, op).state.Of(side)) + Traded(Step(s, op).fills) + Cancelled(s, op, side)
         == Resting(s.Of(side)) + Accepted(s, op, side) + Modified(s, op, side)
    ensures Step(s, op).state.volume == Wrap64(s.volume + Traded(Step(s, op).fills))
    ensures Step(s, op).state.matchCount == Wrap64(s.matchCount + |Step(s, op).fills|)
  {
    hide Inv, Modify, Add, Cancel, Traded, Resting, Wrap64;
    match op
    case AddOp(o) => AddOpConserves(s, o, side);
    case CancelOp(id) => CancelOpConserves(s, id, side);
    case ModifyOp(id, quantity) => ModifyOpConserves(s, id, quantity, side);
  }

  lemma ModifyOpConserves(s: State, id: Word64, quantity: Word64, side: Side)
    requires s.Shaped() && Inv(s)
    ensures var r := Modify(s, id, quantity);
            && Resting(r.state.Of(side)) == Resting(s.Of(side)) + Modified(s, ModifyOp(id, quantity), side)
            && Traded(r.fills) == 0 && r.fills == [] && r.state.volume == s.volume && r.state.matchCount == s.matchCount
            && s.volume == Wrap64(s.volume + Traded(r.fills)) && s.matchCount == Wrap64(s.matchCount + |r.fills|)
  {
    hide Inv, Modify, Resting, Modified, Traded, Wrap64;
    ModifyNeverTrades(s, id, quantity);
    ModifyConserves(s, id, quantity, side);
    TradedNothing();
    Unmoved(s.volume);
    Unmoved(s.matchCount);
  }

  lemma TradedNothing()
    ensures Traded([]) == 0
  {
  }

  lemma AddOpConserves(s: State, o: Incoming, side: Side)
    requires s.Shaped()
    ensures Resting(Add(s, o).state.Of(side)) + Traded(Add(s, o).fills)
         == Resting(s.Of(side)) + Accepted(s, AddOp(o), side)
    ensures Add(s, o).state.volume == Wrap64(s.volume + Traded(Add(s, o).fills))
    ensures Add(s, o).state.matchCount == Wrap64(s.matchCount + |Add(s, o).fills|)
  {
    if s.free != [] {
      AddConserves(s, o, side);
    }
  }

  lemma CancelOpConserves(s: State, id: Word64, side: Side)
    requires s.Shaped()
    ensures var r := Cancel(s, id);
            && Resting(r.state.Of(side)) + Cancelled(s, CancelOp(id), side) == Resting(s.Of(side))
            && Traded(r.fills) == 0 && r.fills == [] && r.state.volume == s.volume && r.state.matchCount == s.matchCount
            && s.volume == Wrap64(s.volume + Traded(r.fills)) && s.matchCount == Wrap64(s.matchCount + |r.fills|)
  {
    hide Cancel, Resting, Traded, Wrap64;
    TradedNothing();
    NoFills(s, id);
    Unmoved(s.volume);
    Unmoved(s.matchCount);
    if s.Locate(id).At? {
      CancelConserves(s, id, side);
    }
  }

  lemma NoFills(s: State, id: Word64)
    requires s.Shaped()
    ensures Cancel(s, id).fills == [] && (s.Locate(id) == Nowhere ==> Cancel(s, id).state == s)
  {
  }

  lemma Unmoved(w: Word64)
    ensures w == Wrap64(w + 0)
  {
  }

  lemma CancelConserves(s: State, id: Word64, side: Side)
    requires s.Shaped() && s.Locate(id).At?
    ensures var t, at := Cancel(s, id).state, s.Locate(id).side;
            && Resting(t.Of(side)) + (if at == side then s.Of(at)[s.Locate(id).index].remaining else 0)
                 == Resting(s.Of(side))
            && t.volume == s.volume && t.matchCount == s.matchCount
            && t.free != [] && t.Of(at) == Without<Entry>(s.Of(at), s.Locate(id).index)
            && t.Of(at.Opposite()) == s.Of(at.Opposite())
  {
    RestingAt(s.Of(s.Locate(id).side), s.Locate(id).index);
  }

  lemma ModifyConserves(s: State, id: Word64, quantity: Word64, side: Side)
    requires s.Shaped() && Inv(s)
    ensures Resting(Modify(s, id, quantity).state.Of(side))
         == Resting(s.Of(side)) + Modified(s, ModifyOp(id, quantity), side)
    ensures Modify(s, id, quantity).state.volume == s.volume && Modify(s, id, quantity).state.matchCount == s.matchCount
  {
    hide Inv, Cancel;
    if s.Locate(id).At? {
      var at, i := s.Locate(id).side, s.Locate(id).index;
      var e := s.Of(at)[i];
      if quantity <= e.remaining {
        ReducedResting(s.Of(at), i, quantity);
      } else {
        ModifyNeverTrades(s, id, quantity);
        CancelConserves(s, id, side);
        AddConserves(Cancel(s, id).state, Incoming(id, at, e.price, quantity), side);
        CountersKept(Cancel(s, id).state, Incoming(id, at, e.price, quantity));
      }
    }
  }

  lemma CountersKept(s: State, o: Incoming)
    requires s.Shaped() && Add(s, o).fills == []
    ensures Add(s, o).state.volume == s.volume && Add(s, o).state.matchCount == s.matchCount
  {
  }

  lemma ReducedResting(list: seq<Entry>, i: nat, quantity: nat)
    requires i < |list|
    ensures Resting(list[i := list[i].(remaining := quantity)]) == Resting(list) - list[i].remaining + quantity
  {
    var list' := list[i := list[i].(remaining := quantity)];
    RestingAt(list, i);
    RestingAt(list', i);
    assert Without<Entry>(list', i) == Without<Entry>(list, i);
  }

  /** What an add's trades filled on a side: on its own, what is no longer left of it; on the other, what
      the resting orders no longer want. */
  function FilledByAdd(s: State, o: Incoming, side: Side): int
    requires s.Shaped()
  {
    if s.free == [] then 0
    else if side == o.side then o.quantity - Match(o.side, o.price, o.quantity, s.Of(o.side.Opposite())).left
    else Resting(s.Of(side)) - Resting(Add(s, o).state.Of(side))
  }

  function Filled(s: State, op: Op, side: Side): int
    requires s.Shaped()
  {
    match op
    case AddOp(o) => FilledByAdd(s, o, side)
    case CancelOp(_) => 0
    case ModifyOp(id, quantity) =>
      match s.Locate(id)
      case Nowhere => 0
      case At(at, i) =>
        if quantity <= s.Of(at)[i].remaining then 0
        else FilledByAdd(Cancel(s, id).state, Incoming(id, at, s.Of(at)[i].price, quantity), side)
  }

  lemma AddFills(s: State, o: Incoming, side: Side)
    requires s.Shaped()
    ensures FilledByAdd(s, o, side) == Traded(Add(s, o).fills)
  {
    hide Match, Traded, Resting, Insert;
    if s.free == [] {
      assert Add(s, o).fills == [];
      TradedNothing();
    } else {
      AddLists(s, o);
      RestingMatch(o.side, o.price, o.quantity, s.Of(o.side.Opposite()));
    }
  }

  /** On either side, an operation's trades fill as much as they trade. */
  lemma StepFills(s: State, op: Op, side: Side)
    requires s.Shaped()
    ensures Filled(s, op, side) == Traded(Step(s, op).fills)
  {
    hide Add, Traded, FilledByAdd;
    TradedNothing();
    match op
    case AddOp(o) => AddFills(s, o, side);
    case CancelOp(_) =>
    case ModifyOp(id, quantity) =>
      match s.Locate(id)
      case Nowhere =>
      case At(at, i) =>
        AddFills(Cancel(s, id).state, Incoming(id, at, s.Of(at)[i].price, quantity), side);
  }

  /** Totals over a run. */
  datatype Ledger = Ledger(accepted: nat, modified: int, cancelled: nat, filled: int, traded: nat, trades: nat)

  function Account(s: State, ops: seq<Op>, side: Side): Ledger
    requires s.Shaped()
    decreases |ops|
  {
    if ops == [] then Ledger(0, 0, 0, 0, 0, 0)
    else
      var r := Step(s, ops[0]);
      var rest := Account(r.state, ops[1..], side);
      Ledger(Accepted(s, ops[0], side) + rest.accepted, Modified(s, ops[0], side) + rest.modified,
             Cancelled(s, ops[0], side) + rest.cancelled, Filled(s, ops[0], side) + rest.filled,
             Traded(r.fills) + rest.traded, |r.fills| + rest.trades)
  }

  lemma WrapTwice(a: int, b: int, c: int)
    ensures Wrap64(Wrap64(a + b) + c) == Wrap64(a + (b + c))
  {
  }

  /** Conservation over whole runs: on each side, what was accepted plus the net effect of modifications
      is what was traded, cancelled, or still rests; the orders of either side were filled by what was
      traded; and the counters agree with the trades, modulo the machine word. */
  lemma {:induction false} RunConserves(s: State, ops: seq<Op>, side: Side)
    requires s.Shaped() && Inv(s) && ValidOps(s, ops)
    ensures var t, a := Run(s, ops), Account(s, ops, side);
            && Resting(t.Of(side)) + a.traded + a.cancelled == Resting(s.Of(side)) + a.accepted + a.modified
            && a.filled == a.traded == Account(s, ops, side.Opposite()).filled
            && t.volume == Wrap64(s.volume + a.traded)
            && t.matchCount == Wrap64(s.matchCount + a.trades)
    decreases |ops|
  {
    hide Inv, Step, Accepted, Modified, Cancelled, Filled, Traded, Resting;
    if ops == [] {
    } else {
      StepConserves(s, ops[0], side);
      StepFills(s, ops[0], side);
      StepFills(s, ops[0], side.Opposite());
      StepKeepsInv(s, ops[0]);
      WrapTwice(s.volume, Traded(Step(s, ops[0]).fills), Account(Step(s, ops[0]).state, ops[1..], side).traded);
      WrapTwice(s.matchCount, |Step(s, ops[0]).fills|, Account(Step(s, ops[0]).state, ops[1..], side).trades);
      RunConserves(Step(s, ops[0]).state, ops[1..], side);
    }
  }

  // ----- Splitting an order

  /** One order of `a + b`, or one of `a` and then one of `b` at the same side and price: the same opposite
      side remains, every resting order is filled by the same total, and the same total comes to rest. */
  lemma AddSplit(s: State, whole: Incoming, first: Incoming, second: Incoming, slot: nat)
    requires s.Shaped() && |s.free| >= 2
    requires first.quantity > 0 && second.quantity > 0 && whole.quantity == first.quantity + second.quantity
    requires whole.side == first.side == second.side && whole.price == first.price == second.price
    ensures var w, f := Add(s, whole), Add(s, first);
            var g := Add(f.state, second);
            && w.slot != NULL && f.slot != NULL && g.slot != NULL
            && w.state.Of(whole.side.Opposite()) == g.state.Of(whole.side.Opposite())
            && TradedOf(w.fills, slot) == TradedOf(f.fills, slot) + TradedOf(g.fills, slot)
            && Resting(w.state.Of(whole.side)) == Resting(g.state.Of(whole.side))
  {
    hide Inv, Traded, TradedOf, Resting, Match;
    var side, price, opp := whole.side, whole.price, s.Of(whole.side.Opposite());
    var f := Add(s, first);
    AddLists(s, whole);
    AddLists(s, first);
    AddLists(f.state, second);
    MatchSplit(side, price, first.quantity, second.quantity, opp, slot);
    AddConserves(s, whole, side);
    AddConserves(s, first, side);
    AddConserves(f.state, second, side);
    RestingMatch(side, price, whole.quantity, opp);
    RestingMatch(side, price, first.quantity, opp);
    RestingMatch(side, price, second.quantity, Match(side, price, first.quantity, opp).book);
  }
}
