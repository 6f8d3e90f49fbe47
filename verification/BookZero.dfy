/** Trades of quantity zero. A modification to zero leaves an order resting with nothing remaining, and an
    aggressor that consumes it trades nothing with it, and reports so. */
module BookZero {
  import opened Types
  import opened Matcher
  import opened BookSpec
  import opened BookInvariant
  import opened BookIdentities
  import opened BookAccounting

  ghost predicate Positive(list: seq<Entry>) {
    forall i :: 0 <= i < |list| ==> list[i].remaining > 0
  }

  ghost predicate AllPositive(s: State) {
    Positive(s.bids) && Positive(s.asks)
  }

  ghost predicate PositiveFills(fills: seq<Fill>) {
    forall i :: 0 <= i < |fills| ==> fills[i].quantity > 0
  }

  /** Every fill of a match is positive if and only if no order that it consumes has nothing remaining. */
  lemma FillsPositiveIff(side: Side, limit: int, qty: nat, opp: seq<Entry>)
    ensures PositiveFills(Match(side, limit, qty, opp).fills) <==>
            Positive(opp[..Min(Consumes(side, limit, qty, opp), |opp|)])
  {
    hide Match, Traded, Consumes;
    var n := MatchIsPriceTime(side, limit, qty, opp);
    var o := Match(side, limit, qty, opp);
    ConsumesIsRetired(side, limit, qty, opp);
    assert n == Consumes(side, limit, qty, opp);
    forall i | 0 <= i < n
      ensures opp[..n][i].remaining == o.fills[i].quantity
    {
    }
  }

  lemma AddPositive(s: State, o: Incoming)
    requires Inv(s) && ValidOrder(s, o) && AllPositive(s)
    ensures AllPositive(Add(s, o).state) && PositiveFills(Add(s, o).fills)
  {
    if s.free != [] {
      hide Match, Inv, Insert;
      var opp := s.Of(o.side.Opposite());
      var m := Match(o.side, o.price, o.quantity, opp);
      FillsPositiveIff(o.side, o.price, o.quantity, opp);
      AddLists(s, o);
      LeftPositive(o.side, o.price, o.quantity, opp);
      hide Positive;
      if m.left > 0 {
        InsertPositive(o.side, s.Of(o.side), Entry(s.free[|s.free| - 1], o.id, o.price, m.left, s.clock));
      }
      PrefixPositive(opp, Min(Consumes(o.side, o.price, o.quantity, opp), |opp|));
    }
  }

  lemma InsertPositive(side: Side, list: seq<Entry>, e: Entry)
    requires Positive(list) && e.remaining > 0
    ensures Positive(Insert(side, list, e))
  {
    hide Insert;
    InsertAt(side, list, e);
  }

  lemma PrefixPositive(list: seq<Entry>, n: nat)
    requires Positive(list) && n <= |list|
    ensures Positive(list[..n])
  {
  }

  lemma {:induction false} LeftPositive(side: Side, limit: int, qty: nat, opp: seq<Entry>)
    requires Positive(opp)
    ensures Positive(Match(side, limit, qty, opp).book)
    decreases |opp|
  {
    if qty == 0 || opp == [] || !Crosses(side, limit, opp[0].price) || qty < opp[0].remaining {
    } else {
      LeftPositive(side, limit, qty - opp[0].remaining, opp[1..]);
    }
  }

  lemma CancelPositive(s: State, id: Word64)
    requires s.Shaped() && AllPositive(s)
    ensures AllPositive(Cancel(s, id).state)
  {
    hide Without;
  }

  /** The operation leaves a located order with nothing remaining. */
  ghost predicate Zeroes(s: State, op: Op)
    requires s.Shaped()
  {
    op.ModifyOp? && op.quantity == 0 && s.Locate(op.id).At?
  }

  lemma ModifyPositiveIff(s: State, id: Word64, quantity: Word64)
    requires s.Shaped() && Inv(s) && AllPositive(s)
    ensures AllPositive(Modify(s, id, quantity).state) <==> !Zeroes(s, ModifyOp(id, quantity))
    ensures PositiveFills(Modify(s, id, quantity).fills)
  {
    hide Inv, Add, Cancel, Modify;
    ModifyNeverTrades(s, id, quantity);
    match s.Locate(id)
    case Nowhere => NothingModified(s, id, quantity);
    case At(side, i) =>
      if quantity <= s.Of(side)[i].remaining {
        ModifyDecreases(s, id, quantity);
        assert Modify(s, id, quantity).state.Of(side)[i].remaining == quantity;
      } else {
        IncreasePositive(s, id, quantity);
      }
  }

  lemma NothingModified(s: State, id: Word64, quantity: Word64)
    requires s.Shaped() && s.Locate(id) == Nowhere
    ensures Modify(s, id, quantity).state == s
  {
  }

  lemma IncreasePositive(s: State, id: Word64, quantity: Word64)
    requires s.Shaped() && Inv(s) && AllPositive(s) && s.Locate(id).At?
    requires quantity > s.Of(s.Locate(id).side)[s.Locate(id).index].remaining
    ensures AllPositive(Modify(s, id, quantity).state)
  {
    hide Inv, Add, Cancel;
    CancelPositive(s, id);
    LocatedPrice(s, id);
    StepKeepsInv(s, CancelOp(id));
    var e := s.Of(s.Locate(id).side)[s.Locate(id).index];
    AddPositive(Cancel(s, id).state, Incoming(id, s.Locate(id).side, e.price, quantity));
  }

  /** On a book without empty orders, an operation makes positive fills only, and leaves the book without
      empty orders if and only if it is not a modification of a resting order to zero. */
  lemma StepPositiveIff(s: State, op: Op)
    requires s.Shaped() && Inv(s) && ValidOp(s, op) && AllPositive(s)
    ensures AllPositive(Step(s, op).state) <==> !Zeroes(s, op)
    ensures PositiveFills(Step(s, op).fills)
  {
    hide Inv, Add, Modify, AllPositive;
    match op
    case AddOp(o) => AddPositive(s, o);
    case CancelOp(id) => CancelPositive(s, id);
    case ModifyOp(id, quantity) => ModifyPositiveIff(s, id, quantity);
  }

  ghost predicate AlwaysPositive(s: State, ops: seq<Op>)
    requires s.Shaped()
    decreases |ops|
  {
    AllPositive(s) && (ops == [] || AlwaysPositive(Step(s, ops[0]).state, ops[1..]))
  }

  ghost predicate NeverZeroed(s: State, ops: seq<Op>)
    requires s.Shaped()
    decreases |ops|
  {
    ops == [] || (!Zeroes(s, ops[0]) && NeverZeroed(Step(s, ops[0]).state, ops[1..]))
  }

  /** Over runs, empty orders come from modifications of resting orders to zero, and from nothing else. */
  lemma {:induction false} RunPositiveIff(s: State, ops: seq<Op>)
    requires s.Shaped() && Inv(s) && ValidOps(s, ops) && AllPositive(s)
    ensures AlwaysPositive(s, ops) <==> NeverZeroed(s, ops)
    decreases |ops|
  {
    hide Inv, AllPositive, Zeroes, Step;
    if ops == [] {
    } else {
      StepPositiveIff(s, ops[0]);
      StepKeepsInv(s, ops[0]);
      if AllPositive(Step(s, ops[0]).state) {
        RunPositiveIff(Step(s, ops[0]).state, ops[1..]);
      }
    }
  }

  /** In a run without them every trade has a positive quantity. */
  lemma {:induction false} RunFillsPositive(s: State, ops: seq<Op>, k: nat)
    requires s.Shaped() && Inv(s) && ValidOps(s, ops) && AllPositive(s) && NeverZeroed(s, ops) && k < |ops|
    ensures PositiveFills(Step(Run(s, ops[..k]), ops[k]).fills)
    decreases |ops|
  {
    hide Inv, AllPositive, Zeroes, Step, PositiveFills;
    StepPositiveIff(s, ops[0]);
    StepKeepsInv(s, ops[0]);
    if k == 0 {
      assert ops[..0] == [];
    } else {
      assert ops[..k][0] == ops[0] && ops[..k][1..] == ops[1..][..k - 1];
      RunFillsPositive(Step(s, ops[0]).state, ops[1..], k - 1);
    }
  }

  /** A modification to zero, and then an aggressor: a trade of quantity zero. */
  lemma ZeroTrade(s: State, id: Word64, o: Incoming)
    requires Inv(s) && s.Locate(id) == At(o.side.Opposite(), 0) && s.free != [] && o.quantity > 0
    requires Crosses(o.side, o.price, s.Of(o.side.Opposite())[0].price)
    ensures var r := Add(Modify(s, id, 0).state, o);
            |r.fills| > 0 && r.fills[0] == Fill(s.Of(o.side.Opposite())[0].slot, id, s.Of(o.side.Opposite())[0].price,
              0, true)
  {
    ModifyDecreases(s, id, 0);
  }
}
