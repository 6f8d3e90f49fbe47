/** When every resting order can be reached through its id, over whole runs. */
module BookIndex {
  import opened Types
  import opened BookSpec
  import opened BookInvariant
  import opened BookIdentities
  import opened BookAccounting

  lemma DistinctSlots(s: State, side: Side, i: nat, side': Side, j: nat)
    requires s.Shaped() && SlotsOk(s, multiset{}) && i < |s.Of(side)| && j < |s.Of(side')| && (side != side' || i != j)
    ensures s.Of(side)[i].slot != s.Of(side')[j].slot
  {
    hide SlotsOk;
    ListedOnce(s, multiset{}, side, i);
    assert side' == side || side' == side.Opposite();
  }

  lemma CancelKeepsIndex(s: State, id: Word64)
    requires s.Shaped() && Inv(s) && Indexed(s)
    ensures Indexed(Cancel(s, id).state)
  {
    hide TableOk, SlotsOk, Uncrossed, ListOk, Find;
    match s.Locate(id)
    case Nowhere =>
    case At(side, i) =>
      var t := Cancel(s, id).state;
      forall side', j | 0 <= j < |t.Of(side')|
        ensures t.table[t.Cell(t.Of(side')[j].id)] == t.Of(side')[j].slot
      {
        var j' := if side' == side && j >= i then j + 1 else j;
        assert t.Of(side')[j] == s.Of(side')[j'];
        DistinctSlots(s, side, i, side', j');
        assert s.table[s.Cell(s.Of(side')[j'].id)] == s.Of(side')[j'].slot;
      }
  }

  lemma ModifyKeepsIndex(s: State, id: Word64, quantity: Word64)
    requires s.Shaped() && Inv(s) && Indexed(s)
    ensures Indexed(Modify(s, id, quantity).state)
  {
    hide Inv, Add, Find, Indexed;
    match s.Locate(id)
    case Nowhere =>
    case At(side, i) =>
      if quantity <= s.Of(side)[i].remaining {
        DecreaseKeepsIndex(s, side, i, quantity);
      } else {
        CancelKeepsIndex(s, id);
        CancelKeepsInv(s, id);
        AddKeepsIndexIff(Cancel(s, id).state, Incoming(id, side, s.Of(side)[i].price, quantity));
      }
  }

  lemma DecreaseKeepsIndex(s: State, side: Side, i: nat, quantity: nat)
    requires s.Shaped() && Indexed(s) && i < |s.Of(side)|
    ensures Indexed(s.With(side, s.Of(side)[i := s.Of(side)[i].(remaining := quantity)]))
  {
    var t := s.With(side, s.Of(side)[i := s.Of(side)[i].(remaining := quantity)]);
    forall side', j | 0 <= j < |t.Of(side')|
      ensures t.table[t.Cell(t.Of(side')[j].id)] == t.Of(side')[j].slot
    {
      assert s.table[s.Cell(s.Of(side')[j].id)] == s.Of(side')[j].slot;
    }
  }

  /** Every add of the run that gets a slot finds its id's cell leading to no resting order, or to one it
      consumes while being filled in full. */
  ghost predicate AddsRespect(s: State, ops: seq<Op>)
    requires s.Shaped()
    decreases |ops|
  {
    ops == [] || ((ops[0].AddOp? && s.free != [] ==> KeepsIndex(s, ops[0].order)) &&
                  AddsRespect(Step(s, ops[0]).state, ops[1..]))
  }

  lemma StepIndexedIff(s: State, op: Op)
    requires s.Shaped() && Inv(s) && Indexed(s)
    ensures Indexed(Step(s, op).state) <==> (op.AddOp? && s.free != [] ==> KeepsIndex(s, op.order))
  {
    hide Inv, Indexed, KeepsIndex, Modify, Cancel;
    match op
    case AddOp(o) =>
      if s.free != [] {
        AddKeepsIndexIff(s, o);
      }
    case CancelOp(id) => CancelKeepsIndex(s, id);
    case ModifyOp(id, quantity) => ModifyKeepsIndex(s, id, quantity);
  }

  /** Every resting order is reachable at every point of a run. */
  ghost predicate AlwaysIndexed(s: State, ops: seq<Op>)
    requires s.Shaped()
    decreases |ops|
  {
    Indexed(s) && (ops == [] || AlwaysIndexed(Step(s, ops[0]).state, ops[1..]))
  }

  /** A run never loses a resting order if and only if its adds respect the cells of the id table. */
  lemma {:induction false} RunIndexedIff(s: State, ops: seq<Op>)
    requires s.Shaped() && Inv(s) && ValidOps(s, ops) && Indexed(s)
    ensures AlwaysIndexed(s, ops) <==> AddsRespect(s, ops)
    decreases |ops|
  {
    hide Inv, Indexed, KeepsIndex, Step;
    if ops == [] {
    } else {
      StepIndexedIff(s, ops[0]);
      StepKeepsInv(s, ops[0]);
      if Indexed(Step(s, ops[0]).state) {
        RunIndexedIff(Step(s, ops[0]).state, ops[1..]);
      }
    }
  }

  lemma {:induction false} AlwaysMeansThroughout(s: State, ops: seq<Op>, k: nat)
    requires s.Shaped() && AlwaysIndexed(s, ops) && k <= |ops|
    ensures Indexed(Run(s, ops[..k]))
    decreases |ops|
  {
    hide Indexed, Step;
    if k == 0 {
    } else {
      assert ops[..k][0] == ops[0] && ops[..k][1..] == ops[1..][..k - 1];
      AlwaysMeansThroughout(Step(s, ops[0]).state, ops[1..], k - 1);
    }
  }

  /** In such a run a cancel or a modification finds every order that rests, by its id, at any time. */
  lemma RunReachable(s: State, ops: seq<Op>, k: nat, side: Side, i: nat)
    requires s.Shaped() && Inv(s) && ValidOps(s, ops) && Indexed(s) && AddsRespect(s, ops)
    requires k <= |ops| && i < |Run(s, ops[..k]).Of(side)|
    ensures var t := Run(s, ops[..k]);
            t.Locate(t.Of(side)[i].id) == At(side, i)
  {
    hide Inv, Step;
    RunIndexedIff(s, ops);
    AlwaysMeansThroughout(s, ops, k);
    RunKeepsInv(s, ops[..k]);
    CancellableIffIndexed(Run(s, ops[..k]), side, i);
  }
}
