/** Gateway, engine and downstream reader running at once, over two rings: every interleaving of their steps
    is a sequential replay of the messages the engine has consumed. */
module Pipeline {
  import opened Types
  import opened BookSpec
  import opened BookInvariant
  import opened Protocol
  import opened Arrivals
  import opened RingMath
  import opened SpscProtocol
  import opened Replay

  /** `pending` are the reports of the message in hand that the engine has not yet offered downstream.
      A message's effect on the book, which no other thread can see, is taken when the pop completes.
      `arrivals` is history. */
  datatype Pipe = Pipe(inbound: Ring<OrderMessage>, outbound: Ring<TradeReport>,
                       book: State, pending: seq<TradeReport>,
                       msgsProcessed: Word64, tradesEmitted: Word64,
                       acceptedFrames: Word64, droppedFrames: Word64, arrivals: seq<Arrival>)

  datatype Move =
    | Arrive(arrival: Arrival)
    | GatewayPut(put: Action<OrderMessage>)
    | EnginePop(take: Action<OrderMessage>)
    | EnginePush(emit: Action<TradeReport>)
    | Downstream(read: Action<TradeReport>)

  /** The gateway takes one arrival at a time; the engine pops only when it has no report left to offer. */
  predicate Allowed(p: Pipe, move: Move) {
    match move
    case Arrive(a) =>
      p.inbound.producer.PIdle? && (Stamped(a).Some? ==> ValidMessage(Stamped(a).value, |p.book.bidExcess|))
    case GatewayPut(a) =>
      ByProducer(a) && !a.PStart? && Enabled(p.inbound, a)
    case EnginePop(a) =>
      !ByProducer(a) && Enabled(p.inbound, a) && p.pending == []
    case EnginePush(a) =>
      ByProducer(a) && Enabled(p.outbound, a) && p.pending != [] && (a.PStart? ==> a.item == p.pending[0])
    case Downstream(a) =>
      !ByProducer(a) && Enabled(p.outbound, a)
  }

  predicate Ready(p: Pipe) {
    Shaped(p.inbound) && Shaped(p.outbound) && p.book.Shaped()
  }

  function Advanced(p: Pipe, move: Move): (n: Pipe)
    requires Ready(p) && Allowed(p, move)
    ensures Ready(n)
  {
    match move
    case Arrive(a) =>
      var q := p.(arrivals := p.arrivals + [a]);
      if Stamped(a).Some? then q.(inbound := Next(p.inbound, PStart(Stamped(a).value)))
      else q.(droppedFrames := Wrap64(p.droppedFrames + 1))
    case GatewayPut(a) =>
      var q := p.(inbound := Next(p.inbound, a));
      if !q.inbound.producer.PIdle? then q
      else if |q.inbound.pushed| > |p.inbound.pushed| then q.(acceptedFrames := Wrap64(p.acceptedFrames + 1))
      else q.(droppedFrames := Wrap64(p.droppedFrames + 1))
    case EnginePop(a) =>
      if a.CRelease? then
        var h := Handle(p.book, p.inbound.consumer.taken);
        p.(inbound := Next(p.inbound, a), book := h.state, pending := h.reports,
        msgsProcessed := Wrap64(p.msgsProcessed + 1))
      else
        p.(inbound := Next(p.inbound, a))
    case EnginePush(a) =>
      var out := Next(p.outbound, a);
      if out.producer.PIdle? then
        p.(outbound := out, pending := p.pending[1..], tradesEmitted := Wrap64(p.tradesEmitted + 1))
      else
        p.(outbound := out)
    case Downstream(a) => p.(outbound := Next(p.outbound, a))
  }

  function Start(slots: nat, ticks: nat, inSize: nat, outSize: nat): Pipe {
    Pipe(Init(inSize), Init(outSize), Empty(slots, ticks), [], 0, 0, 0, 0, [])
  }

  // ----- The invariant

  /** What the gateway has put in, or is putting in, is valid. */
  ghost predicate InboundOk(ring: Ring<OrderMessage>, ticks: nat) {
    && SpscProtocol.Inv(ring) && ValidMessages(ring.pushed, ticks)
    && (!ring.producer.PIdle? ==> ValidMessage(ring.producer.item, ticks))
  }

  /** What the gateway offered, and is offering, is what arrived well-formed; its counters tell what became
      of all that arrived. */
  ghost predicate GatewayOk(p: Pipe) {
    var ring := p.inbound;
    && Offers(p.arrivals) == ring.offered + (if ring.producer.PIdle? then [] else [ring.producer.item])
    && |ring.pushed| <= |ring.offered|
    && p.acceptedFrames == Wrap64(|ring.pushed|)
    && p.droppedFrames == Wrap64(Malformed(p.arrivals) + (|ring.offered| - |ring.pushed|))
  }

  /** Between the messages popped and the reports offered, the engine is a sequential replay. */
  ghost predicate Faithful(s0: State, p: Pipe) {
    && s0.Shaped()
    && p.book == Replayed(s0, p.inbound.popped).state
    && p.outbound.offered + p.pending == Replayed(s0, p.inbound.popped).reports
    && (!p.outbound.producer.PIdle? ==> p.pending != [] && p.outbound.producer.item == p.pending[0])
    && p.msgsProcessed == Wrap64(|p.inbound.popped|)
    && p.tradesEmitted == Wrap64(|p.outbound.offered|)
  }

  ghost predicate PipeInv(s0: State, p: Pipe) {
    && Ready(p) && Faithful(s0, p) && GatewayOk(p)
    && |p.book.bidExcess| == |s0.bidExcess|
    && InboundOk(p.inbound, |s0.bidExcess|) && SpscProtocol.Inv(p.outbound)
    && BookSpec.Inv(p.book)
  }

  lemma ArriveKeeps(s0: State, p: Pipe, a: Arrival)
    requires PipeInv(s0, p) && Allowed(p, Arrive(a))
    ensures PipeInv(s0, Advanced(p, Arrive(a)))
  {
    hide SpscProtocol.Inv, BookSpec.Inv, Next, ValidMessage, Replayed, Stamped, Offers, Malformed, Wrap64;
    ArrivalsAppend(p.arrivals, a);
    WrapNext(Malformed(p.arrivals) + (|p.inbound.offered| - |p.inbound.pushed|));
    if Stamped(a).Some? {
      NextKeepsInv(p.inbound, PStart(Stamped(a).value));
      StepEffects(p.inbound, PStart(Stamped(a).value));
    }
  }

  lemma WrapNext(n: int)
    ensures Wrap64(Wrap64(n) + 1) == Wrap64(n + 1)
  {
  }

  lemma PutKeeps(s0: State, p: Pipe, a: Action<OrderMessage>)
    requires PipeInv(s0, p) && Allowed(p, GatewayPut(a))
    ensures PipeInv(s0, Advanced(p, GatewayPut(a)))
  {
    hide SpscProtocol.Inv, BookSpec.Inv, Next, Enabled, ValidMessage, Replayed, Offers, Malformed, Wrap64;
    NextKeepsInv(p.inbound, a);
    StepEffects(p.inbound, a);
    WrapNext(|p.inbound.pushed|);
    WrapNext(Malformed(p.arrivals) + (|p.inbound.offered| - |p.inbound.pushed|));
  }

  lemma PopKeeps(s0: State, p: Pipe, a: Action<OrderMessage>)
    requires PipeInv(s0, p) && Allowed(p, EnginePop(a))
    ensures PipeInv(s0, Advanced(p, EnginePop(a)))
  {
    hide SpscProtocol.Inv, BookSpec.Inv, Next, Enabled, ValidMessage, Replayed, Handle, Wrap64;
    NextKeepsInv(p.inbound, a);
    StepEffects(p.inbound, a);
    WrapNext(|p.inbound.popped|);
    if a.CRelease? {
      var m := p.inbound.consumer.taken;
      ReplayedAppend(s0, p.inbound.popped, m);
      HandleKeepsInv(p.book, m);
    }
  }

  lemma PushKeeps(s0: State, p: Pipe, a: Action<TradeReport>)
    requires PipeInv(s0, p) && Allowed(p, EnginePush(a))
    ensures PipeInv(s0, Advanced(p, EnginePush(a)))
  {
    hide SpscProtocol.Inv, BookSpec.Inv, Next, Enabled, ValidMessage, Replayed, GatewayOk, InboundOk, Wrap64;
    NextKeepsInv(p.outbound, a);
    StepEffects(p.outbound, a);
    WrapNext(|p.outbound.offered|);
    GatewayElsewhere(p, Advanced(p, EnginePush(a)));
    assert p.pending == [p.pending[0]] + p.pending[1..];
  }

  lemma GatewayElsewhere(p: Pipe, n: Pipe)
    requires GatewayOk(p) && n.inbound == p.inbound && n.arrivals == p.arrivals
    requires n.acceptedFrames == p.acceptedFrames && n.droppedFrames == p.droppedFrames
    ensures GatewayOk(n)
  {
  }

  lemma DownstreamKeeps(s0: State, p: Pipe, a: Action<TradeReport>)
    requires PipeInv(s0, p) && Allowed(p, Downstream(a))
    ensures PipeInv(s0, Advanced(p, Downstream(a)))
  {
    hide SpscProtocol.Inv, BookSpec.Inv, Next, Enabled, ValidMessage, Replayed, Wrap64;
    NextKeepsInv(p.outbound, a);
    StepEffects(p.outbound, a);
  }

  lemma MoveKeepsInv(s0: State, p: Pipe, move: Move)
    requires PipeInv(s0, p) && Allowed(p, move)
    ensures PipeInv(s0, Advanced(p, move))
  {
    hide PipeInv, Allowed;
    match move
    case Arrive(a) => ArriveKeeps(s0, p, a);
    case GatewayPut(a) => PutKeeps(s0, p, a);
    case EnginePop(a) => PopKeeps(s0, p, a);
    case EnginePush(a) => PushKeeps(s0, p, a);
    case Downstream(a) => DownstreamKeeps(s0, p, a);
  }

  // ----- Runs

  ghost predicate Possible(p: Pipe, moves: seq<Move>)
    requires Ready(p)
    decreases |moves|
  {
    moves == [] || (Allowed(p, moves[0]) && Possible(Advanced(p, moves[0]), moves[1..]))
  }

  ghost function After(p: Pipe, moves: seq<Move>): (n: Pipe)
    requires Ready(p) && Possible(p, moves)
    decreases |moves|
  {
    if moves == [] then p else After(Advanced(p, moves[0]), moves[1..])
  }

  lemma {:induction false} MovesKeepInv(s0: State, p: Pipe, moves: seq<Move>)
    requires Ready(p) && PipeInv(s0, p) && Possible(p, moves)
    ensures PipeInv(s0, After(p, moves))
    decreases |moves|
  {
    hide PipeInv, Allowed, Advanced;
    if moves == [] {
    } else {
      MoveKeepsInv(s0, p, moves[0]);
      MovesKeepInv(s0, Advanced(p, moves[0]), moves[1..]);
    }
  }

  lemma StartInv(slots: nat, ticks: nat, inSize: nat, outSize: nat)
    requires slots > 0 && IsCapacity(inSize) && IsCapacity(outSize)
    ensures PipeInv(Empty(slots, ticks), Start(slots, ticks, inSize, outSize))
  {
    hide SpscProtocol.Inv, BookSpec.Inv, And;
    InitInv<OrderMessage>(inSize);
    InitInv<TradeReport>(outSize);
    EmptyInv(slots, ticks);
  }

  // ----- The rings of a pipeline

  /** The step, if any, that a move makes on the inbound ring, and on the outbound ring. */
  function InboundStep(move: Move): seq<Action<OrderMessage>> {
    match move
    case Arrive(a) => (match Stamped(a) case None => [] case Some(m) => [PStart(m)])
    case GatewayPut(a) => [a]
    case EnginePop(a) => [a]
    case EnginePush(_) => []
    case Downstream(_) => []
  }

  function OutboundStep(move: Move): seq<Action<TradeReport>> {
    match move
    case Arrive(_) => []
    case GatewayPut(_) => []
    case EnginePop(_) => []
    case EnginePush(a) => [a]
    case Downstream(a) => [a]
  }

  function OnInbound(moves: seq<Move>): seq<Action<OrderMessage>> {
    if moves == [] then [] else InboundStep(moves[0]) + OnInbound(moves[1..])
  }

  function OnOutbound(moves: seq<Move>): seq<Action<TradeReport>> {
    if moves == [] then [] else OutboundStep(moves[0]) + OnOutbound(moves[1..])
  }

  /** Ring `n` is ring `r` after at most one step. */
  predicate Stepped<T(==)>(r: Ring<T>, step: seq<Action<T>>, n: Ring<T>)
    requires Shaped(r)
  {
    |step| <= 1 && if step == [] then n == r else Enabled(r, step[0]) && n == Next(r, step[0])
  }

  lemma MoveSteps(p: Pipe, move: Move)
    requires Ready(p) && Allowed(p, move)
    ensures Stepped(p.inbound, InboundStep(move), Advanced(p, move).inbound)
    ensures Stepped(p.outbound, OutboundStep(move), Advanced(p, move).outbound)
  {
    hide Next, Stamped, Handle;
  }

  lemma RunStepped<T>(r: Ring<T>, step: seq<Action<T>>, n: Ring<T>, run: seq<Action<T>>)
    requires Shaped(r) && Shaped(n) && Stepped(r, step, n) && SpscProtocol.Possible(n, run)
    ensures SpscProtocol.Possible(r, step + run) && SpscProtocol.After(r, step + run) == SpscProtocol.After(n, run)
  {
    hide Next;
    if step == [] {
      assert step + run == run;
    } else {
      assert step == [step[0]];
      RunCons(r, step[0], run);
    }
  }

  /** Each ring of a pipeline goes through a run of the protocol, so that all that is proved of such runs,
      race freedom included, is true of it. */
  lemma {:induction false} RingsRun(p: Pipe, moves: seq<Move>)
    requires Ready(p) && Possible(p, moves)
    ensures SpscProtocol.Possible(p.inbound, OnInbound(moves))
    ensures SpscProtocol.After(p.inbound, OnInbound(moves)) == After(p, moves).inbound
    ensures SpscProtocol.Possible(p.outbound, OnOutbound(moves))
    ensures SpscProtocol.After(p.outbound, OnOutbound(moves)) == After(p, moves).outbound
    decreases |moves|
  {
    hide Next, Enabled, Allowed, Advanced, InboundStep, OutboundStep, Stepped;
    if moves == [] {
    } else {
      var n := Advanced(p, moves[0]);
      MoveSteps(p, moves[0]);
      RingsRun(n, moves[1..]);
      RunStepped(p.inbound, InboundStep(moves[0]), n.inbound, OnInbound(moves[1..]));
      RunStepped(p.outbound, OutboundStep(moves[0]), n.outbound, OnOutbound(moves[1..]));
    }
  }

  /** A ring hands over, in order, what it accepted, and refuses only when by what it had seen it was full. */
  ghost predicate Transfers<T>(r: Ring<T>) {
    && |r.offered| == |r.fates|
    && r.popped <= r.pushed == Kept(r.offered, r.fates)
    && RefusedWhenFull(r.offered, r.fates, |r.cells|) && SeenInOrder(r.fates, |r.popped|)
  }

  lemma InvTransfers<T>(r: Ring<T>)
    requires SpscProtocol.Inv(r)
    ensures Transfers(r)
  {
    SeenLater(r.fates, r.headSeen, |r.popped|);
  }

  /** Whatever the interleaving of gateway, engine and downstream: the book is the sequential replay of the
      messages popped so far, a prefix of the accepted ones among those that arrived; the reports offered
      downstream, with those still pending, are the reports of that replay, and they arrive in order, lost
      only when the outbound ring was full by what the engine had seen; and all counters agree. */
  lemma PipelineReplays(slots: nat, ticks: nat, inSize: nat, outSize: nat, moves: seq<Move>)
    requires slots > 0 && IsCapacity(inSize) && IsCapacity(outSize)
    requires Possible(Start(slots, ticks, inSize, outSize), moves)
    ensures var p := After(Start(slots, ticks, inSize, outSize), moves);
            var h := Replayed(Empty(slots, ticks), p.inbound.popped);
            && Transfers(p.inbound) && Transfers(p.outbound) && GatewayOk(p)
            && p.book == h.state && BookSpec.Inv(p.book)
            && p.book == Run(Empty(slots, ticks), OpsOf(p.inbound.popped))
            && p.outbound.offered + p.pending == h.reports
            && p.book.matchCount == Wrap64(|h.reports|) && p.book.volume == Wrap64(Volume(h.reports))
            && p.msgsProcessed == Wrap64(|p.inbound.popped|)
            && p.tradesEmitted == Wrap64(|h.reports| - |p.pending|)
            && (p.pending == [] ==> p.tradesEmitted == p.book.matchCount)
  {
    hide Next, Enabled, ValidMessage, Replayed, SpscProtocol.Inv, BookSpec.Inv, Run, OpsOf, Possible, After, Volume,
         Transfers, GatewayOk;
    var s0 := Empty(slots, ticks);
    StartInv(slots, ticks, inSize, outSize);
    MovesKeepInv(s0, Start(slots, ticks, inSize, outSize), moves);
    var p := After(Start(slots, ticks, inSize, outSize), moves);
    InvTransfers(p.inbound);
    InvTransfers(p.outbound);
    PoppedValid(p.inbound, ticks);
    ReplayIsRun(s0, p.inbound.popped);
    EmptyInv(slots, ticks);
    ReplayKeepsInv(s0, p.inbound.popped);
  }

  /** The gateway's counters, in every interleaving, once it is between two arrivals: all that arrived was
      accepted, refused or malformed. */
  lemma GatewayCounts(slots: nat, ticks: nat, inSize: nat, outSize: nat, moves: seq<Move>)
    requires slots > 0 && IsCapacity(inSize) && IsCapacity(outSize)
    requires Possible(Start(slots, ticks, inSize, outSize), moves)
    ensures var p := After(Start(slots, ticks, inSize, outSize), moves);
            && |p.inbound.pushed| <= |p.inbound.offered|
            && p.acceptedFrames == Wrap64(|p.inbound.pushed|)
            && p.droppedFrames == Wrap64(Malformed(p.arrivals) + (|p.inbound.offered| - |p.inbound.pushed|))
            && (p.inbound.producer.PIdle? ==>
                  && p.inbound.offered == Offers(p.arrivals)
                  && Wrap64(p.acceptedFrames + p.droppedFrames) == Wrap64(|p.arrivals|))
  {
    hide Possible, After, SpscProtocol.Inv, BookSpec.Inv, Faithful, InboundOk;
    StartInv(slots, ticks, inSize, outSize);
    MovesKeepInv(Empty(slots, ticks), Start(slots, ticks, inSize, outSize), moves);
    var p := After(Start(slots, ticks, inSize, outSize), moves);
    OffersAndMalformed(p.arrivals);
    WrapBoth(|p.inbound.pushed|, Malformed(p.arrivals) + (|p.inbound.offered| - |p.inbound.pushed|));
  }

  lemma {:induction false} OffersAndMalformed(arrivals: seq<Arrival>)
    ensures |Offers(arrivals)| + Malformed(arrivals) == |arrivals|
  {
    if arrivals == [] {
    } else {
      OffersAndMalformed(arrivals[..|arrivals| - 1]);
    }
  }

  lemma WrapBoth(a: int, b: int)
    ensures Wrap64(Wrap64(a) + Wrap64(b)) == Wrap64(a + b)
  {
  }

  lemma PoppedValid(r: Ring<OrderMessage>, ticks: nat)
    requires InboundOk(r, ticks)
    ensures ValidMessages(r.popped, ticks)
  {
  }

  /** Every report that was lost met an outbound ring that was full by the reads the engine had made, of
      which none had gone back and none was ahead of the reads completed by then. */
  lemma LossHappened(slots: nat, ticks: nat, inSize: nat, outSize: nat, moves: seq<Move>, k: nat)
    returns (run: seq<Action<TradeReport>>)
    requires slots > 0 && IsCapacity(inSize) && IsCapacity(outSize)
    requires Possible(Start(slots, ticks, inSize, outSize), moves)
    requires var out := After(Start(slots, ticks, inSize, outSize), moves).outbound;
             k < |out.fates| && out.fates[k].Refused?
    ensures run <= OnOutbound(moves) && SpscProtocol.Possible(Init(outSize), run)
    ensures var t := SpscProtocol.After(Init<TradeReport>(outSize), run);
            var seen := After(Start(slots, ticks, inSize, outSize), moves).outbound.fates[k].seen;
            && |t.fates| == k && t.producer.PLoaded?
            && t.headSeen <= seen <= |t.popped| && |t.pushed| - seen == outSize - 1
  {
    hide Possible, After, SpscProtocol.Possible, SpscProtocol.After;
    InitInv<TradeReport>(outSize);
    RingsRun(Start(slots, ticks, inSize, outSize), moves);
    var j := RefusalHappened(Init(outSize), OnOutbound(moves), k);
    run := OnOutbound(moves)[..j];
  }

  // ----- What can happen

  /** No thread is ever stuck, whatever the others do. An idle gateway can take any arrival whose message, if
      it has one, is valid; a busy one gets nearer to the end of its push. The engine gets nearer to the end of
      its pop, or starts one, or, while reports are pending, does so with a push. So does downstream. */
  lemma NeverStuck(s0: State, p: Pipe) returns (gateway: Move, engine: Move, downstream: Move)
    requires PipeInv(s0, p)
    ensures if p.inbound.producer.PIdle? then
              forall a :: (Stamped(a).Some? ==> ValidMessage(Stamped(a).value, |p.book.bidExcess|)) ==>
                Allowed(p, Arrive(a))
            else
              && gateway.GatewayPut? && Allowed(p, gateway)
              && StepsLeft(Advanced(p, gateway).inbound.producer) < StepsLeft(p.inbound.producer)
    ensures Allowed(p, engine)
    ensures if p.pending == [] then
              && engine.EnginePop?
              && (p.inbound.consumer.CIdle? ||
                  ReadsLeft(Advanced(p, engine).inbound.consumer) < ReadsLeft(p.inbound.consumer))
            else
              && engine.EnginePush?
              && (p.outbound.producer.PIdle? ||
                  StepsLeft(Advanced(p, engine).outbound.producer) < StepsLeft(p.outbound.producer))
    ensures downstream.Downstream? && Allowed(p, downstream)
    ensures p.outbound.consumer.CIdle? ||
            ReadsLeft(Advanced(p, downstream).outbound.consumer) < ReadsLeft(p.outbound.consumer)
  {
    hide SpscProtocol.Inv, BookSpec.Inv, ValidMessage, Replayed, Handle, GatewayOk, Stamped;
    var inPut, inTake := WaitFree(p.inbound);
    var outPut, outTake := WaitFree(p.outbound);
    gateway := GatewayPut(inPut);
    engine := if p.pending == [] then EnginePop(if p.inbound.consumer.CIdle? then CStart else inTake)
              else EnginePush(if p.outbound.producer.PIdle? then PStart(p.pending[0]) else outPut);
    downstream := Downstream(if p.outbound.consumer.CIdle? then CStart else outTake);
  }

  lemma MoveCons(p: Pipe, move: Move, moves: seq<Move>)
    requires Ready(p) && Allowed(p, move) && Possible(Advanced(p, move), moves)
    ensures Possible(p, [move] + moves) && After(p, [move] + moves) == After(Advanced(p, move), moves)
  {
    assert ([move] + moves)[1..] == moves;
  }

  /** A new ring through which one push has gone. */
  function OneIn(capacity: nat, item: OrderMessage): Ring<OrderMessage>
    requires capacity > 0
  {
    Ring(seq(capacity, _ => Blank)[0 := Full(0, item)], [0], [0, Successor(0, capacity)], PIdle, CIdle, 0, 0,
         [item], [Accepted], [item], [])
  }

  lemma GatewayWrites(p: Pipe, size: nat, item: OrderMessage) returns (moves: seq<Move>)
    requires IsCapacity(size) && Ready(p)
    requires p.inbound == Init<OrderMessage>(size).(producer := PChecked(item, 0))
    ensures Possible(p, moves)
    ensures After(p, moves) == p.(inbound := OneIn(size, item), acceptedFrames := Wrap64(p.acceptedFrames + 1))
  {
    hide ValidMessage, And, Wrap64;
    var p1 := Advanced(p, GatewayPut(PWriteBegin));
    var p2 := Advanced(p1, GatewayPut(PWriteEnd));
    MoveCons(p2, GatewayPut(PPublish), []);
    MoveCons(p1, GatewayPut(PWriteEnd), [GatewayPut(PPublish)]);
    moves := [GatewayPut(PWriteEnd)] + [GatewayPut(PPublish)];
    MoveCons(p, GatewayPut(PWriteBegin), moves);
    moves := [GatewayPut(PWriteBegin)] + moves;
  }

  lemma GatewayTakes(p: Pipe, a: Arrival, size: nat) returns (moves: seq<Move>)
    requires IsCapacity(size) && Ready(p) && p.inbound == Init(size) && Stamped(a).Some?
    requires ValidMessage(Stamped(a).value, |p.book.bidExcess|)
    ensures Possible(p, moves)
    ensures After(p, moves) == p.(inbound := OneIn(size, Stamped(a).value), arrivals := p.arrivals + [a],
                                  acceptedFrames := Wrap64(p.acceptedFrames + 1))
  {
    hide ValidMessage, And, Stamped, Wrap64;
    InitInv<OrderMessage>(size);
    var p1 := Advanced(p, Arrive(a));
    CheckDecides(p1.inbound, 0);
    var p2 := Advanced(p1, GatewayPut(PCheck(0)));
    moves := GatewayWrites(p2, size, Stamped(a).value);
    MoveCons(p1, GatewayPut(PCheck(0)), moves);
    moves := [GatewayPut(PCheck(0))] + moves;
    MoveCons(p, Arrive(a), moves);
    moves := [Arrive(a)] + moves;
  }

  lemma EngineReads(p: Pipe, size: nat, item: OrderMessage) returns (moves: seq<Move>)
    requires IsCapacity(size) && Ready(p) && p.pending == []
    requires p.inbound == OneIn(size, item).(consumer := CChecked(0), tailSeen := 1)
    ensures Possible(p, moves)
    ensures var n, h := After(p, moves), Handle(p.book, item);
            && n.inbound.popped == [item] && n.book == h.state && n.pending == h.reports
            && n.acceptedFrames == p.acceptedFrames && n.droppedFrames == p.droppedFrames
            && n.msgsProcessed == Wrap64(p.msgsProcessed + 1)
  {
    hide Handle, And, Wrap64;
    var p1 := Advanced(p, EnginePop(CReadBegin));
    var p2 := Advanced(p1, EnginePop(CReadEnd(item)));
    MoveCons(p2, EnginePop(CRelease), []);
    MoveCons(p1, EnginePop(CReadEnd(item)), [EnginePop(CRelease)]);
    moves := [EnginePop(CReadEnd(item))] + [EnginePop(CRelease)];
    MoveCons(p, EnginePop(CReadBegin), moves);
    moves := [EnginePop(CReadBegin)] + moves;
  }

  lemma EngineConsumes(p: Pipe, size: nat, item: OrderMessage) returns (moves: seq<Move>)
    requires IsCapacity(size) && Ready(p) && p.inbound == OneIn(size, item) && p.pending == []
    ensures Possible(p, moves)
    ensures var n, h := After(p, moves), Handle(p.book, item);
            && n.inbound.popped == [item] && n.book == h.state && n.pending == h.reports
            && n.acceptedFrames == p.acceptedFrames && n.droppedFrames == p.droppedFrames
            && n.msgsProcessed == Wrap64(p.msgsProcessed + 1)
  {
    hide Handle, And, Wrap64;
    MaskIsMod(size, 1);
    var p1 := Advanced(p, EnginePop(CStart));
    var p2 := Advanced(p1, EnginePop(CCheck(1)));
    moves := EngineReads(p2, size, item);
    MoveCons(p1, EnginePop(CCheck(1)), moves);
    moves := [EnginePop(CCheck(1))] + moves;
    MoveCons(p, EnginePop(CStart), moves);
    moves := [EnginePop(CStart)] + moves;
  }

  lemma {:induction false} MovesAppend(p: Pipe, a: seq<Move>, b: seq<Move>)
    requires Ready(p) && Possible(p, a) && Ready(After(p, a)) && Possible(After(p, a), b)
    ensures Possible(p, a + b) && After(p, a + b) == After(After(p, a), b)
    decreases |a|
  {
    hide Allowed, Advanced;
    if a == [] {
      assert a + b == b;
    } else {
      assert (a + b)[1..] == a[1..] + b;
      MovesAppend(Advanced(p, a[0]), a[1..], b);
    }
  }

  /** A run in which the gateway takes an encoded message from the wire and the engine consumes it. */
  lemma FrameReachesBook(slots: nat, ticks: nat, inSize: nat, outSize: nat, m: OrderMessage, timestamp: Word64,
                         junk: seq<Byte>, now: Word64) returns (moves: seq<Move>)
    requires slots > 0 && IsCapacity(inSize) && IsCapacity(outSize) && ValidMessage(m, ticks)
    ensures Possible(Start(slots, ticks, inSize, outSize), moves)
    ensures var p := After(Start(slots, ticks, inSize, outSize), moves);
            && p.inbound.popped == [m.(arrival := now)] && p.book == Handle(Empty(slots, ticks), m).state
            && p.pending == Handle(Empty(slots, ticks), m).reports
            && p.acceptedFrames == 1 && p.droppedFrames == 0 && p.msgsProcessed == 1
  {
    hide Handle, Frame, Stamped, And, Empty, Possible, After, ValidMessage;
    var p := Start(slots, ticks, inSize, outSize);
    var a := OfFrame(Frame(m, timestamp) + junk, now);
    EncodedIsOffered(m, timestamp, junk, now);
    StampedValid(m, now, slots, ticks);
    var put := GatewayTakes(p, a, inSize);
    var take := EngineConsumes(After(p, put), inSize, m.(arrival := now));
    MovesAppend(p, put, take);
    moves := put + take;
  }

  /** The arrival stamp matters neither to the validity of a message nor to its effect. */
  lemma StampedValid(m: OrderMessage, now: Word64, slots: nat, ticks: nat)
    requires slots > 0
    ensures Empty(slots, ticks).Shaped() && |Empty(slots, ticks).bidExcess| == ticks
    ensures ValidMessage(m.(arrival := now), ticks) <==> ValidMessage(m, ticks)
    ensures Handle(Empty(slots, ticks), m.(arrival := now)) == Handle(Empty(slots, ticks), m)
  {
  }

  /** When all that has arrived so far are encoded messages, the messages the gateway has offered are these, in
      order and stamped, and the book has consumed a prefix of those accepted. */
  lemma FramesThrough(slots: nat, ticks: nat, inSize: nat, outSize: nat, moves: seq<Move>, msgs: seq<OrderMessage>)
    requires slots > 0 && IsCapacity(inSize) && IsCapacity(outSize)
    requires Possible(Start(slots, ticks, inSize, outSize), moves)
    requires var arrivals := After(Start(slots, ticks, inSize, outSize), moves).arrivals;
             && |arrivals| == |msgs|
             && forall i :: 0 <= i < |msgs| ==> Carries(arrivals[i], msgs[i])
    ensures var p := After(Start(slots, ticks, inSize, outSize), moves);
            && |p.inbound.offered| <= |msgs| <= |p.inbound.offered| + 1
            && (forall i :: 0 <= i < |p.inbound.offered| ==>
                  p.inbound.offered[i] == msgs[i].(arrival := p.arrivals[i].now))
            && Transfers(p.inbound) && p.book == Replayed(Empty(slots, ticks), p.inbound.popped).state
            && p.droppedFrames == Wrap64(|p.inbound.offered| - |p.inbound.pushed|)
  {
    hide Possible, After, Carries, Transfers, Replayed, Offers, Malformed, Wrap64, BookSpec.Inv, Run, OpsOf, Volume;
    var p := After(Start(slots, ticks, inSize, outSize), moves);
    PipelineReplays(slots, ticks, inSize, outSize, moves);
    StreamIsOffered(p.arrivals, msgs);
  }
}
