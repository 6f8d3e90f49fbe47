/** The engine as a function of the messages it consumes, one after the other. */
module Replay {
  import opened Types
  import opened Matcher
  import opened BookSpec
  import opened BookInvariant
  import opened BookLaws
  import opened Sweep
  import opened Protocol

  datatype Handled = Handled(state: State, reports: seq<TradeReport>)

  /** The book operation a message asks for. An unknown action is ignored. */
  function OpOf(m: OrderMessage): Option<Op> {
    if m.action == ADD || m.action == EXECUTE then Some(AddOp(IncomingOf(m)))
    else if m.action == CANCEL then Some(CancelOp(m.originalOrderId))
    else if m.action == MODIFY then Some(ModifyOp(m.originalOrderId, m.quantity))
    else None
  }

  /** What the book asserts of a message that adds an order. */
  predicate ValidMessage(m: OrderMessage, ticks: nat) {
    m.action == ADD || m.action == EXECUTE ==> 0 <= m.price < ticks && m.quantity > 0
  }

  predicate ValidMessages(msgs: seq<OrderMessage>, ticks: nat) {
    forall i :: 0 <= i < |msgs| ==> ValidMessage(msgs[i], ticks)
  }

  /** The reports an operation makes: an aggressor's fills, whether it was added or re-added by a modification. */
  function Generated(s: State, op: Op): seq<TradeReport>
    requires s.Shaped()
  {
    match op
    case AddOp(o) => ReportsOf(o.side, o.id, Step(s, op).fills)
    case CancelOp(_) => []
    case ModifyOp(id, _) => if s.Locate(id).At? then ReportsOf(s.Locate(id).side, id, Step(s, op).fills) else []
  }

  function Handle(s: State, m: OrderMessage): (h: Handled)
    requires s.Shaped()
    ensures h.state.Shaped()
  {
    match OpOf(m)
    case None => Handled(s, [])
    case Some(op) => Handled(Step(s, op).state, Generated(s, op))
  }

  /** The sequential replay of a list of messages. */
  function Replayed(s: State, msgs: seq<OrderMessage>): (h: Handled)
    requires s.Shaped()
    ensures h.state.Shaped()
  {
    if msgs == [] then Handled(s, [])
    else
      var before := Replayed(s, msgs[..|msgs| - 1]);
      var last := Handle(before.state, msgs[|msgs| - 1]);
      Handled(last.state, before.reports + last.reports)
  }

  lemma ReplayedAppend(s: State, msgs: seq<OrderMessage>, m: OrderMessage)
    requires s.Shaped()
    ensures var before := Replayed(s, msgs);
            && Replayed(s, msgs + [m]).state == Handle(before.state, m).state
            && Replayed(s, msgs + [m]).reports == before.reports + Handle(before.state, m).reports
  {
    assert (msgs + [m])[..|msgs|] == msgs;
  }

  function Volume(reports: seq<TradeReport>): int {
    if reports == [] then 0 else Volume(reports[..|reports| - 1]) + reports[|reports| - 1].quantity
  }

  lemma {:induction false} VolumeAppend(a: seq<TradeReport>, b: seq<TradeReport>)
    ensures Volume(a + b) == Volume(a) + Volume(b)
    decreases |b|
  {
    if b == [] {
      assert a + b == a;
    } else {
      assert (a + b)[..|a + b| - 1] == a + b[..|b| - 1];
      VolumeAppend(a, b[..|b| - 1]);
    }
  }

  lemma {:induction false} ReportsVolume(side: Side, id: Word64, fills: seq<Fill>)
    ensures |ReportsOf(side, id, fills)| == |fills| && Volume(ReportsOf(side, id, fills)) == Traded(fills)
  {
    if fills == [] {
    } else {
      var n := |fills| - 1;
      ReportsVolume(side, id, fills[..n]);
      assert ReportsOf(side, id, fills)[..n] == ReportsOf(side, id, fills[..n]);
      TradedAppend(fills[..n], [fills[n]]);
      assert [fills[n]][1..] == [];
      assert fills == fills[..n] + [fills[n]];
    }
  }

  lemma FillsReported(s: State, op: Op)
    requires s.Shaped() && Inv(s)
    ensures |Generated(s, op)| == |Step(s, op).fills| && Volume(Generated(s, op)) == Traded(Step(s, op).fills)
  {
    hide Inv, Add, Modify, Cancel;
    match op
    case AddOp(o) => ReportsVolume(o.side, o.id, Step(s, op).fills);
    case CancelOp(_) => CancelOpConserves(s, op.id, Buy);
    case ModifyOp(id, quantity) => ModifyNeverTrades(s, id, quantity);
  }

  /** The counters of `t` are those of `s` with these reports added, modulo the machine word. */
  predicate Counted(s: State, t: State, reports: seq<TradeReport>) {
    t.matchCount == Wrap64(s.matchCount + |reports|) && t.volume == Wrap64(s.volume + Volume(reports))
  }

  /** One message keeps the book's invariants and counts exactly the reports it made. */
  lemma HandleKeepsInv(s: State, m: OrderMessage)
    requires s.Shaped() && Inv(s) && ValidMessage(m, |s.bidExcess|)
    ensures var h := Handle(s, m);
            Inv(h.state) && |h.state.bidExcess| == |s.bidExcess| && Counted(s, h.state, h.reports)
  {
    hide Inv, Step, Generated;
    match OpOf(m)
    case None =>
    case Some(op) =>
      StepKeepsInv(s, op);
      OperationCounted(s, op);
  }

  lemma OperationCounted(s: State, op: Op)
    requires s.Shaped() && Inv(s)
    ensures Counted(s, Step(s, op).state, Generated(s, op))
  {
    hide Inv, Step, Generated;
    StepConserves(s, op, Buy);
    FillsReported(s, op);
  }

  lemma CountedNothing(s: State)
    ensures Counted(s, s, [])
  {
  }

  lemma CountedTwice(s: State, t: State, u: State, a: seq<TradeReport>, b: seq<TradeReport>)
    requires Counted(s, t, a) && Counted(t, u, b)
    ensures Counted(s, u, a + b)
  {
    VolumeAppend(a, b);
    WrapTwice(s.matchCount, |a|, |b|);
    WrapTwice(s.volume, Volume(a), Volume(b));
  }

  /** Whatever valid messages are replayed, the book stays well-formed, and its counters are the number and
      the total quantity of the reports, modulo the machine word. */
  lemma {:induction false} ReplayKeepsInv(s: State, msgs: seq<OrderMessage>)
    requires s.Shaped() && Inv(s) && ValidMessages(msgs, |s.bidExcess|)
    ensures var h := Replayed(s, msgs);
            Inv(h.state) && |h.state.bidExcess| == |s.bidExcess| && Counted(s, h.state, h.reports)
    decreases |msgs|
  {
    hide Inv, Handle, Counted;
    if msgs == [] {
      CountedNothing(s);
    } else {
      var n := |msgs| - 1;
      ReplayKeepsInv(s, msgs[..n]);
      var before := Replayed(s, msgs[..n]);
      var last := Handle(before.state, msgs[n]);
      HandleKeepsInv(before.state, msgs[n]);
      CountedTwice(s, before.state, last.state, before.reports, last.reports);
    }
  }

  // ----- Who traded with whom

  /** A report of message `m` on a book with these lists: its order traded with a resting order of the other
      side, at that one's price, and whichever was the buy is reported as the buyer. */
  ghost predicate TradeOf(report: TradeReport, m: OrderMessage, bids: seq<Entry>, asks: seq<Entry>) {
    && (m.action == 0 || m.action == 3)
    && if m.side == 0 then
         exists i :: 0 <= i < |asks| && report.quantity <= asks[i].remaining && asks[i].price <= m.price &&
                     report == TradeReport(m.orderId, asks[i].id, asks[i].price, report.quantity)
       else
         exists i :: 0 <= i < |bids| && report.quantity <= bids[i].remaining && bids[i].price >= m.price &&
                     report == TradeReport(bids[i].id, m.orderId, bids[i].price, report.quantity)
  }

  lemma HandledTrade(s: State, m: OrderMessage, k: nat)
    requires s.Shaped() && Inv(s) && k < |Handle(s, m).reports|
    ensures TradeOf(Handle(s, m).reports[k], m, s.bids, s.asks)
  {
    hide Inv, Match, Modify;
    if m.action == ADD || m.action == EXECUTE {
      var o := IncomingOf(m);
      var n := MatchIsPriceTime(o.side, o.price, o.quantity, s.Of(o.side.Opposite()));
      var e := s.Of(o.side.Opposite())[k];
      assert Handle(s, m).reports[k].price == e.price;
    } else if m.action == MODIFY {
      ModifyNeverTrades(s, m.originalOrderId, m.quantity);
    }
  }

  /** Every report of a replay comes from an add: it names the parties of a trade that message made on the
      book as it was then. */
  lemma {:induction false} ReportParties(s: State, msgs: seq<OrderMessage>, k: nat) returns (j: nat)
    requires s.Shaped() && Inv(s) && ValidMessages(msgs, |s.bidExcess|) && k < |Replayed(s, msgs).reports|
    ensures j < |msgs|
    ensures var t := Replayed(s, msgs[..j]).state;
            TradeOf(Replayed(s, msgs).reports[k], msgs[j], t.bids, t.asks)
    decreases |msgs|
  {
    hide Inv, Handle, TradeOf;
    var n := |msgs| - 1;
    var before := Replayed(s, msgs[..n]);
    if k < |before.reports| {
      j := ReportParties(s, msgs[..n], k);
      assert msgs[..n][..j] == msgs[..j];
    } else {
      j := n;
      ReplayKeepsInv(s, msgs[..n]);
      HandledTrade(before.state, msgs[n], k - |before.reports|);
    }
  }

  // ----- Replays are runs

  function OpsOf(msgs: seq<OrderMessage>): seq<Op> {
    if msgs == [] then []
    else OpsOf(msgs[..|msgs| - 1]) + match OpOf(msgs[|msgs| - 1]) case None => [] case Some(op) => [op]
  }

  lemma {:induction false} RunAppend(s: State, ops: seq<Op>, op: Op)
    requires s.Shaped()
    ensures Run(s, ops + [op]) == Step(Run(s, ops), op).state
    decreases |ops|
  {
    hide Step;
    if ops == [] {
      assert (ops + [op])[1..] == [];
    } else {
      assert (ops + [op])[1..] == ops[1..] + [op];
      RunAppend(Step(s, ops[0]).state, ops[1..], op);
    }
  }

  /** A replay is a run of the book, so what holds of every run holds of what comes through the pipeline. */
  lemma {:induction false} ReplayIsRun(s: State, msgs: seq<OrderMessage>)
    requires s.Shaped()
    ensures Replayed(s, msgs).state == Run(s, OpsOf(msgs))
    decreases |msgs|
  {
    hide Step;
    if msgs == [] {
    } else {
      var n := |msgs| - 1;
      ReplayIsRun(s, msgs[..n]);
      match OpOf(msgs[n])
      case None =>
        assert OpsOf(msgs) == OpsOf(msgs[..n]);
      case Some(op) => RunAppend(s, OpsOf(msgs[..n]), op);
    }
  }

  // ----- The wire in front of the engine

  /** A message that went over the wire and was stamped on arrival has the effect of the original. */
  lemma WireIsTransparent(s: State, m: OrderMessage, timestamp: Word64, junk: seq<Byte>, now: Word64)
    requires s.Shaped()
    ensures Accepts(Frame(m, timestamp) + junk)
    ensures Handle(s, Decoded(Frame(m, timestamp) + junk).value.(arrival := now)) == Handle(s, m)
  {
    hide Step, Decoded, Frame, Generated;
    DecodeEncoded(m, timestamp, junk);
    DecodedIfAccepted(Frame(m, timestamp) + junk);
  }
}
