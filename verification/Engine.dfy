/** The engine as an object: the event loop that folds messages into the book and forwards its reports.
    `Pipeline` is about gateway and engine running at once. */
module Engine {
  import opened Types
  import opened BookSpec
  import opened BookInvariant
  import opened BookLaws
  import opened Book
  import opened Spsc
  import opened Replay
  import opened BestAsk
  import opened BoardRuns

  /** As many of the reports as there is room for: the rest are dropped, the first ones are kept. */
  function Fitting<T>(queued: seq<T>, more: seq<T>, capacity: nat): (all: seq<T>)
    requires |queued| < capacity
    ensures |all| < capacity
    ensures queued <= all <= queued + more && |all| == Min(|queued| + |more|, capacity - 1)
  {
    var room := capacity - 1 - |queued|;
    queued + if |more| <= room then more else more[..room]
  }

  lemma FittingTwice<T>(queued: seq<T>, more: seq<T>, rest: seq<T>, capacity: nat)
    requires |queued| < capacity
    ensures Fitting(Fitting(queued, more, capacity), rest, capacity) == Fitting(queued, more + rest, capacity)
  {
  }

  lemma WrapSame(w: Word64)
    ensures Wrap64(w) == w
  {
  }

  lemma FittingNone<T>(queued: seq<T>, capacity: nat)
    requires |queued| < capacity
    ensures Fitting(queued, [], capacity) == queued
  {
  }

  /** What the action and side bytes mean: 0 and 3 add, 1 cancels, 2 modifies, and any other byte does nothing;
      a side byte of 0 is a buy, and any other a sell. A modification makes no report, as the book is uncrossed. */
  lemma HandleCases(s: State, m: OrderMessage)
    requires s.Shaped() && Inv(s)
    ensures var h := Handle(s, m);
            if m.action == 0 || m.action == 3 then
              var o := Incoming(m.orderId, if m.side == 0 then Buy else Sell, m.price, m.quantity);
              h.state == Add(s, o).state && h.reports == ReportsOf(o.side, o.id, Add(s, o).fills)
            else if m.action == 1 then
              h.state == Cancel(s, m.originalOrderId).state && h.reports == []
            else if m.action == 2 then
              h.state == Modify(s, m.originalOrderId, m.quantity).state && h.reports == []
            else
              h.state == s && h.reports == []
  {
    hide Inv, Add, Modify, Cancel;
    if m.action == MODIFY {
      ModifyNeverTrades(s, m.originalOrderId, m.quantity);
    }
  }

  /** Which messages the book asserts: cancels, modifications and unknown actions are all valid, and an add is
      if its price is a tick and its quantity positive, whatever its side byte. */
  lemma ValidMessageIff(m: OrderMessage, ticks: nat)
    ensures ValidMessage(m, ticks) <==>
            (m.action == 0 || m.action == 3 ==> 0 <= m.price < ticks && m.quantity > 0)
  {
  }

  /** What the engine holds after consuming messages: the book with its side bytes and cached best ask, what it
      reported, the outbound queue and the two counters. */
  datatype Snapshot = Snapshot(board: Board, reports: seq<TradeReport>, queued: seq<TradeReport>,
                               processed: Word64, emitted: Word64)

  /** The effect of consuming these messages one after the other. */
  ghost function Consumed(s: Snapshot, msgs: seq<OrderMessage>, capacity: nat): (t: Snapshot)
    requires s.board.book.Shaped() && |s.queued| < capacity
    ensures t.board.book.Shaped() && |t.queued| < capacity
  {
    var reports := Replayed(s.board.book, msgs).reports;
    Snapshot(ReplayedBoard(s.board, msgs), s.reports + reports, Fitting(s.queued, reports, capacity),
             Wrap64(s.processed + |msgs|), Wrap64(s.emitted + |reports|))
  }

  lemma ConsumedNone(s: Snapshot, capacity: nat)
    requires s.board.book.Shaped() && |s.queued| < capacity
    ensures Consumed(s, [], capacity) == s
  {
  }

  lemma ReplayedOne(b: Board, m: OrderMessage)
    requires b.book.Shaped()
    ensures Replayed(b.book, [m]) == Handle(b.book, m) && ReplayedBoard(b, [m]) == HandleBoard(b, m)
  {
    hide Handle, HandleBoard;
    ReplayedAppend(b.book, [], m);
    ReplayedBoardAppend(b, [], m);
    assert [] + [m] == [m] && [] + Handle(b.book, m).reports == Handle(b.book, m).reports;
  }

  lemma ConsumedAppend(s: Snapshot, msgs: seq<OrderMessage>, m: OrderMessage, capacity: nat)
    requires s.board.book.Shaped() && |s.queued| < capacity
    ensures Consumed(s, msgs + [m], capacity) == Consumed(Consumed(s, msgs, capacity), [m], capacity)
  {
    hide Fitting, Wrap64, Handle, HandleBoard, Replayed, ReplayedBoard;
    var before := Consumed(s, msgs, capacity);
    ReplayedBoardBook(s.board, msgs);
    ReplayedAppend(s.board.book, msgs, m);
    ReplayedBoardAppend(s.board, msgs, m);
    ReplayedOne(before.board, m);
    var first, more := Replayed(s.board.book, msgs).reports, Handle(before.board.book, m).reports;
    assert s.reports + (first + more) == before.reports + more;
    FittingTwice(s.queued, first, more, capacity);
    WrapTwice(s.processed, |msgs|, 1);
    WrapTwice(s.emitted, |first|, |more|);
  }

  lemma ConsumedOne(s: Snapshot, m: OrderMessage, capacity: nat)
    requires s.board.book.Shaped() && |s.queued| < capacity
    ensures var more := Handle(s.board.book, m).reports;
            Consumed(s, [m], capacity) == Snapshot(HandleBoard(s.board, m), s.reports + more,
              Fitting(s.queued, more, capacity),
                                                  Wrap64(s.processed + 1), Wrap64(s.emitted + |more|))
  {
    hide Fitting, Wrap64, Handle, HandleBoard;
    ReplayedOne(s.board, m);
  }

  lemma ConsumedParts(s: Snapshot, msgs: seq<OrderMessage>, capacity: nat)
    requires s.board.book.Shaped() && |s.queued| < capacity
    ensures var t, h := Consumed(s, msgs, capacity), Replayed(s.board.book, msgs);
            && t.board.book == h.state && t.reports == s.reports + h.reports
            && s.queued <= t.queued <= s.queued + h.reports
            && |t.queued| == Min(|s.queued| + |h.reports|, capacity - 1)
            && t.processed == Wrap64(s.processed + |msgs|) && t.emitted == Wrap64(s.emitted + |h.reports|)
  {
    hide Fitting, Wrap64, Replayed, ReplayedBoard, Min;
    ReplayedBoardBook(s.board, msgs);
  }

  /** With the side bytes Buy and Sell only, consuming messages keeps the best ask exact. */
  lemma StaysOrdinary(s: Snapshot, msgs: seq<OrderMessage>, capacity: nat)
    requires Tracks(s.board) && s.board.book.Shaped() && |s.queued| < capacity
    requires ValidMessages(msgs, |s.board.book.bidExcess|)
    ensures Exact(s.board) && Ordinary(s.board) && OrdinaryMessages(msgs) ==>
              Exact(Consumed(s, msgs, capacity).board) && Ordinary(Consumed(s, msgs, capacity).board)
  {
    hide Tracks, Exact, Ordinary;
    if Exact(s.board) && Ordinary(s.board) && OrdinaryMessages(msgs) {
      OrdinaryExact(s.board, msgs);
      assert msgs[..|msgs|] == msgs;
    }
  }

  /** Where one call of the event loop ends and the next begins makes no difference. */
  lemma {:induction false} ConsumedInBatches(s: Snapshot, a: seq<OrderMessage>, b: seq<OrderMessage>, capacity: nat)
    requires s.board.book.Shaped() && |s.queued| < capacity
    ensures Consumed(s, a + b, capacity) == Consumed(Consumed(s, a, capacity), b, capacity)
    decreases |b|
  {
    hide Consumed;
    if b == [] {
      assert a + b == a;
      ConsumedNone(Consumed(s, a, capacity), capacity);
    } else {
      var n := |b| - 1;
      ConsumedInBatches(s, a, b[..n], capacity);
      ConsumedAppend(s, a + b[..n], b[n], capacity);
      ConsumedAppend(Consumed(s, a, capacity), b[..n], b[n], capacity);
      assert a + b == a + b[..n] + [b[n]] && b == b[..n] + [b[n]];
    }
  }

  /** The messages of a batch: those done with, the one in hand, those still queued. When none is in hand,
      none is queued. */
  ghost predicate InHand<T>(all: seq<T>, done: seq<T>, held: Option<T>, queued: seq<T>) {
    if held.None? then all == done && queued == [] else all == done + [held.value] + queued
  }

  lemma FirstInHand(all: seq<OrderMessage>)
    ensures InHand(all, [], if all == [] then None else Some(all[0]), if all == [] then [] else all[1..])
  {
  }

  lemma NothingInHand(all: seq<OrderMessage>, done: seq<OrderMessage>, queued: seq<OrderMessage>, ticks: nat)
    requires InHand(all, done, None, queued)
    ensures all == done && queued == [] && ValidMessages(queued, ticks)
  {
  }

  lemma Handover(all: seq<OrderMessage>, done: seq<OrderMessage>, held: Option<OrderMessage>,
                 queued: seq<OrderMessage>, ticks: nat)
    requires InHand(all, done, held, queued) && held.Some?
    ensures |done| < |all|
    ensures InHand(all, done + [held.value], if queued == [] then None else Some(queued[0]),
                   if queued == [] then [] else queued[1..])
    ensures ValidMessages(all, ticks) ==> ValidMessage(held.value, ticks)
  {
    assert all[|done|] == held.value;
    assert queued != [] ==> queued == [queued[0]] + queued[1..];
  }

  class MatchingEngine {
    const inbound: SpscQueue<OrderMessage>
    const outbound: SpscQueue<TradeReport>
    const book: OrderBook
    var msgsProcessed: Word64
    var tradesEmitted: Word64

    ghost predicate Apart()
    {
      && {this as object, inbound, inbound.storage, outbound, outbound.storage} !! book.Repr()
      && (this as object) !in {inbound as object, inbound.storage, outbound, outbound.storage}
      && (inbound as object) !in {inbound.storage as object, outbound, outbound.storage}
      && (outbound as object) !in {inbound.storage as object, outbound.storage}
      && (inbound.storage as object) != outbound.storage
    }

    ghost predicate Valid()
      reads this, inbound, inbound.storage, outbound, outbound.storage, book.Repr()
    {
      && Apart() && inbound.Valid() && outbound.Valid() && book.Valid()
      && ValidMessages(inbound.Items(), |book.model.bidExcess|)
    }

    constructor (inbound: SpscQueue<OrderMessage>, outbound: SpscQueue<TradeReport>, slots: nat, ticks: nat)
      requires inbound.Valid() && outbound.Valid() && 0 < slots && ticks < TWO63
      requires (inbound as object) !in {inbound.storage as object, outbound, outbound.storage}
      requires (outbound as object) !in {inbound.storage as object, outbound.storage}
      requires (inbound.storage as object) != outbound.storage
      requires ValidMessages(inbound.Items(), ticks)
      ensures Valid() && this.inbound == inbound && this.outbound == outbound
      ensures book.AskExact() && Ordinary(book.AsBoard())
      ensures book.model == Empty(slots, ticks) && book.reports == [] && msgsProcessed == tradesEmitted == 0
    {
      hide OrderBook.Valid, SpscQueue<OrderMessage>.Valid, SpscQueue<TradeReport>.Valid, ValidMessages, Inv;
      this.inbound := inbound;
      this.outbound := outbound;
      book := new OrderBook(slots, ticks);
      msgsProcessed, tradesEmitted := 0, 0;
      new;
      assert Apart();
      assert |book.model.bidExcess| == ticks;
    }

    /** `on_trade`: best effort, counted whether or not the report found room. */
    method OnTrade(report: TradeReport)
      requires outbound.Valid() && (this as object) !in {outbound as object, outbound.storage}
      modifies this`tradesEmitted, outbound, outbound.storage
      ensures outbound.Valid()
      ensures outbound.Items() == Fitting(old(outbound.Items()), [report], outbound.capacity)
      ensures outbound.Items() == old(outbound.Items()) + if |old(outbound.Items())| < outbound.capacity - 1 then
                [report] else []
      ensures tradesEmitted == Wrap64(old(tradesEmitted) + 1)
    {
      var ok := outbound.TryPush(report);
      tradesEmitted := Wrap64(tradesEmitted + 1);
    }

    /** The trade callback's calls for one operation, in the order the book made them. */
    method Forward(reports: seq<TradeReport>)
      requires outbound.Valid() && (this as object) !in {outbound as object, outbound.storage}
      modifies this`tradesEmitted, outbound, outbound.storage
      ensures outbound.Valid()
      ensures outbound.Items() == Fitting(old(outbound.Items()), reports, outbound.capacity)
      ensures tradesEmitted == Wrap64(old(tradesEmitted) + |reports|)
    {
      hide SpscQueue<TradeReport>.Valid, Fitting, Wrap64;
      WrapSame(tradesEmitted);
      ghost var queued := outbound.Items();
      FittingNone(queued, outbound.capacity);
      for i := 0 to |reports|
        invariant outbound.Valid()
        invariant outbound.Items() == Fitting(queued, reports[..i], outbound.capacity)
        invariant tradesEmitted == Wrap64(old(tradesEmitted) + i)
      {
        FittingTwice(queued, reports[..i], [reports[i]], outbound.capacity);
        OnTrade(reports[i]);
        WrapTwice(old(tradesEmitted), i, 1);
        assert reports[..i + 1] == reports[..i] + [reports[i]];
      }
      assert reports[..|reports|] == reports;
    }

    /** Routes a message to the book operation it names. */
    method Operate(msg: OrderMessage)
      requires book.Valid() && ValidMessage(msg, |book.model.bidExcess|)
      modifies book.Repr()
      ensures book.Valid()
      ensures var h := Handle(old(book.model), msg);
              book.model == h.state && book.reports == old(book.reports) + h.reports
      ensures old(book.AsBoard()).book.Shaped() && book.AsBoard() == HandleBoard(old(book.AsBoard()), msg)
    {
      hide OrderBook.Valid, Inv, Handle, Add, Modify, Cancel, ReportsOf, AddBoard, CancelBoard, ModifyBoard;
      book.ValidModel();
      HandleCases(book.model, msg);
      if msg.action == ADD || msg.action == EXECUTE {
        var o := book.AddOrder(msg);
      } else if msg.action == CANCEL {
        var ok := book.CancelOrder(msg.originalOrderId);
      } else if msg.action == MODIFY {
        var o := book.ModifyOrder(msg.originalOrderId, msg.quantity, msg.arrival);
      }
    }

    ghost function Snap(): Snapshot
      reads this, outbound, outbound.storage, book.Repr()
      requires outbound.Valid()
    {
      Snapshot(book.AsBoard(), book.reports, outbound.Items(), msgsProcessed, tradesEmitted)
    }

    /** `dispatch`: the message's effect on the book, and its reports downstream. */
    method Dispatch(msg: OrderMessage)
      requires Apart() && outbound.Valid() && book.Valid() && ValidMessage(msg, |book.model.bidExcess|)
      modifies this`msgsProcessed, this`tradesEmitted, book.Repr(), outbound, outbound.storage
      ensures outbound.Valid() && book.Valid()
      ensures old(book.model.Shaped()) && Snap() == Consumed(old(Snap()), [msg], outbound.capacity)
      ensures |book.model.bidExcess| == |old(book.model.bidExcess)|
      ensures old(book.model.Shaped()) && var m := old(book.model);
              if msg.action == 0 || msg.action == 3 then
                var o := Incoming(msg.orderId, if msg.side == 0 then Buy else Sell, msg.price, msg.quantity);
                book.model == Add(m, o).state && |book.reports| == |old(book.reports)| + |Add(m, o).fills|
              else if msg.action == 1 then
                book.model == Cancel(m, msg.originalOrderId).state && book.reports == old(book.reports)
              else if msg.action == 2 then
                book.model == Modify(m, msg.originalOrderId, msg.quantity).state && book.reports == old(book.reports)
              else
                book.model == m && book.reports == old(book.reports)
    {
      hide OrderBook.Valid, SpscQueue<TradeReport>.Valid, Fitting, Wrap64, Handle, HandleBoard, Inv, Consumed,
           Add, Cancel, Modify;
      book.ValidModel();
      HandleKeepsInv(book.model, msg);
      HandleCases(book.model, msg);
      ConsumedOne(Snap(), msg, outbound.capacity);
      msgsProcessed := Wrap64(msgsProcessed + 1);
      var before := |book.reports|;
      Operate(msg);
      Forward(book.reports[before..]);
    }

    /** A pop from the inbound queue touches nothing else. */
    method Take() returns (msg: Option<OrderMessage>)
      requires Apart() && inbound.Valid() && outbound.Valid() && book.Valid()
      modifies inbound
      ensures inbound.Valid() && outbound.Valid() && book.Valid() && Snap() == old(Snap())
      ensures msg == if old(inbound.Items()) == [] then None else Some(old(inbound.Items())[0])
      ensures inbound.Items() == if msg.Some? then old(inbound.Items())[1..] else []
    {
      hide OrderBook.Valid, SpscQueue<TradeReport>.Valid, SpscQueue<OrderMessage>.Valid;
      msg := inbound.TryPop();
    }

    /** `run_once`: the book, its reports, the outbound queue and the counters come out as the sequential
        replay of everything that was queued, in order; reports that found no room are counted only. */
    method RunOnce() returns (processed: nat)
      requires Valid()
      modifies this`msgsProcessed, this`tradesEmitted, book.Repr(), inbound, outbound, outbound.storage
      ensures Valid() && inbound.Items() == []
      ensures processed == |old(inbound.Items())|
      ensures old(book.model.Shaped()) && Snap() == Consumed(old(Snap()), old(inbound.Items()), outbound.capacity)
      ensures var h := Replayed(old(book.model), old(inbound.Items()));
              && book.model == h.state && book.reports == old(book.reports) + h.reports
              && old(outbound.Items()) <= outbound.Items() <= old(outbound.Items()) + h.reports
              && |outbound.Items()| == Min(|old(outbound.Items())| + |h.reports|, outbound.capacity - 1)
              && tradesEmitted == Wrap64(old(tradesEmitted) + |h.reports|)
      ensures msgsProcessed == Wrap64(old(msgsProcessed) + processed)
      ensures old(book.AskExact() && Ordinary(book.AsBoard()) && OrdinaryMessages(inbound.Items())) ==>
                book.AskExact() && Ordinary(book.AsBoard())
    {
      hide OrderBook.Valid, SpscQueue<TradeReport>.Valid, SpscQueue<OrderMessage>.Valid, OrderBook.AskExact, Ordinary,
           OrdinaryMessages, Tracks, Inv, Consumed, ValidMessage, InHand, ValidMessages, Replayed, ReplayedBoard,
             Fitting, Min;
      book.ValidModel();
      book.ValidBoard();
      ghost var msgs, done, start := inbound.Items(), [], Snap();
      ConsumedNone(start, outbound.capacity);
      FirstInHand(msgs);
      processed := 0;
      var msg := Take();
      while msg.Some?
        invariant inbound.Valid() && outbound.Valid() && book.Valid()
        invariant |book.model.bidExcess| == |start.board.book.bidExcess|
        invariant InHand(msgs, done, msg, inbound.Items()) && processed == |done|
        invariant Snap() == Consumed(start, done, outbound.capacity)
        decreases |msgs| - processed
      {
        Handover(msgs, done, msg, inbound.Items(), |start.board.book.bidExcess|);
        ConsumedAppend(start, done, msg.value, outbound.capacity);
        Dispatch(msg.value);
        processed := processed + 1;
        done := done + [msg.value];
        msg := Take();
      }
      NothingInHand(msgs, done, inbound.Items(), |start.board.book.bidExcess|);
      book.ValidBoard();
      StaysOrdinary(start, msgs, outbound.capacity);
      ConsumedParts(start, msgs, outbound.capacity);
    }
  }
}
