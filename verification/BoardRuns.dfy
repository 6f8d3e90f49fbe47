/** The cached best ask over whole runs of messages. */
module BoardRuns {
  import opened Types
  import opened Matcher
  import opened BookSpec
  import opened BookInvariant
  import opened BookIdentities
  import opened BestAsk
  import opened Replay

  lemma InvOf(b: Board)
    requires Tracks(b)
    ensures b.book.Shaped() && Inv(b.book)
  {
  }

  function HandleBoard(b: Board, m: OrderMessage): (r: Board)
    requires b.book.Shaped()
    ensures r.book.Shaped()
  {
    if m.action == ADD || m.action == EXECUTE then AddBoard(b, IncomingOf(m), m.side)
    else if m.action == CANCEL then CancelBoard(b, m.originalOrderId)
    else if m.action == MODIFY then ModifyBoard(b, m.originalOrderId, m.quantity)
    else b
  }

  function ReplayedBoard(b: Board, msgs: seq<OrderMessage>): (r: Board)
    requires b.book.Shaped()
    ensures r.book.Shaped()
  {
    if msgs == [] then b else HandleBoard(ReplayedBoard(b, msgs[..|msgs| - 1]), msgs[|msgs| - 1])
  }

  lemma ReplayedBoardAppend(b: Board, msgs: seq<OrderMessage>, m: OrderMessage)
    requires b.book.Shaped()
    ensures ReplayedBoard(b, msgs + [m]) == HandleBoard(ReplayedBoard(b, msgs), m)
  {
    assert (msgs + [m])[..|msgs|] == msgs;
  }

  lemma HandleBoardBook(b: Board, m: OrderMessage)
    requires b.book.Shaped()
    ensures HandleBoard(b, m).book == Handle(b.book, m).state
  {
    hide Match;
  }

  /** A replayed board holds the replayed book. */
  lemma {:induction false} ReplayedBoardBook(b: Board, msgs: seq<OrderMessage>)
    requires b.book.Shaped()
    ensures ReplayedBoard(b, msgs).book == Replayed(b.book, msgs).state
    decreases |msgs|
  {
    hide HandleBoard, Handle;
    if msgs == [] {
    } else {
      var before := ReplayedBoard(b, msgs[..|msgs| - 1]);
      ReplayedBoardBook(b, msgs[..|msgs| - 1]);
      HandleBoardBook(before, msgs[|msgs| - 1]);
    }
  }

  // ----- Exact throughout

  /** This message cancels an order that strands the best ask. */
  ghost predicate StrandedBy(b: Board, m: OrderMessage)
    requires b.book.Shaped()
  {
    m.action == CANCEL && Strands(b, m.originalOrderId)
  }

  lemma HandleTracks(b: Board, m: OrderMessage)
    requires Tracks(b) && ValidMessage(m, |b.book.bidExcess|)
    ensures var r := HandleBoard(b, m);
            && Tracks(r) && |r.book.bidExcess| == |b.book.bidExcess|
            && (Exact(b) ==> (Exact(r) <==> !StrandedBy(b, m)))
  {
    InvParts(b.book);
    HandleBoardBook(b, m);
    HandleKeepsInv(b.book, m);
    hide Tracks, Exact, Inv, Strands, AddBoard, CancelBoard, ModifyBoard, Handle;
    if m.action == ADD || m.action == EXECUTE {
      AddKeepsExact(b, IncomingOf(m), m.side);
    } else if m.action == CANCEL {
      CancelExactIff(b, m.originalOrderId);
    } else if m.action == MODIFY {
      ModifyExactIff(b, m.originalOrderId, m.quantity);
    }
  }

  lemma AddKeepsExact(b: Board, o: Incoming, byte: Byte)
    requires Tracks(b) && ValidOrder(b.book, o)
    ensures Tracks(AddBoard(b, o, byte)) && (Exact(b) ==> Exact(AddBoard(b, o, byte)))
  {
    hide Add, Match;
    AddExactIff(b, o, byte);
  }

  lemma {:induction false} ReplayTracks(b: Board, msgs: seq<OrderMessage>)
    requires Tracks(b) && ValidMessages(msgs, |b.book.bidExcess|)
    ensures Tracks(ReplayedBoard(b, msgs)) && |ReplayedBoard(b, msgs).book.bidExcess| == |b.book.bidExcess|
    decreases |msgs|
  {
    hide Inv, HandleBoard, ValidMessage;
    InvOf(b);
    if msgs == [] {
    } else {
      ReplayTracks(b, msgs[..|msgs| - 1]);
      HandleTracks(ReplayedBoard(b, msgs[..|msgs| - 1]), msgs[|msgs| - 1]);
    }
  }

  ghost predicate ExactThroughout(b: Board, msgs: seq<OrderMessage>)
    requires b.book.Shaped()
  {
    forall k :: 0 <= k <= |msgs| ==> Exact(ReplayedBoard(b, msgs[..k]))
  }

  ghost predicate NeverStranded(b: Board, msgs: seq<OrderMessage>)
    requires b.book.Shaped()
  {
    forall k :: 0 <= k < |msgs| ==> !StrandedBy(ReplayedBoard(b, msgs[..k]), msgs[k])
  }

  lemma PrefixStep(b: Board, msgs: seq<OrderMessage>, k: nat)
    requires Tracks(b) && ValidMessages(msgs, |b.book.bidExcess|) && k < |msgs|
    ensures var before, after := ReplayedBoard(b, msgs[..k]), ReplayedBoard(b, msgs[..k + 1]);
            Exact(before) ==> (Exact(after) <==> !StrandedBy(before, msgs[k]))
  {
    hide Inv, HandleBoard, ValidMessage, Exact, StrandedBy;
    InvOf(b);
    ReplayTracks(b, msgs[..k]);
    assert msgs[..k + 1] == msgs[..k] + [msgs[k]];
    ReplayedBoardAppend(b, msgs[..k], msgs[k]);
    HandleTracks(ReplayedBoard(b, msgs[..k]), msgs[k]);
  }

  lemma {:induction false} ExactUpTo(b: Board, msgs: seq<OrderMessage>, k: nat)
    requires Tracks(b) && ValidMessages(msgs, |b.book.bidExcess|) && Exact(b) && NeverStranded(b, msgs) && k <= |msgs|
    ensures Exact(ReplayedBoard(b, msgs[..k]))
  {
    hide Tracks, Exact, StrandedBy, HandleBoard;
    if k == 0 {
      assert msgs[..0] == [];
    } else {
      ExactUpTo(b, msgs, k - 1);
      PrefixStep(b, msgs, k - 1);
    }
  }

  /** Whatever the side bytes, the cached best ask is exact after every message of a run if and only if no
      cancel of the run strands it. */
  lemma ExactThroughoutIff(b: Board, msgs: seq<OrderMessage>)
    requires Tracks(b) && ValidMessages(msgs, |b.book.bidExcess|) && Exact(b)
    ensures ExactThroughout(b, msgs) <==> NeverStranded(b, msgs)
  {
    InvOf(b);
    hide Exact, StrandedBy, HandleBoard, Inv, ReplayedBoard;
    if NeverStranded(b, msgs) {
      forall k | 0 <= k <= |msgs|
        ensures Exact(ReplayedBoard(b, msgs[..k]))
      {
        ExactUpTo(b, msgs, k);
      }
    }
    if ExactThroughout(b, msgs) {
      forall k | 0 <= k < |msgs|
        ensures !StrandedBy(ReplayedBoard(b, msgs[..k]), msgs[k])
      {
        PrefixStep(b, msgs, k);
      }
    }
  }

  // ----- Ordinary side bytes

  /** Every resting ask was added with the byte Buy or Sell. */
  ghost predicate Ordinary(b: Board) {
    forall i :: 0 <= i < |b.book.asks| ==> b.ByteIn(b.book.asks[i].slot) <= SELL
  }

  predicate OrdinaryMessage(m: OrderMessage) {
    m.action == ADD || m.action == EXECUTE ==> m.side <= SELL
  }

  predicate OrdinaryMessages(msgs: seq<OrderMessage>) {
    forall i :: 0 <= i < |msgs| ==> OrdinaryMessage(msgs[i])
  }

  lemma AddKeepsOrdinary(b: Board, o: Incoming, byte: Byte)
    requires Tracks(b) && ValidOrder(b.book, o) && Ordinary(b) && (o.side.Buy? || byte <= SELL)
    ensures Ordinary(AddBoard(b, o, byte))
  {
    hide Inv, Add, Match, Insert, AskAfterAdd;
    if b.book.free != [] {
      var s, slot := b.book, b.book.free[|b.book.free| - 1];
      var e := Entry(slot, o.id, o.price, Match(o.side, o.price, o.quantity, s.Of(o.side.Opposite())).left, s.clock);
      AddPrices(s, o);
      InvParts(s);
      FreeOnce(s, multiset{}, |s.free| - 1);
      InsertAt(o.side, s.Of(o.side), e);
      var asks := Add(s, o).state.asks;
      forall i | 0 <= i < |asks|
        ensures AddBoard(b, o, byte).ByteIn(asks[i].slot) <= SELL
      {
        AskBefore(s, o, e, asks, i);
        ByteElsewhere(b, slot, byte, asks[i].slot);
      }
    }
  }

  lemma ByteElsewhere(b: Board, slot: nat, byte: Byte, x: nat)
    requires Ordinary(b) && slot < |b.bytes|
    requires (x == slot && byte <= SELL) ||
               (x != slot && exists j :: 0 <= j < |b.book.asks| && b.book.asks[j].slot == x)
    ensures b.(bytes := b.WithByte(slot, byte)).ByteIn(x) <= SELL
  {
  }

  /** An ask after an add is the new one, or was there before. */
  lemma AskBefore(s: State, o: Incoming, e: Entry, asks: seq<Entry>, i: nat)
    requires i < |asks|
    requires if o.side.Buy? then Suffix(asks, s.asks) else asks == s.asks || asks == Insert(Sell, s.asks, e)
    ensures (o.side.Sell? && asks[i] == e) || exists j :: 0 <= j < |s.asks| && s.asks[j].slot == asks[i].slot
  {
    hide Insert;
    if o.side.Buy? {
      assert s.asks[i + |s.asks| - |asks|].slot == asks[i].slot;
    } else {
      InsertAt(Sell, s.asks, e);
      if asks == s.asks {
        assert s.asks[i].slot == asks[i].slot;
      } else if i < Rank(Sell, s.asks, e.price) {
        assert s.asks[i].slot == asks[i].slot;
      } else if i > Rank(Sell, s.asks, e.price) {
        assert s.asks[i - 1].slot == asks[i].slot;
      }
    }
  }

  lemma CancelKeepsOrdinary(b: Board, id: Word64)
    requires b.book.Shaped() && Ordinary(b)
    ensures Ordinary(CancelBoard(b, id))
  {
    hide Without;
  }

  lemma ModifyKeepsOrdinary(b: Board, id: Word64, quantity: Word64)
    requires Tracks(b) && Ordinary(b)
    ensures Ordinary(ModifyBoard(b, id, quantity))
  {
    InvOf(b);
    hide Tracks, Ordinary, Inv, AddBoard, CancelBoard, Modify;
    match b.book.Locate(id)
    case Nowhere =>
    case At(side, i) =>
      if quantity <= b.book.Of(side)[i].remaining {
        DecreaseKeepsOrdinary(b, id, quantity);
      } else {
        IncreaseKeepsOrdinary(b, id, quantity, side, i);
      }
  }

  lemma DecreaseKeepsOrdinary(b: Board, id: Word64, quantity: Word64)
    requires Tracks(b) && Ordinary(b) && b.book.Locate(id).At?
    requires quantity <= b.book.Of(b.book.Locate(id).side)[b.book.Locate(id).index].remaining
    ensures Ordinary(b.(book := Modify(b.book, id, quantity).state))
  {
    hide Inv, Modify;
    ModifyDecreases(b.book, id, quantity);
  }

  lemma IncreaseKeepsOrdinary(b: Board, id: Word64, quantity: Word64, side: Side, i: nat)
    requires Tracks(b) && Ordinary(b) && b.book.Shaped() && b.book.Locate(id) == At(side, i)
    requires quantity > b.book.Of(side)[i].remaining
    ensures var e := b.book.Of(side)[i];
            Ordinary(AddBoard(CancelBoard(b, id), Incoming(id, side, e.price, quantity), b.ByteIn(e.slot)))
  {
    hide Inv, AddBoard, CancelBoard, Step;
    var e := b.book.Of(side)[i];
    CancelKeepsOrdinary(b, id);
    CancelExactIff(b, id);
    LocatedPrice(b.book, id);
    CancelTicks(b, id);
    AddKeepsOrdinary(CancelBoard(b, id), Incoming(id, side, e.price, quantity), b.ByteIn(e.slot));
  }

  lemma CancelTicks(b: Board, id: Word64)
    requires b.book.Shaped()
    ensures |CancelBoard(b, id).book.bidExcess| == |b.book.bidExcess|
  {
  }

  /** With the bytes Buy and Sell only, nothing strands the best ask. */
  lemma OrdinaryStep(b: Board, m: OrderMessage)
    requires Tracks(b) && Ordinary(b) && ValidMessage(m, |b.book.bidExcess|) && OrdinaryMessage(m)
    ensures Ordinary(HandleBoard(b, m)) && !StrandedBy(b, m)
  {
    hide Tracks, Inv, AddBoard, CancelBoard, ModifyBoard;
    InvOf(b);
    if m.action == ADD || m.action == EXECUTE {
      AddKeepsOrdinary(b, IncomingOf(m), m.side);
    } else if m.action == CANCEL {
      CancelKeepsOrdinary(b, m.originalOrderId);
    } else if m.action == MODIFY {
      ModifyKeepsOrdinary(b, m.originalOrderId, m.quantity);
    }
  }

  lemma {:induction false} OrdinaryUpTo(b: Board, msgs: seq<OrderMessage>, k: nat)
    requires Tracks(b) && Ordinary(b) && ValidMessages(msgs, |b.book.bidExcess|) && k <= |msgs|
    requires OrdinaryMessages(msgs)
    ensures Ordinary(ReplayedBoard(b, msgs[..k]))
    ensures k < |msgs| ==> !StrandedBy(ReplayedBoard(b, msgs[..k]), msgs[k])
    decreases k
  {
    hide Inv, Ordinary, OrdinaryMessage, HandleBoard, StrandedBy, ValidMessage;
    InvOf(b);
    if k == 0 {
      assert msgs[..0] == [];
    } else {
      OrdinaryUpTo(b, msgs, k - 1);
      ReplayTracks(b, msgs[..k - 1]);
      OrdinaryStep(ReplayedBoard(b, msgs[..k - 1]), msgs[k - 1]);
      assert msgs[..k] == msgs[..k - 1] + [msgs[k - 1]];
      ReplayedBoardAppend(b, msgs[..k - 1], msgs[k - 1]);
    }
    ReplayTracks(b, msgs[..k]);
    if k < |msgs| {
      OrdinaryStep(ReplayedBoard(b, msgs[..k]), msgs[k]);
    }
  }

  /** With the bytes Buy and Sell only, a cached best ask that is exact stays exact after every message. */
  lemma OrdinaryExact(b: Board, msgs: seq<OrderMessage>)
    requires Tracks(b) && Exact(b) && Ordinary(b) && ValidMessages(msgs, |b.book.bidExcess|)
    requires OrdinaryMessages(msgs)
    ensures ExactThroughout(b, msgs) && Ordinary(ReplayedBoard(b, msgs))
  {
    hide Tracks, Exact, Ordinary, OrdinaryMessage, StrandedBy, ReplayedBoard;
    InvOf(b);
    forall k | 0 <= k < |msgs|
      ensures !StrandedBy(ReplayedBoard(b, msgs[..k]), msgs[k])
    {
      OrdinaryUpTo(b, msgs, k);
    }
    ExactThroughoutIff(b, msgs);
    OrdinaryUpTo(b, msgs, |msgs|);
    assert msgs[..|msgs|] == msgs;
  }

  /** A new book starts that way. */
  lemma NewBoard(b: Board, slots: nat, ticks: nat)
    requires slots > 0 && b.book == Empty(slots, ticks) && |b.bytes| == slots && b.ask == INVALID_PRICE
    ensures Tracks(b) && Exact(b) && Ordinary(b)
  {
    EmptyInv(slots, ticks);
  }
}
