/** The cached best ask, as a function of the book. A side byte other than Buy and Sell makes it go stale:
    such an order rests as a sell, but when it is cancelled no new best ask is looked for. */
module BestAsk {
  import opened Types
  import opened Matcher
  import opened BookSpec
  import opened BookInvariant
  import opened BookLaws
  import opened BookIdentities

  /** The reference book, with the side byte stored in each slot and the cached best ask. */
  datatype Board = Board(book: State, bytes: seq<Byte>, ask: int) {
    function ByteIn(slot: int): Byte {
      if 0 <= slot < |bytes| then bytes[slot] else SELL
    }

    function WithByte(slot: int, byte: Byte): seq<Byte> {
      if 0 <= slot < |bytes| then bytes[slot := byte] else bytes
    }
  }

  /** Matching a buy moves the best ask if it looked at any level; a sell that rests may lower it. */
  function AskAfterAdd(b: Board, o: Incoming): int
    requires b.book.Shaped()
  {
    if o.side.Buy? then
      if b.ask != INVALID_PRICE && b.ask <= o.price then Best(Add(b.book, o).state.asks) else b.ask
    else if Match(Sell, o.price, o.quantity, b.book.bids).left > 0 && (b.ask == INVALID_PRICE || o.price < b.ask) then
      o.price
    else
      b.ask
  }

  function AddBoard(b: Board, o: Incoming, byte: Byte): (r: Board)
    requires b.book.Shaped()
    ensures r.book.Shaped()
  {
    if b.book.free == [] then b
    else Board(Add(b.book, o).state, b.WithByte(b.book.free[|b.book.free| - 1], byte), AskAfterAdd(b, o))
  }

  /** The best ask is looked for again only if the cancelled order's byte says Sell. */
  function CancelBoard(b: Board, id: Word64): (r: Board)
    requires b.book.Shaped()
    ensures r.book.Shaped()
  {
    var t := Cancel(b.book, id).state;
    match b.book.Locate(id)
    case Nowhere => b
    case At(side, i) =>
      var e := b.book.Of(side)[i];
      b.(book := t, ask := if side.Sell? && b.ByteIn(e.slot) <= SELL && e.price == b.ask then Best(t.asks) else b.ask)
  }

  function ModifyBoard(b: Board, id: Word64, quantity: Word64): (r: Board)
    requires b.book.Shaped()
    ensures r.book.Shaped()
  {
    match b.book.Locate(id)
    case Nowhere => b
    case At(side, i) =>
      var e := b.book.Of(side)[i];
      if quantity <= e.remaining then b.(book := Modify(b.book, id, quantity).state)
      else AddBoard(CancelBoard(b, id), Incoming(id, side, e.price, quantity), b.ByteIn(e.slot))
  }

  /** `AddBoard`, in the order the book goes through it. */
  lemma AddsAsBoard(b: Board, o: Incoming, byte: Byte)
    requires b.book.Shaped()
    ensures b.book.free == [] ==> AddBoard(b, o, byte) == b
    ensures b.book.free != [] ==>
              var slot, left := b.book.free[|b.book.free| - 1],
                Match(o.side, o.price, o.quantity, b.book.Of(o.side.Opposite())).left;
              && AddBoard(b, o, byte).book == Add(b.book, o).state
              && (slot < |b.bytes| ==> AddBoard(b, o, byte).bytes == b.bytes[slot := byte])
              && AddBoard(b, o, byte).ask ==
                 if o.side.Buy? then
                   if b.ask != INVALID_PRICE && b.ask <= o.price then Best(Add(b.book, o).state.asks) else b.ask
                 else if left > 0 && (b.ask == INVALID_PRICE || o.price < b.ask) then o.price else b.ask
  {
  }

  /** The cached best ask is the best ask. */
  predicate Exact(b: Board) {
    b.ask == Best(b.book.asks)
  }

  /** The cached best ask is a bound on the asks, above every bid, and there is a byte for every slot. */
  ghost predicate Tracks(b: Board) {
    && Inv(b.book) && |b.bytes| == |b.book.table|
    && (if b.ask == INVALID_PRICE then b.book.asks == []
        else 0 <= b.ask && forall i :: 0 <= i < |b.book.asks| ==> b.ask <= b.book.asks[i].price)
    && (b.ask == INVALID_PRICE || forall i :: 0 <= i < |b.book.bids| ==> b.book.bids[i].price < b.ask)
  }

  // ----- Add

  lemma BestOfInserted(list: seq<Entry>, e: Entry)
    requires Sorted(Sell, list)
    ensures Best(Insert(Sell, list, e)) == if list == [] || e.price < list[0].price then e.price else Best(list)
  {
    InsertAt(Sell, list, e);
  }

  /** What an add does to the two lists, as far as prices go. */
  lemma AddPrices(s: State, o: Incoming)
    requires Inv(s) && ValidOrder(s, o) && s.free != []
    ensures var t, m := Add(s, o).state, Match(o.side, o.price, o.quantity, s.Of(o.side.Opposite()));
            && Inv(t) && Suffix(t.Of(o.side.Opposite()), s.Of(o.side.Opposite()))
            && (m.left > 0 ==> forall i :: 0 <= i < |m.book| ==> !Crosses(o.side, o.price, m.book[i].price))
            && (if m.left > 0 then
                  var e := Entry(s.free[|s.free| - 1], o.id, o.price, m.left, s.clock);
                  t.Of(o.side) == Insert(o.side, s.Of(o.side), e)
                else t.Of(o.side) == s.Of(o.side))
            && t.Of(o.side.Opposite()) == m.book
            && (s.Of(o.side.Opposite()) == [] || !Crosses(o.side, o.price, s.Of(o.side.Opposite())[0].price) ==>
                  m.left == o.quantity && m.book == s.Of(o.side.Opposite()))
  {
    AddKeepsInv(s, o);
    AddLists(s, o);
    ListsOkEitherWay(s, o.side);
    MatchLeavesSuffix(o.side, o.price, o.quantity, s.Of(o.side.Opposite()));
    MatchTradesDepth(o.side, o.price, o.quantity, s.Of(o.side.Opposite()));
  }

  /** An add keeps the best ask a bound. Afterwards it is exact if and only if it was, or a buy reached it, or
      a sell came to rest there or below. */
  lemma AddExactIff(b: Board, o: Incoming, byte: Byte)
    requires Tracks(b) && ValidOrder(b.book, o)
    ensures Tracks(AddBoard(b, o, byte))
    ensures b.book.free != [] ==>
              (Exact(AddBoard(b, o, byte)) <==>
               Exact(b) || (b.ask != INVALID_PRICE &&
                            if o.side.Buy? then b.ask <= o.price
                            else o.price <= b.ask && Match(Sell, o.price, o.quantity, b.book.bids).left > 0))
  {
    hide Add, Inv, Match, Insert;
    if b.book.free != [] {
      InvLists(b.book);
      AddPrices(b.book, o);
      InvLists(Add(b.book, o).state);
      if o.side.Buy? {
        BuyMoves(b, o);
      } else {
        SellMoves(b, o);
      }
    }
  }

  lemma InvLists(s: State)
    requires Inv(s)
    ensures s.Shaped() && Sorted(Buy, s.bids) && Sorted(Sell, s.asks) && Uncrossed(s.bids, s.asks)
    ensures forall i :: 0 <= i < |s.asks| ==> 0 <= Best(s.asks) <= s.asks[i].price
  {
    BestPrices(s);
  }
  lemma BuyMoves(b: Board, o: Incoming)
    requires Tracks(b) && ValidOrder(b.book, o) && b.book.free != [] && o.side.Buy?
    ensures var t, ask := Add(b.book, o).state, AskAfterAdd(b, o);
            && (if ask == INVALID_PRICE then t.asks == []
                else 0 <= ask && forall i :: 0 <= i < |t.asks| ==> ask <= t.asks[i].price)
            && (ask == INVALID_PRICE || forall i :: 0 <= i < |t.bids| ==> t.bids[i].price < ask)
            && (ask == Best(t.asks) <==> Exact(b) || (b.ask != INVALID_PRICE && b.ask <= o.price))
  {
    hide Add, Inv, Match, Insert;
    AddPrices(b.book, o);
    InvLists(b.book);
    InvLists(Add(b.book, o).state);
    var s := b.book;
    var e := Entry(s.free[|s.free| - 1], o.id, o.price, o.quantity, s.clock);
    InsertAt(Buy, s.bids, e);
  }

  lemma SellMoves(b: Board, o: Incoming)
    requires Tracks(b) && ValidOrder(b.book, o) && b.book.free != [] && o.side.Sell?
    ensures var t, ask := Add(b.book, o).state, AskAfterAdd(b, o);
            && (if ask == INVALID_PRICE then t.asks == []
                else 0 <= ask && forall i :: 0 <= i < |t.asks| ==> ask <= t.asks[i].price)
            && (ask == INVALID_PRICE || forall i :: 0 <= i < |t.bids| ==> t.bids[i].price < ask)
            && (ask == Best(t.asks) <==>
                Exact(b) || (b.ask != INVALID_PRICE && o.price <= b.ask &&
                  Match(Sell, o.price, o.quantity, b.book.bids).left > 0))
  {
    hide Add, Inv, Match, Insert;
    AddPrices(b.book, o);
    InvLists(b.book);
    InvLists(Add(b.book, o).state);
    var s, left := b.book, Match(Sell, o.price, o.quantity, b.book.bids).left;
    var e := Entry(s.free[|s.free| - 1], o.id, o.price, left, s.clock);
    BestOfInserted(s.asks, e);
    InsertAt(Sell, s.asks, e);
  }

  // ----- Cancel and modify

  /** Cancelling this order would leave the cached best ask on an empty tick: it is the only one there, and
      its byte is neither Buy nor Sell. */
  ghost predicate Strands(b: Board, id: Word64)
    requires b.book.Shaped()
  {
    match b.book.Locate(id)
    case Nowhere => false
    case At(side, i) =>
      && side.Sell? && b.ByteIn(b.book.asks[i].slot) > SELL && b.book.asks[i].price == b.ask
      && forall j :: 0 <= j < |b.book.asks| && b.book.asks[j].price == b.ask ==> j == i
  }

  /** A cancel keeps the best ask a bound. Afterwards it is exact if and only if it was, and the order did not
      strand it. */
  lemma CancelExactIff(b: Board, id: Word64)
    requires Tracks(b)
    ensures Tracks(CancelBoard(b, id))
    ensures Exact(CancelBoard(b, id)) <==> Exact(b) && !Strands(b, id)
  {
    hide Inv, Without;
    InvParts(b.book);
    CancelKeepsInv(b.book, id);
    InvLists(b.book);
    InvLists(Cancel(b.book, id).state);
    match b.book.Locate(id)
    case Nowhere =>
    case At(side, i) =>
      CancelMoves(b, id, side, i);
  }

  lemma CancelMoves(b: Board, id: Word64, side: Side, i: nat)
    requires Tracks(b) && b.book.Shaped() && b.book.Locate(id) == At(side, i) && Inv(Cancel(b.book, id).state)
    ensures Tracks(CancelBoard(b, id))
    ensures Exact(CancelBoard(b, id)) <==> Exact(b) && !Strands(b, id)
  {
    hide Inv, Without;
    var t := Cancel(b.book, id).state;
    InvLists(b.book);
    InvLists(t);
    var w := Without<Entry>(b.book.Of(side), i);
    assert t.Of(side) == w && t.Of(side.Opposite()) == b.book.Of(side.Opposite());
    if side.Sell? {
      if i > 0 {
        assert w[0] == b.book.asks[0];
      } else if |b.book.asks| > 1 {
        assert w[0] == b.book.asks[1];
      }
    }
  }

  /** A modification keeps the best ask a bound, and leaves it exact if and only if it was: an increase that
      strands the best ask brings an order back to it. */
  lemma ModifyExactIff(b: Board, id: Word64, quantity: Word64)
    requires Tracks(b)
    ensures Tracks(ModifyBoard(b, id, quantity))
    ensures Exact(ModifyBoard(b, id, quantity)) <==> Exact(b)
  {
    InvParts(b.book);
    hide Tracks, Exact, Inv, Add, Cancel, Modify, AddBoard, CancelBoard;
    match b.book.Locate(id)
    case Nowhere =>
    case At(side, i) =>
      if quantity <= b.book.Of(side)[i].remaining {
        DecreaseMoves(b, id, quantity);
      } else {
        IncreaseMoves(b, id, quantity, side, i);
      }
  }

  lemma DecreaseMoves(b: Board, id: Word64, quantity: Word64)
    requires Tracks(b) && b.book.Locate(id).At?
    requires quantity <= b.book.Of(b.book.Locate(id).side)[b.book.Locate(id).index].remaining
    ensures var r := b.(book := Modify(b.book, id, quantity).state);
            Tracks(r) && (Exact(r) <==> Exact(b))
  {
    hide Inv, Modify;
    ModifyKeepsInv(b.book, id, quantity);
    ModifyDecreases(b.book, id, quantity);
  }

  lemma IncreaseMoves(b: Board, id: Word64, quantity: Word64, side: Side, i: nat)
    requires Tracks(b) && b.book.Shaped() && b.book.Locate(id) == At(side, i) && quantity > b.book.Of(side)[i].remaining
    ensures var e := b.book.Of(side)[i];
            var r := AddBoard(CancelBoard(b, id), Incoming(id, side, e.price, quantity), b.ByteIn(e.slot));
            Tracks(r) && (Exact(r) <==> Exact(b))
  {
    hide Inv, Add, AddBoard, Match, Without;
    var e, c := b.book.Of(side)[i], CancelBoard(b, id);
    var o := Incoming(id, side, e.price, quantity);
    LocatedPrice(b.book, id);
    CancelExactIff(b, id);
    AddExactIff(c, o, b.ByteIn(e.slot));
    InvLists(b.book);
    AddPrices(c.book, o);
  }

  /** Only the byte 1 makes the cancel of a sell look for a new best ask. */
  lemma CancelRescans(b: Board, id: Word64, i: nat)
    requires b.book.Shaped() && b.book.Locate(id) == At(Sell, i) && b.book.asks[i].slot < |b.bytes|
    requires b.bytes[b.book.asks[i].slot] != 0
    ensures CancelBoard(b, id).ask == if b.bytes[b.book.asks[i].slot] == 1 && b.book.asks[i].price == b.ask
                                      then Best(CancelBoard(b, id).book.asks) else b.ask
    ensures CancelBoard(b, id).book == Cancel(b.book, id).state
  {
    hide Cancel;
  }

  // ----- Add, then cancel

  /** When adding an order that does not cross, and cancelling it again, brings the cached best ask back. */
  predicate BringsBack(b: Board, o: Incoming, byte: Byte) {
    if o.side.Buy? then b.ask == INVALID_PRICE || o.price < b.ask
    else if b.ask != INVALID_PRICE && b.ask < o.price then true
    else if byte <= SELL then Exact(b)
    else b.ask == o.price
  }

  lemma AskBackIff(b: Board, o: Incoming, byte: Byte)
    requires Tracks(b) && ValidOrder(b.book, o) && b.book.free != [] && SideOf(byte) == o.side
    requires b.book.Of(o.side.Opposite()) == [] || !Crosses(o.side, o.price, b.book.Of(o.side.Opposite())[0].price)
    ensures var r := CancelBoard(AddBoard(b, o, byte), o.id);
            && r.book == b.book.(clock := b.book.clock + 1, table := b.book.table[b.book.Cell(o.id) := NULL])
            && (r.ask == b.ask <==> BringsBack(b, o, byte))
  {
    hide Inv, AddBoard, CancelBoard;
    InvLists(b.book);
    BackParts(b, o, byte);
  }

  lemma BackParts(b: Board, o: Incoming, byte: Byte)
    requires Tracks(b) && ValidOrder(b.book, o) && b.book.free != [] && SideOf(byte) == o.side
    requires b.book.Of(o.side.Opposite()) == [] || !Crosses(o.side, o.price, b.book.Of(o.side.Opposite())[0].price)
    ensures var a, r := AddBoard(b, o, byte), CancelBoard(AddBoard(b, o, byte), o.id);
            && r.book == b.book.(clock := b.book.clock + 1, table := b.book.table[b.book.Cell(o.id) := NULL])
            && a.ask == (if o.side.Buy? then
                           if b.ask != INVALID_PRICE && b.ask <= o.price then Best(b.book.asks) else b.ask
                         else if b.ask == INVALID_PRICE || o.price < b.ask then o.price else b.ask)
            && r.ask == (if o.side.Sell? && byte <= SELL && o.price == a.ask then Best(b.book.asks) else a.ask)
  {
    hide Inv, AddBoard, CancelBoard, Add, Cancel;
    InvParts(b.book);
    var k := AddedBoard(b, o, byte);
    AddThenCancel(b.book, o);
    CancelledAsk(AddBoard(b, o, byte), o.id, o.side, k);
  }

  /** The board after an order that does not cross has been added. */
  lemma AddedBoard(b: Board, o: Incoming, byte: Byte) returns (k: nat)
    requires Tracks(b) && ValidOrder(b.book, o) && b.book.free != []
    requires b.book.Of(o.side.Opposite()) == [] || !Crosses(o.side, o.price, b.book.Of(o.side.Opposite())[0].price)
    ensures var a, slot := AddBoard(b, o, byte), b.book.free[|b.book.free| - 1];
            && a.book == Add(b.book, o).state && a.book.Locate(o.id) == At(o.side, k)
            && a.book.Of(o.side)[k] == Entry(slot, o.id, o.price, o.quantity, b.book.clock) && a.ByteIn(slot) == byte
            && a.ask == (if o.side.Buy? then
                           if b.ask != INVALID_PRICE && b.ask <= o.price then Best(b.book.asks) else b.ask
                         else if b.ask == INVALID_PRICE || o.price < b.ask then o.price else b.ask)
  {
    hide Inv, Add, Match, Insert, Rank, AddBoard;
    InvParts(b.book);
    k := AddedIsLocated(b.book, o);
    AddsAsBoard(b, o, byte);
    AddPrices(b.book, o);
    FreeByte(b, byte);
  }

  lemma FreeByte(b: Board, byte: Byte)
    requires Tracks(b) && b.book.free != []
    ensures var slot := b.book.free[|b.book.free| - 1];
            slot < |b.bytes| && b.bytes[slot := byte][slot] == byte
  {
    hide TableOk, ListOk, Uncrossed;
    FreeOnce(b.book, multiset{}, |b.book.free| - 1);
  }

  lemma CancelledAsk(b: Board, id: Word64, side: Side, i: nat)
    requires b.book.Shaped() && b.book.Locate(id) == At(side, i)
    ensures var e, r := b.book.Of(side)[i], CancelBoard(b, id);
            && r.book == Cancel(b.book, id).state
            && r.ask == if side.Sell? && b.ByteIn(e.slot) <= SELL && e.price == b.ask then Best(r.book.asks) else b.ask
  {
    hide Cancel;
  }
}
