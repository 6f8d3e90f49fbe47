/** The 48-byte wire frame, byte by byte: a header of 8 bytes and a body of five 64-bit words, little-endian. */
module Protocol {
  import opened Types

  const MAGIC: Word32 := 0x01454D4F
  const VERSION: Byte := 1
  const FRAME_SIZE: nat := 48

  /** The low `width` bytes of a number, least significant first. */
  function LittleEndian(n: nat, width: nat): (bytes: seq<Byte>)
    ensures |bytes| == width
    decreases width
  {
    if width == 0 then [] else [n % TWO8] + LittleEndian(n / TWO8, width - 1)
  }

  function FromLittleEndian(bytes: seq<Byte>): nat {
    if bytes == [] then 0 else bytes[0] + TWO8 * FromLittleEndian(bytes[1..])
  }

  function Pow256(width: nat): (p: nat)
    ensures p >= 1
  {
    if width == 0 then 1 else TWO8 * Pow256(width - 1)
  }

  lemma {:induction false} BytesOfNumber(n: nat, width: nat)
    requires n < Pow256(width)
    ensures FromLittleEndian(LittleEndian(n, width)) == n
    decreases width
  {
    if width == 0 {
    } else {
      BytesOfNumber(n / TWO8, width - 1);
      assert LittleEndian(n, width)[1..] == LittleEndian(n / TWO8, width - 1);
    }
  }

  lemma {:induction false} NumberOfBytes(bytes: seq<Byte>)
    ensures FromLittleEndian(bytes) < Pow256(|bytes|)
    ensures LittleEndian(FromLittleEndian(bytes), |bytes|) == bytes
    decreases |bytes|
  {
    if bytes == [] {
    } else {
      NumberOfBytes(bytes[1..]);
      var n, rest := FromLittleEndian(bytes), FromLittleEndian(bytes[1..]);
      assert n % TWO8 == bytes[0] && n / TWO8 == rest;
    }
  }

  lemma Widths()
    ensures Pow256(4) == TWO32 && Pow256(8) == TWO64
  {
    assert Pow256(2) == 0x1_0000;
    assert Pow256(6) == 0x1_0000_0000_0000;
  }

  /** Two's complement. */
  function Unsigned(p: Int64): Word64 {
    if p < 0 then p + TWO64 else p
  }

  function Signed(w: Word64): (p: Int64)
    ensures Unsigned(p) == w
  {
    if w >= TWO63 then w - TWO64 else w
  }

  // ----- The format

  function Header(action: Byte, side: Byte): seq<Byte> {
    LittleEndian(MAGIC, 4) + [VERSION, action, side, 0]
  }

  function Frame(m: OrderMessage, timestamp: Word64): (frame: seq<Byte>)
    ensures |frame| == FRAME_SIZE
  {
    Header(m.action, m.side) + LittleEndian(m.orderId, 8) + LittleEndian(m.originalOrderId, 8)
    + LittleEndian(Unsigned(m.price), 8) + LittleEndian(m.quantity, 8) + LittleEndian(timestamp, 8)
  }

  /** The 64-bit word at an offset. */
  function Word(frame: seq<Byte>, offset: nat): Word64
    requires offset + 8 <= |frame|
  {
    NumberOfBytes(frame[offset..offset + 8]);
    Widths();
    FromLittleEndian(frame[offset..offset + 8])
  }

  predicate Accepts(frame: seq<Byte>) {
    |frame| >= FRAME_SIZE && FromLittleEndian(frame[..4]) == MAGIC && frame[4] == VERSION
  }

  function Decoded(frame: seq<Byte>): Option<OrderMessage> {
    if !Accepts(frame) then None
    else Some(OrderMessage(frame[5], frame[6], Word(frame, 8), Word(frame, 16),
                           Signed(Word(frame, 24)), Word(frame, 32), 0))
  }

  lemma DecodedIfAccepted(frame: seq<Byte>)
    ensures Decoded(frame).Some? <==> Accepts(frame)
  {
  }

  // ----- Round trips

  lemma WordIs(frame: seq<Byte>, offset: nat, w: Word64)
    requires offset + 8 <= |frame| && frame[offset..offset + 8] == LittleEndian(w, 8)
    ensures Word(frame, offset) == w
  {
    Widths();
    BytesOfNumber(w, 8);
  }

  lemma WordBytes(frame: seq<Byte>, offset: nat)
    requires offset + 8 <= |frame|
    ensures LittleEndian(Word(frame, offset), 8) == frame[offset..offset + 8]
  {
    NumberOfBytes(frame[offset..offset + 8]);
  }

  /** Every message survives the wire, whatever its price and enumeration bytes, and whatever bytes follow
      the frame; only the arrival stamp, which is not sent, comes back as zero. */
  lemma DecodeEncoded(m: OrderMessage, timestamp: Word64, junk: seq<Byte>)
    ensures Decoded(Frame(m, timestamp) + junk) == Some(m.(arrival := 0))
  {
    hide Word, LittleEndian, FromLittleEndian;
    var f := Frame(m, timestamp) + junk;
    Widths();
    BytesOfNumber(MAGIC, 4);
    assert f[..4] == LittleEndian(MAGIC, 4);
    WordIs(f, 8, m.orderId);
    WordIs(f, 16, m.originalOrderId);
    WordIs(f, 24, Unsigned(m.price));
    WordIs(f, 32, m.quantity);
  }

  /** Re-encoding an accepted frame with its own timestamp gives back every byte except the reserved one,
      which becomes zero. */
  lemma EncodeDecoded(frame: seq<Byte>)
    requires |frame| == FRAME_SIZE && Accepts(frame)
    ensures Frame(Decoded(frame).value, Word(frame, 40)) == frame[7 := 0]
  {
    hide Word, LittleEndian, FromLittleEndian;
    NumberOfBytes(frame[..4]);
    WordBytes(frame, 8);
    WordBytes(frame, 16);
    WordBytes(frame, 24);
    WordBytes(frame, 32);
    WordBytes(frame, 40);
    assert frame == frame[..4] + frame[4..8] + frame[8..16] + frame[16..24] + frame[24..32] + frame[32..40] +
             frame[40..48];
  }

  /** A frame is accepted exactly when it is long enough and opens with these five bytes. */
  lemma AcceptedBytes(frame: seq<Byte>)
    ensures Accepts(frame) <==> |frame| >= 48 && frame[..5] == [0x4F, 0x4D, 0x45, 0x01, 1]
  {
    var magic := [0x4F, 0x4D, 0x45, 0x01];
    assert LittleEndian(MAGIC, 4) == magic;
    BytesOfNumber(MAGIC, 4) by { Widths(); }
    if |frame| >= FRAME_SIZE {
      NumberOfBytes(frame[..4]);
      assert frame[..5] == frame[..4] + [frame[4]];
      assert FromLittleEndian(frame[..4]) == MAGIC <==> frame[..4] == magic;
      assert magic + [1] == [0x4F, 0x4D, 0x45, 0x01, 1];
      assert frame[..5] == magic + [1] ==> frame[..4] == frame[..5][..4] == magic;
    }
  }

  // ----- The layout, byte by byte

  /** The eight bytes from an offset on are those of `w`, least significant first. */
  ghost predicate IsWord(frame: seq<Byte>, offset: nat, w: int) {
    && offset + 8 <= |frame|
    && var b := (i: int) requires 0 <= i < 8 => frame[offset + i] as int;
       w == b(0) + 0x100 * b(1) + 0x1_0000 * b(2) + 0x100_0000 * b(3) + 0x1_0000_0000 * b(4) + 0x100_0000_0000 * b(5)
            + 0x1_0000_0000_0000 * b(6) + 0x100_0000_0000_0000 * b(7)
  }

  /** Where a frame keeps the fields of a message: action and side in bytes 5 and 6, then from bytes 8, 16, 24
      and 32 the order id, the original order id, the two's-complement price and the quantity. */
  ghost predicate LaidOut(frame: seq<Byte>, m: OrderMessage) {
    && |frame| >= 48 && frame[5] == m.action && frame[6] == m.side
    && IsWord(frame, 8, m.orderId) && IsWord(frame, 16, m.originalOrderId)
    && IsWord(frame, 24, if m.price < 0 then m.price + 0x1_0000_0000_0000_0000 else m.price)
    && IsWord(frame, 32, m.quantity)
  }

  lemma FirstByte(bytes: seq<Byte>, rest: seq<Byte>)
    requires bytes != [] && rest == bytes[1..]
    ensures FromLittleEndian(bytes) == bytes[0] + 0x100 * FromLittleEndian(rest)
  {
  }

  lemma EightBytes(b: seq<Byte>)
    requires |b| == 8
    ensures IsWord(b, 0, FromLittleEndian(b))
  {
    hide FromLittleEndian;
    FirstByte(b, b[1..]);
    FirstByte(b[1..], b[2..]);
    FirstByte(b[2..], b[3..]);
    FirstByte(b[3..], b[4..]);
    FirstByte(b[4..], b[5..]);
    FirstByte(b[5..], b[6..]);
    FirstByte(b[6..], b[7..]);
    FirstByte(b[7..], []);
    NoBytes();
  }

  lemma NoBytes()
    ensures FromLittleEndian([]) == 0
  {
  }

  lemma WordLayout(frame: seq<Byte>, offset: nat)
    requires offset + 8 <= |frame|
    ensures IsWord(frame, offset, Word(frame, offset))
  {
    hide FromLittleEndian;
    EightBytes(frame[offset..offset + 8]);
  }

  /** Every accepted frame is decoded by this layout. */
  lemma DecodedLayout(frame: seq<Byte>)
    requires Accepts(frame)
    ensures LaidOut(frame, Decoded(frame).value) && Decoded(frame).value.arrival == 0
  {
    hide IsWord, Word;
    WordLayout(frame, 8);
    WordLayout(frame, 16);
    WordLayout(frame, 24);
    WordLayout(frame, 32);
    SignedWord(Word(frame, 24));
  }

  lemma SignedWord(w: Word64)
    ensures w == if Signed(w) < 0 then Signed(w) + 0x1_0000_0000_0000_0000 else Signed(w)
  {
  }

  /** Every message is encoded by it, with its timestamp from byte 40 on. */
  lemma FrameLayout(m: OrderMessage, timestamp: Word64)
    ensures var f := Frame(m, timestamp);
            && |f| == 48 && f[..5] == [0x4F, 0x4D, 0x45, 0x01, 1] && f[7] == 0
            && LaidOut(f, m) && IsWord(f, 40, timestamp)
  {
    hide IsWord, Word, LittleEndian, FromLittleEndian;
    var f := Frame(m, timestamp);
    assert f + [] == f;
    DecodeEncoded(m, timestamp, []);
    DecodedIfAccepted(f);
    AcceptedBytes(f);
    DecodedLayout(f);
    WordIs(f, 40, timestamp);
    WordLayout(f, 40);
  }

  // ----- The operations on buffers

  /** A little-endian store into the buffer. */
  method Store(buf: array<Byte>, offset: nat, n: nat, width: nat)
    requires offset + width <= buf.Length
    modifies buf
    ensures buf[..offset + width] == old(buf[..offset]) + LittleEndian(n, width)
    ensures forall i :: offset + width <= i < buf.Length ==> buf[i] == old(buf[i])
  {
    var bytes := LittleEndian(n, width);
    forall i | 0 <= i < width {
      buf[offset + i] := bytes[i];
    }
  }

  /** `encode`: fills in the frame and leaves the rest of the buffer alone. */
  method Encode(m: OrderMessage, timestamp: Word64, buf: array<Byte>)
    requires buf.Length >= FRAME_SIZE
    modifies buf
    ensures buf[..] == Frame(m, timestamp) + old(buf[FRAME_SIZE..])
    ensures buf[..5] == [0x4F, 0x4D, 0x45, 0x01, 1] && buf[7] == 0
    ensures LaidOut(buf[..48], m) && IsWord(buf[..48], 40, timestamp)
  {
    hide LittleEndian, IsWord;
    ghost var rest := buf[FRAME_SIZE..];
    Store(buf, 0, MAGIC, 4);
    buf[4], buf[5], buf[6], buf[7] := VERSION, m.action, m.side, 0;
    ghost var done := Header(m.action, m.side);
    assert buf[..8] == done;
    Store(buf, 8, m.orderId, 8);
    done := done + LittleEndian(m.orderId, 8);
    assert buf[..16] == done;
    Store(buf, 16, m.originalOrderId, 8);
    done := done + LittleEndian(m.originalOrderId, 8);
    assert buf[..24] == done;
    Store(buf, 24, Unsigned(m.price), 8);
    done := done + LittleEndian(Unsigned(m.price), 8);
    assert buf[..32] == done;
    Store(buf, 32, m.quantity, 8);
    done := done + LittleEndian(m.quantity, 8);
    assert buf[..40] == done;
    Store(buf, 40, timestamp, 8);
    assert buf[FRAME_SIZE..] == rest;
    FrameLayout(m, timestamp);
    assert buf[..48] == Frame(m, timestamp);
    assert buf[..5] == buf[..48][..5];
  }

  /** `decode`: a rejected frame leaves the out parameter as it was. */
  method Decode(buf: array<Byte>, len: nat, out: OrderMessage) returns (ok: bool, result: OrderMessage)
    requires len <= buf.Length
    ensures ok == Accepts(buf[..len])
    ensures result == if ok then Decoded(buf[..len]).value else out
    ensures ok <==> len >= 48 && buf[..5] == [0x4F, 0x4D, 0x45, 0x01, 1]
    ensures ok ==> LaidOut(buf[..len], result) && result.arrival == 0
  {
    hide LaidOut;
    AcceptedBytes(buf[..len]);
    assert len >= 48 ==> buf[..len][..5] == buf[..5];
    result := out;
    if len < FRAME_SIZE {
      return false, out;
    }
    assert buf[..len][..4] == buf[..4];
    if FromLittleEndian(buf[..4]) != MAGIC {
      return false, out;
    }
    if buf[4] != VERSION {
      return false, out;
    }
    ok := true;
    result := OrderMessage(buf[5], buf[6], Word(buf[..len], 8), Word(buf[..len], 16),
                           Signed(Word(buf[..len], 24)), Word(buf[..len], 32), 0);
    DecodedLayout(buf[..len]);
  }
}
