/** What reaches the gateway, and what it offers to the engine. */
module Arrivals {
  import opened Types
  import opened Protocol

  /** What reaches the gateway, and the time it reads on arrival. */
  datatype Arrival = OfFrame(bytes: seq<Byte>, now: Word64) | OfMessage(msg: OrderMessage, now: Word64)

  /** The message the gateway offers to the engine, unless the frame is malformed. */
  function Stamped(a: Arrival): Option<OrderMessage> {
    match a
    case OfFrame(bytes, now) => if Accepts(bytes) then Some(Decoded(bytes).value.(arrival := now)) else None
    case OfMessage(msg, now) => Some(msg.(arrival := if msg.arrival == 0 then now else msg.arrival))
  }

  function Offers(arrivals: seq<Arrival>): seq<OrderMessage> {
    if arrivals == [] then []
    else
      Offers(arrivals[..|arrivals| - 1]) +
      match Stamped(arrivals[|arrivals| - 1]) case None => [] case Some(m) => [m]
  }

  function Malformed(arrivals: seq<Arrival>): nat {
    if arrivals == [] then 0
    else Malformed(arrivals[..|arrivals| - 1]) + if Stamped(arrivals[|arrivals| - 1]).None? then 1 else 0
  }

  lemma ArrivalsAppend(arrivals: seq<Arrival>, a: Arrival)
    ensures Offers(arrivals + [a]) == Offers(arrivals) + match Stamped(a) case None => [] case Some(m) => [m]
    ensures Malformed(arrivals + [a]) == Malformed(arrivals) + if Stamped(a).None? then 1 else 0
  {
    assert (arrivals + [a])[..|arrivals|] == arrivals;
  }

  /** A frame is offered if and only if it is long enough and opens with the five bytes of the format; then what
      is offered has its fields from where the format keeps them, and the time of arrival. Other frames are
      malformed. A message is always offered, with its own stamp unless that is zero. */
  lemma StampedIs(a: Arrival)
    ensures a.OfFrame? ==>
              (Stamped(a).Some? <==> |a.bytes| >= 48 && a.bytes[..5] == [0x4F, 0x4D, 0x45, 0x01, 1])
    ensures a.OfFrame? && Stamped(a).Some? ==> LaidOut(a.bytes, Stamped(a).value) && Stamped(a).value.arrival == a.now
    ensures a.OfMessage? ==> Stamped(a) == Some(if a.msg.arrival == 0 then a.msg.(arrival := a.now) else a.msg)
  {
    hide LaidOut;
    if a.OfFrame? {
      AcceptedBytes(a.bytes);
      if Accepts(a.bytes) {
        DecodedLayout(a.bytes);
        Restamped(a.bytes, Decoded(a.bytes).value, a.now);
      }
    }
  }

  lemma Restamped(frame: seq<Byte>, m: OrderMessage, now: Word64)
    requires LaidOut(frame, m)
    ensures LaidOut(frame, m.(arrival := now))
  {
  }

  /** An encoded message, whatever bytes follow it, is offered as it was, stamped on arrival. */
  lemma EncodedIsOffered(m: OrderMessage, timestamp: Word64, junk: seq<Byte>, now: Word64)
    ensures Stamped(OfFrame(Frame(m, timestamp) + junk, now)) == Some(m.(arrival := now))
  {
    hide Decoded, Frame, Accepts;
    DecodeEncoded(m, timestamp, junk);
    DecodedIfAccepted(Frame(m, timestamp) + junk);
  }

  /** A frame that encodes a message, whatever its timestamp and whatever bytes follow. */
  ghost predicate Carries(a: Arrival, m: OrderMessage) {
    a.OfFrame? && exists t: Word64, junk :: a.bytes == Frame(m, t) + junk
  }

  /** A stream of encoded messages is offered in order, each stamped with the time its frame arrived, and
      nothing of it is malformed. */
  lemma {:induction false} StreamIsOffered(arrivals: seq<Arrival>, msgs: seq<OrderMessage>)
    requires |arrivals| == |msgs|
    requires forall i :: 0 <= i < |msgs| ==> Carries(arrivals[i], msgs[i])
    ensures |Offers(arrivals)| == |msgs| && Malformed(arrivals) == 0
    ensures forall i :: 0 <= i < |msgs| ==> Offers(arrivals)[i] == msgs[i].(arrival := arrivals[i].now)
  {
    hide Frame, Stamped;
    if arrivals == [] {
    } else {
      var n := |arrivals| - 1;
      StreamIsOffered(arrivals[..n], msgs[..n]);
      var t: Word64, junk :| arrivals[n].bytes == Frame(msgs[n], t) + junk;
      EncodedIsOffered(msgs[n], t, junk, arrivals[n].now);
      assert arrivals[n] == OfFrame(Frame(msgs[n], t) + junk, arrivals[n].now);
    }
  }
}
