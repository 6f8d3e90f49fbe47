/** The gateway: validates and decodes frames, stamps them, and queues them for the engine. */
module Gateway {
  import opened Types
  import opened Spsc
  import opened Protocol
  import opened Arrivals

  /** A default-constructed message. */
  const BLANK_MESSAGE := OrderMessage(ADD, BUY, 0, 0, INVALID_PRICE, 0, 0)

  class MarketDataGateway {
    const queue: SpscQueue<OrderMessage>
    var acceptedFrames: Word64
    var droppedFrames: Word64

    ghost predicate Valid()
      reads this, queue, queue.storage
    {
      && (this as object) !in {queue as object, queue.storage}
      && queue.Valid()
    }

    constructor (queue: SpscQueue<OrderMessage>)
      requires queue.Valid()
      ensures Valid() && this.queue == queue && acceptedFrames == droppedFrames == 0
    {
      this.queue := queue;
      acceptedFrames, droppedFrames := 0, 0;
    }

    /** Best-effort enqueue: exactly one of the counters moves. */
    method Enqueue(msg: OrderMessage) returns (ok: bool)
      requires Valid()
      modifies this, queue, queue.storage
      ensures Valid()
      ensures ok == (|old(queue.Items())| < queue.capacity - 1)
      ensures queue.Items() == old(queue.Items()) + if ok then [msg] else []
      ensures acceptedFrames == Wrap64(old(acceptedFrames) + if ok then 1 else 0)
      ensures droppedFrames == Wrap64(old(droppedFrames) + if ok then 0 else 1)
    {
      hide SpscQueue<OrderMessage>.Valid;
      ok := queue.TryPush(msg);
      if !ok {
        droppedFrames := Wrap64(droppedFrames + 1);
        return;
      }
      acceptedFrames := Wrap64(acceptedFrames + 1);
    }

    /** `process_frame`: queues the decoded message stamped with `now`, unless the frame is malformed or
        there is no room; a refused frame leaves the queue as it was. */
    method ProcessFrame(buf: array<Byte>, len: nat, now: Word64) returns (ok: bool)
      requires Valid() && len <= buf.Length
      modifies this, queue, queue.storage
      ensures Valid()
      ensures var offered := Stamped(OfFrame(old(buf[..len]), now));
              && (offered.Some? <==> old(len >= 48 && buf[..5] == [0x4F, 0x4D, 0x45, 0x01, 1]))
              && ok == (offered.Some? && |old(queue.Items())| < queue.capacity - 1)
              && queue.Items() == old(queue.Items()) + (if ok then [offered.value] else [])
              && (offered.Some? ==> old(LaidOut(buf[..len], offered.value)) && offered.value.arrival == now)
      ensures acceptedFrames == Wrap64(old(acceptedFrames) + if ok then 1 else 0)
      ensures droppedFrames == Wrap64(old(droppedFrames) + if ok then 0 else 1)
    {
      hide SpscQueue<OrderMessage>.Valid, Accepts, LaidOut, Decoded;
      StampedIs(OfFrame(buf[..len], now));
      assert len >= 48 ==> buf[..len][..5] == buf[..5];
      DecodedIfAccepted(buf[..len]);
      var decoded, msg := Decode(buf, len, BLANK_MESSAGE);
      if !decoded {
        droppedFrames := Wrap64(droppedFrames + 1);
        return false;
      }
      ok := Enqueue(msg.(arrival := now));
    }

    /** `inject_order`: a message without an arrival stamp gets one. */
    method InjectOrder(msg: OrderMessage, now: Word64) returns (ok: bool)
      requires Valid()
      modifies this, queue, queue.storage
      ensures Valid()
      ensures ok == (|old(queue.Items())| < queue.capacity - 1)
      ensures queue.Items() == old(queue.Items()) + if ok then [Stamped(OfMessage(msg, now)).value] else []
      ensures var stamped := msg.(arrival := if msg.arrival == 0 then now else msg.arrival);
              queue.Items() == old(queue.Items()) + if ok then [stamped] else []
      ensures acceptedFrames == Wrap64(old(acceptedFrames) + if ok then 1 else 0)
      ensures droppedFrames == Wrap64(old(droppedFrames) + if ok then 0 else 1)
    {
      ok := Enqueue(msg.(arrival := if msg.arrival == 0 then now else msg.arrival));
    }

    method ResetCounters()
      requires Valid()
      modifies this`acceptedFrames, this`droppedFrames
      ensures Valid() && acceptedFrames == droppedFrames == 0
    {
      acceptedFrames, droppedFrames := 0, 0;
    }
  }
}
