/** The ring buffer as a protocol between two threads. Every atomic load, slot access and atomic store is
    a step of its own, and the steps of the two threads interleave freely. An acquire load of the other
    thread's index may return any value of that index's modification order that is no older than the last
    one seen. A slot read is only promised the bytes of a write that the reader has acquired. */
module SpscProtocol {
  import opened Types
  import opened RingMath

  /** A slot: never written, being written, or holding the item with this number. */
  datatype Cell<T> = Blank | Torn | Full(version: nat, value: T)

  /** Where each thread is in its call, with the values in its registers. */
  datatype Producer<T> =
    | PIdle
    | PLoaded(item: T, tail: nat)
    | PChecked(item: T, tail: nat)
    | PWriting(item: T, tail: nat)
    | PWritten(item: T, tail: nat)

  datatype Consumer<T> =
    | CIdle
    | CLoaded(head: nat)
    | CChecked(head: nat)
    | CReading(head: nat)
    | CTaken(head: nat, taken: T)

  /** How a completed push ended; a refusal records which value of the head index it observed. */
  datatype Fate = Accepted | Refused(seen: nat)

  /** `heads` and `tails` are the modification orders of the two indices. `headSeen` and `tailSeen` are how
      far into them the other thread has looked. `offered`, `fates`, `pushed` and `popped` are history. */
  datatype Ring<T> = Ring(
    cells: seq<Cell<T>>, heads: seq<nat>, tails: seq<nat>,
    producer: Producer<T>, consumer: Consumer<T>,
    headSeen: nat, tailSeen: nat,
    offered: seq<T>, fates: seq<Fate>, pushed: seq<T>, popped: seq<T>)

  datatype Action<T> =
    | PStart(item: T) | PCheck(h: nat) | PWriteBegin | PWriteEnd | PPublish
    | CStart | CCheck(t: nat) | CReadBegin | CReadEnd(v: T) | CRelease

  function Init<T>(capacity: nat): Ring<T> {
    Ring(seq(capacity, _ => Blank), [0], [0], PIdle, CIdle, 0, 0, [], [], [], [])
  }

  function Successor(index: nat, capacity: nat): nat
    requires capacity > 0
  {
    And(index + 1, capacity - 1)
  }

  function Put<T>(cells: seq<Cell<T>>, i: nat, c: Cell<T>): (r: seq<Cell<T>>)
    ensures |r| == |cells|
  {
    if i < |cells| then cells[i := c] else cells
  }

  /** Whether the memory may answer a read of slot `i` with `v`. */
  predicate MayRead<T(==)>(r: Ring<T>, i: nat, v: T) {
    i < |r.cells| && r.cells[i].Full? && r.cells[i].version < r.tailSeen ==> v == r.cells[i].value
  }

  predicate Shaped<T>(r: Ring<T>) {
    |r.cells| > 0 && |r.heads| > 0 && |r.tails| > 0
  }

  predicate Enabled<T(==)>(r: Ring<T>, a: Action<T>) {
    match a
    case PStart(_) => r.producer.PIdle?
    case PCheck(h) => r.producer.PLoaded? && r.headSeen <= h < |r.heads|
    case PWriteBegin => r.producer.PChecked?
    case PWriteEnd => r.producer.PWriting?
    case PPublish => r.producer.PWritten?
    case CStart => r.consumer.CIdle?
    case CCheck(t) => r.consumer.CLoaded? && r.tailSeen <= t < |r.tails|
    case CReadBegin => r.consumer.CChecked?
    case CReadEnd(v) => r.consumer.CReading? && MayRead(r, r.consumer.head, v)
    case CRelease => r.consumer.CTaken?
  }

  function Next<T(==)>(r: Ring<T>, a: Action<T>): (n: Ring<T>)
    requires Shaped(r) && Enabled(r, a)
    ensures Shaped(n) && |n.cells| == |r.cells|
  {
    match a
    case PStart(item) => r.(producer := PLoaded(item, r.tails[|r.tails| - 1]))
    case PCheck(h) =>
      var p := r.producer;
      if Successor(p.tail, |r.cells|) == r.heads[h] then
        r.(producer := PIdle, headSeen := h, offered := r.offered + [p.item], fates := r.fates + [Refused(h)])
      else
        r.(producer := PChecked(p.item, p.tail), headSeen := h)
    case PWriteBegin => var p := r.producer;
      r.(producer := PWriting(p.item, p.tail), cells := Put(r.cells, p.tail, Torn))
    case PWriteEnd => var p := r.producer;
      r.(producer := PWritten(p.item, p.tail), cells := Put(r.cells, p.tail, Full(|r.pushed|, p.item)))
    case PPublish => var p := r.producer;
      r.(producer := PIdle, tails := r.tails + [Successor(p.tail, |r.cells|)],
      pushed := r.pushed + [p.item], offered := r.offered + [p.item], fates := r.fates + [Accepted])
    case CStart => r.(consumer := CLoaded(r.heads[|r.heads| - 1]))
    case CCheck(t) =>
      r.(tailSeen := t, consumer := if r.consumer.head == r.tails[t] then CIdle else CChecked(r.consumer.head))
    case CReadBegin => r.(consumer := CReading(r.consumer.head))
    case CReadEnd(v) => r.(consumer := CTaken(r.consumer.head, v))
    case CRelease => var c := r.consumer;
      r.(consumer := CIdle, heads := r.heads + [Successor(c.head, |r.cells|)], popped := r.popped + [c.taken])
  }

  /** The accepted among the offered items, in order. */
  function Kept<T>(offered: seq<T>, fates: seq<Fate>): (kept: seq<T>)
    requires |offered| == |fates|
    ensures |kept| <= |offered|
  {
    if offered == [] then []
    else
      var n := |offered| - 1;
      Kept(offered[..n], fates[..n]) + if fates[n].Accepted? then [offered[n]] else []
  }

  /** A push was refused only when, counting the pops it had observed, the ring was full. */
  ghost predicate RefusedWhenFull<T>(offered: seq<T>, fates: seq<Fate>, capacity: nat)
    requires |offered| == |fates|
  {
    forall k :: 0 <= k < |fates| && fates[k].Refused? ==>
      |Kept(offered[..k], fates[..k])| - fates[k].seen == capacity - 1
  }

  /** What refusals observed never goes back, and is bounded by `seen`. */
  ghost predicate SeenInOrder(fates: seq<Fate>, seen: nat) {
    forall j, k :: 0 <= j <= k < |fates| && fates[j].Refused? && fates[k].Refused? ==>
      fates[j].seen <= fates[k].seen <= seen
  }

  lemma SeenAppend(fates: seq<Fate>, fate: Fate, seen: nat, seen': nat)
    requires SeenInOrder(fates, seen) && seen <= seen' && (fate.Refused? ==> seen <= fate.seen <= seen')
    ensures SeenInOrder(fates + [fate], seen')
  {
  }

  lemma SeenLater(fates: seq<Fate>, seen: nat, seen': nat)
    requires SeenInOrder(fates, seen) && seen <= seen'
    ensures SeenInOrder(fates, seen')
  {
  }

  lemma KeptAppend<T>(offered: seq<T>, fates: seq<Fate>, item: T, fate: Fate)
    requires |offered| == |fates|
    ensures Kept(offered + [item], fates + [fate]) == Kept(offered, fates) + if fate.Accepted? then [item] else []
  {
    assert (offered + [item])[..|offered|] == offered && (fates + [fate])[..|offered|] == fates;
  }

  lemma RefusedAppend<T>(offered: seq<T>, fates: seq<Fate>, item: T, fate: Fate, capacity: nat)
    requires |offered| == |fates| && RefusedWhenFull(offered, fates, capacity)
    requires fate.Refused? ==> |Kept(offered, fates)| - fate.seen == capacity - 1
    ensures RefusedWhenFull(offered + [item], fates + [fate], capacity)
  {
    forall k | 0 <= k <= |fates| && (fates + [fate])[k].Refused?
      ensures |Kept((offered + [item])[..k], (fates + [fate])[..k])| - (fates + [fate])[k].seen == capacity - 1
    {
      assert (offered + [item])[..k] == offered[..k] && (fates + [fate])[..k] == fates[..k];
      assert k == |fates| ==> offered[..k] == offered && fates[..k] == fates;
    }
  }

  /** `at` lists, in order, exactly the positions of the accepted offers. */
  ghost predicate AcceptedAt(fates: seq<Fate>, at: seq<nat>) {
    && (forall i :: 0 <= i < |at| ==> at[i] < |fates| && fates[at[i]].Accepted?)
    && (forall i, j :: 0 <= i < j < |at| ==> at[i] < at[j])
    && (forall k :: 0 <= k < |fates| && fates[k].Accepted? ==> k in at)
  }

  lemma AcceptedAtAppend(fates: seq<Fate>, at: seq<nat>, fate: Fate)
    requires AcceptedAt(fates, at)
    ensures AcceptedAt(fates + [fate], if fate.Accepted? then at + [|fates|] else at)
  {
    var all, at' := fates + [fate], if fate.Accepted? then at + [|fates|] else at;
    forall k | 0 <= k < |all| && all[k].Accepted?
      ensures k in at'
    {
      if k < |fates| {
        assert k in at;
      } else {
        assert at'[|at|] == k;
      }
    }
  }

  ghost predicate Picks<T>(offered: seq<T>, at: seq<nat>, kept: seq<T>) {
    |at| == |kept| && forall i :: 0 <= i < |at| ==> at[i] < |offered| && kept[i] == offered[at[i]]
  }

  lemma PicksAppend<T>(offered: seq<T>, at: seq<nat>, kept: seq<T>, item: T)
    requires Picks(offered, at, kept)
    ensures Picks(offered + [item], at, kept) && Picks(offered + [item], at + [|offered|], kept + [item])
  {
  }

  lemma KeptStep<T>(offered: seq<T>, fates: seq<Fate>, item: T, fate: Fate, at: seq<nat>)
    requires |offered| == |fates| && AcceptedAt(fates, at) && Picks(offered, at, Kept(offered, fates))
    ensures var at' := if fate.Accepted? then at + [|fates|] else at;
            AcceptedAt(fates + [fate], at') && Picks(offered + [item], at', Kept(offered + [item], fates + [fate]))
  {
    hide AcceptedAt, Picks, Kept;
    AcceptedAtAppend(fates, at, fate);
    PicksAppend(offered, at, Kept(offered, fates), item);
    KeptAppend(offered, fates, item, fate);
    assert Kept(offered, fates) + [] == Kept(offered, fates);
  }

  /** `Kept` is the subsequence at exactly the accepted positions. */
  lemma {:induction false} KeptInOrder<T>(offered: seq<T>, fates: seq<Fate>) returns (at: seq<nat>)
    requires |offered| == |fates|
    ensures AcceptedAt(fates, at) && Picks(offered, at, Kept(offered, fates))
  {
    hide AcceptedAt, Picks, Kept;
    if offered == [] {
      at := [];
      NoneKept(offered, fates);
    } else {
      var n: nat := |offered| - 1;
      at := KeptInOrder(offered[..n], fates[..n]);
      KeptStep(offered[..n], fates[..n], offered[n], fates[n], at);
      at := if fates[n].Accepted? then at + [n] else at;
      assert offered == offered[..n] + [offered[n]] && fates == fates[..n] + [fates[n]];
    }
  }

  lemma NoneKept<T>(offered: seq<T>, fates: seq<Fate>)
    requires |offered| == |fates| == 0
    ensures AcceptedAt(fates, []) && Picks(offered, [], Kept(offered, fates))
  {
  }

  // ----- The invariant

  /** The indices are the counts of pushes and pops, masked; each thread lags behind, within bounds. */
  ghost predicate Indices<T>(r: Ring<T>) {
    && IsCapacity(|r.cells|)
    && |r.heads| == |r.popped| + 1 && |r.tails| == |r.pushed| + 1
    && (forall i :: 0 <= i < |r.heads| ==> r.heads[i] == i % |r.cells|)
    && (forall i :: 0 <= i < |r.tails| ==> r.tails[i] == i % |r.cells|)
    && r.headSeen <= |r.popped| <= r.tailSeen <= |r.pushed| < r.headSeen + |r.cells|
    && r.popped == r.pushed[..|r.popped|]
  }

  /** The producer has a slot in hand, whose old contents are gone. */
  predicate Owns<T>(p: Producer<T>, k: nat) {
    (p.PWriting? || p.PWritten?) && p.tail == k
  }

  /** Every other slot holds the last item that was written there. */
  ghost predicate Contents<T>(r: Ring<T>) {
    && |r.cells| > 0
    && (forall k :: 0 <= k < |r.cells| && !Owns(r.producer, k) ==>
          match r.cells[k]
          case Blank => true
          case Torn => false
          case Full(n, v) => n < |r.pushed| && n % |r.cells| == k && v == r.pushed[n])
    && (forall i :: 0 <= i < |r.pushed| && |r.pushed| <= i + |r.cells| && !Owns(r.producer, i % |r.cells|) ==>
          r.cells[i % |r.cells|] == Full(i, r.pushed[i]))
  }

  ghost predicate ProducerOk<T>(r: Ring<T>)
    requires |r.cells| > 0
  {
    var c := |r.cells|;
    r.producer.PIdle? || (
      && r.producer.tail == |r.pushed| % c
      && (!r.producer.PLoaded? ==> |r.pushed| + 1 < r.headSeen + c)
      && (r.producer.PWriting? ==> r.cells[r.producer.tail].Torn?)
      && (r.producer.PWritten? ==> r.cells[r.producer.tail] == Full(|r.pushed|, r.producer.item)))
  }

  ghost predicate ConsumerOk<T>(r: Ring<T>)
    requires |r.cells| > 0
  {
    r.consumer.CIdle? || (
      && r.consumer.head == |r.popped| % |r.cells|
      && (!r.consumer.CLoaded? ==> |r.popped| < r.tailSeen <= |r.pushed|)
      && (r.consumer.CTaken? ==> |r.popped| < |r.pushed| && r.consumer.taken == r.pushed[|r.popped|]))
  }

  ghost predicate Ledger<T>(r: Ring<T>) {
    && |r.offered| == |r.fates|
    && r.pushed == Kept(r.offered, r.fates)
    && RefusedWhenFull(r.offered, r.fates, |r.cells|)
    && SeenInOrder(r.fates, r.headSeen)
  }

  ghost predicate Inv<T>(r: Ring<T>) {
    Indices(r) && Contents(r) && ProducerOk(r) && ConsumerOk(r) && Ledger(r)
  }

  lemma InitInv<T>(capacity: nat)
    requires IsCapacity(capacity)
    ensures Inv(Init<T>(capacity))
  {
  }

  /** What the check of a push decides, whatever value of the head index it happened to observe. */
  lemma CheckDecides<T>(r: Ring<T>, h: nat)
    requires Indices(r) && ProducerOk(r) && r.producer.PLoaded? && r.headSeen <= h < |r.heads|
    ensures Successor(r.producer.tail, |r.cells|) == (|r.pushed| + 1) % |r.cells|
    ensures Successor(r.producer.tail, |r.cells|) == r.heads[h] <==> |r.pushed| - h == |r.cells| - 1
  {
    var c := |r.cells|;
    MaskIsMod(c, r.producer.tail + 1);
    NextIndex(c, |r.pushed|);
    WholeRing(c, h, |r.pushed| + 1);
  }

  lemma PCheckKeeps<T>(r: Ring<T>, h: nat)
    requires Inv(r) && Enabled(r, PCheck(h))
    ensures Inv(Next(r, PCheck(h)))
  {
    hide Kept, IsCapacity, RefusedWhenFull, SeenInOrder;
    CheckDecides(r, h);
    var n := Next(r, PCheck(h));
    SeenLater(r.fates, r.headSeen, h);
    if n.producer.PIdle? {
      KeptAppend(r.offered, r.fates, r.producer.item, Refused(h));
      RefusedAppend(r.offered, r.fates, r.producer.item, Refused(h), |r.cells|);
      SeenAppend(r.fates, Refused(h), r.headSeen, h);
    }
  }

  /** The slot about to be written holds nothing that the consumer has not released. */
  lemma OldContentsReleased<T>(r: Ring<T>)
    requires Inv(r) && r.producer.PChecked?
    ensures r.producer.tail < |r.cells|
    ensures r.cells[r.producer.tail].Blank? ||
            (r.cells[r.producer.tail].Full? && r.cells[r.producer.tail].version < r.headSeen)
  {
    hide Kept, IsCapacity, RefusedWhenFull, SeenInOrder;
    var c, n := |r.cells|, |r.pushed|;
    if r.cells[r.producer.tail].Full? {
      var v := r.cells[r.producer.tail].version;
      if n < v + c {
        SameCell(c, v, n);
      }
    }
  }

  lemma PWriteBeginKeeps<T>(r: Ring<T>)
    requires Inv(r) && Enabled(r, PWriteBegin)
    ensures Inv(Next(r, PWriteBegin))
  {
    hide Kept, IsCapacity, RefusedWhenFull, SeenInOrder;
  }

  lemma PWriteEndKeeps<T>(r: Ring<T>)
    requires Inv(r) && Enabled(r, PWriteEnd)
    ensures Inv(Next(r, PWriteEnd))
  {
    hide Kept, IsCapacity, RefusedWhenFull, SeenInOrder;
  }

  lemma PPublishKeeps<T>(r: Ring<T>)
    requires Inv(r) && Enabled(r, PPublish)
    ensures Inv(Next(r, PPublish))
  {
    hide Kept, IsCapacity, RefusedWhenFull, SeenInOrder;
    var c := |r.cells|;
    MaskIsMod(c, r.producer.tail + 1);
    NextIndex(c, |r.pushed|);
    KeptAppend(r.offered, r.fates, r.producer.item, Accepted);
    RefusedAppend(r.offered, r.fates, r.producer.item, Accepted, c);
    SeenAppend(r.fates, Accepted, r.headSeen, r.headSeen);
    PublishContents(r);
  }

  lemma PublishContents<T>(r: Ring<T>)
    requires Indices(r) && Contents(r) && ProducerOk(r) && Enabled(r, PPublish)
    ensures Contents(Next(r, PPublish))
  {
    var c, n, m := |r.cells|, |r.pushed|, Next(r, PPublish);
    forall i | 0 <= i < |m.pushed| && |m.pushed| <= i + c
      ensures m.cells[i % c] == Full(i, m.pushed[i])
    {
      SameCell(c, i, n);
    }
  }

  lemma CCheckKeeps<T>(r: Ring<T>, t: nat)
    requires Inv(r) && Enabled(r, CCheck(t))
    ensures Inv(Next(r, CCheck(t)))
    ensures Next(r, CCheck(t)).consumer.CIdle? <==> t == |r.popped|
  {
    hide Kept, IsCapacity, RefusedWhenFull, SeenInOrder;
    SameCell(|r.cells|, |r.popped|, t);
  }

  /** A consumer that has passed its check finds the next item, whole and acquired, in its slot. */
  lemma ItemInPlace<T>(r: Ring<T>)
    requires Inv(r) && (r.consumer.CChecked? || r.consumer.CReading?)
    ensures r.consumer.head < |r.cells| && |r.popped| < r.tailSeen
    ensures r.cells[r.consumer.head] == Full(|r.popped|, r.pushed[|r.popped|])
    ensures !Owns(r.producer, r.consumer.head)
  {
    hide Kept, IsCapacity, RefusedWhenFull, SeenInOrder;
    SameCell(|r.cells|, |r.popped|, |r.pushed|);
  }

  lemma CReadEndKeeps<T>(r: Ring<T>, v: T)
    requires Inv(r) && Enabled(r, CReadEnd(v))
    ensures Inv(Next(r, CReadEnd(v)))
  {
    ItemInPlace(r);
  }

  lemma CReleaseKeeps<T>(r: Ring<T>)
    requires Inv(r) && Enabled(r, CRelease)
    ensures Inv(Next(r, CRelease))
  {
    hide Kept, IsCapacity, RefusedWhenFull, SeenInOrder;
    MaskIsMod(|r.cells|, r.consumer.head + 1);
    NextIndex(|r.cells|, |r.popped|);
  }

  lemma NextKeepsInv<T>(r: Ring<T>, a: Action<T>)
    requires Inv(r) && Enabled(r, a)
    ensures Inv(Next(r, a))
  {
    match a
    case PStart(_) =>
    case PCheck(h) => PCheckKeeps(r, h);
    case PWriteBegin => PWriteBeginKeeps(r);
    case PWriteEnd => PWriteEndKeeps(r);
    case PPublish => PPublishKeeps(r);
    case CStart =>
    case CCheck(t) => CCheckKeeps(r, t);
    case CReadBegin =>
    case CReadEnd(v) => CReadEndKeeps(r, v);
    case CRelease => CReleaseKeeps(r);
  }

  predicate ByProducer<T>(a: Action<T>) {
    a.PStart? || a.PCheck? || a.PWriteBegin? || a.PWriteEnd? || a.PPublish?
  }

  /** What a step of one thread leaves alone on the other side, and how it moves the history. */
  lemma StepEffects<T>(r: Ring<T>, a: Action<T>)
    requires Inv(r) && Enabled(r, a)
    ensures var n := Next(r, a);
            if ByProducer(a) then
              && n.popped == r.popped && n.consumer == r.consumer
              && (a.PStart? <==> r.producer.PIdle?) && (a.PStart? ==> !n.producer.PIdle?)
              && (!n.producer.PIdle? ==> n.producer.item == (if a.PStart? then a.item else r.producer.item))
              && (if n.producer.PIdle? then n.offered == r.offered + [r.producer.item]
                  else n.offered == r.offered && n.pushed == r.pushed)
              && (n.pushed == r.pushed || (n.producer.PIdle? && n.pushed == r.pushed + [r.producer.item]))
            else
              && n.offered == r.offered && n.pushed == r.pushed && n.producer == r.producer
              && (if a.CRelease? then r.consumer.CTaken? && |r.popped| < |r.pushed| &&
                                      n.popped == r.popped + [r.pushed[|r.popped|]] &&
                                      r.consumer.taken == r.pushed[|r.popped|]
                  else n.popped == r.popped)
  {
    hide Kept, IsCapacity, RefusedWhenFull, Contents, Ledger;
  }

  // ----- Runs

  ghost predicate Possible<T>(r: Ring<T>, run: seq<Action<T>>)
    requires Shaped(r)
    decreases |run|
  {
    run == [] || (Enabled(r, run[0]) && Possible(Next(r, run[0]), run[1..]))
  }

  ghost function After<T>(r: Ring<T>, run: seq<Action<T>>): (n: Ring<T>)
    requires Shaped(r) && Possible(r, run)
    ensures Shaped(n) && |n.cells| == |r.cells|
    decreases |run|
  {
    if run == [] then r else After(Next(r, run[0]), run[1..])
  }

  lemma {:induction false} RunKeepsInv<T>(r: Ring<T>, run: seq<Action<T>>)
    requires Inv(r) && Possible(r, run)
    ensures Inv(After(r, run))
    decreases |run|
  {
    hide Next, ProducerOk, ConsumerOk, Ledger;
    if run == [] {
    } else {
      NextKeepsInv(r, run[0]);
      RunKeepsInv(Next(r, run[0]), run[1..]);
    }
  }

  /** Whatever the interleaving and however stale the loads: what was popped is a prefix of what was pushed,
      which is what was offered less what was refused, in order; no unread item is overwritten; there are at
      most `capacity - 1` of them; and a push is refused only when the pushes accepted before it, less the
      pops it had observed, fill the ring. What refusals observe never goes back nor beyond the pops made. */
  lemma FifoTransfer<T>(capacity: nat, run: seq<Action<T>>)
    requires IsCapacity(capacity) && Possible(Init(capacity), run)
    ensures var r := After(Init(capacity), run);
            && |r.offered| == |r.fates|
            && r.popped <= r.pushed == Kept(r.offered, r.fates)
            && RefusedWhenFull(r.offered, r.fates, capacity) && SeenInOrder(r.fates, |r.popped|)
            && |r.pushed| - |r.popped| <= capacity - 1
            && forall i :: |r.popped| <= i < |r.pushed| ==> r.cells[i % capacity] == Full(i, r.pushed[i])
  {
    InitInv<T>(capacity);
    RunKeepsInv(Init(capacity), run);
    var r := After(Init(capacity), run);
    SeenLater(r.fates, r.headSeen, |r.popped|);
    forall i | |r.popped| <= i < |r.pushed|
      ensures r.cells[i % capacity] == Full(i, r.pushed[i])
    {
      SameCell(capacity, i, |r.pushed|);
    }
  }

  lemma {:induction false} FatesGrow<T>(r: Ring<T>, run: seq<Action<T>>)
    requires Shaped(r) && Possible(r, run)
    ensures r.fates <= After(r, run).fates
    decreases |run|
  {
    if run == [] {
    } else {
      FatesGrow(Next(r, run[0]), run[1..]);
    }
  }

  /** Every refusal of a run happened at a step of it: the check observed a head no older than the last one
      seen and no newer than the pops completed by then, and by that head the ring was full. */
  lemma {:induction false} RefusalHappened<T>(r: Ring<T>, run: seq<Action<T>>, k: nat) returns (j: nat)
    requires Inv(r) && Possible(r, run)
    requires |r.fates| <= k < |After(r, run).fates| && After(r, run).fates[k].Refused?
    ensures j < |run| && Possible(r, run[..j])
    ensures var t, seen := After(r, run[..j]), After(r, run).fates[k].seen;
            && run[j] == PCheck(seen) && |t.fates| == k && t.producer.PLoaded?
            && t.headSeen <= seen <= |t.popped| && |t.pushed| - seen == |t.cells| - 1
    decreases |run|
  {
    hide Kept, IsCapacity, RefusedWhenFull, SeenInOrder, Contents, ConsumerOk;
    var n := Next(r, run[0]);
    NextKeepsInv(r, run[0]);
    if k < |n.fates| {
      FatesGrow(n, run[1..]);
      j := 0;
      assert run[..0] == [];
      if run[0].PCheck? {
        CheckDecides(r, run[0].h);
      }
    } else {
      var i := RefusalHappened(n, run[1..], k);
      j := i + 1;
      assert run[..j][0] == run[0] && run[..j][1..] == run[1..][..i];
    }
  }

  /** No data race: a thread about to touch or touching a slot has acquired everything the other did with it,
      and the two are never in the same slot. */
  lemma NoRace<T>(capacity: nat, run: seq<Action<T>>)
    requires IsCapacity(capacity) && Possible(Init(capacity), run)
    ensures var r := After(Init(capacity), run);
            && (r.producer.PChecked? ==>
                  && r.producer.tail < capacity && !r.cells[r.producer.tail].Torn?
                  && (r.cells[r.producer.tail].Full? ==> r.cells[r.producer.tail].version < r.headSeen))
            && (r.consumer.CChecked? || r.consumer.CReading? ==>
                  && r.consumer.head < capacity && |r.popped| < r.tailSeen <= |r.pushed|
                  && r.cells[r.consumer.head] == Full(|r.popped|, r.pushed[|r.popped|])
                  && (r.producer.PChecked? || r.producer.PWriting? ==> r.producer.tail != r.consumer.head))
  {
    hide IsCapacity, Kept, RefusedWhenFull;
    InitInv<T>(capacity);
    RunKeepsInv(Init(capacity), run);
    var r := After(Init(capacity), run);
    if r.producer.PChecked? {
      OldContentsReleased(r);
    }
    if r.consumer.CChecked? || r.consumer.CReading? {
      ItemInPlace(r);
    }
  }

  // ----- Progress

  function StepsLeft<T>(p: Producer<T>): nat {
    match p
    case PIdle => 0
    case PLoaded(_, _) => 4
    case PChecked(_, _) => 3
    case PWriting(_, _) => 2
    case PWritten(_, _) => 1
  }

  function ReadsLeft<T>(c: Consumer<T>): nat {
    match c
    case CIdle => 0
    case CLoaded(_) => 4
    case CChecked(_) => 3
    case CReading(_) => 2
    case CTaken(_, _) => 1
  }

  /** The calls are wait-free: a thread inside one always has a step to take, whatever the other thread
      is doing, and that step brings it nearer to the end and leaves the other thread where it was. */
  lemma WaitFree<T>(r: Ring<T>) returns (a: Action<T>, b: Action<T>)
    requires Inv(r)
    ensures !r.producer.PIdle? ==> Enabled(r, a) && StepsLeft(Next(r, a).producer) < StepsLeft(r.producer) &&
                                   Next(r, a).consumer == r.consumer
    ensures !r.consumer.CIdle? ==> Enabled(r, b) && ReadsLeft(Next(r, b).consumer) < ReadsLeft(r.consumer) &&
                                   Next(r, b).producer == r.producer
  {
    a := match r.producer
    case PIdle => CStart
    case PLoaded(_, _) => PCheck(|r.popped|)
    case PChecked(_, _) => PWriteBegin
    case PWriting(_, _) => PWriteEnd
    case PWritten(_, _) => PPublish;
    if r.consumer.CReading? {
      ItemInPlace(r);
    }
    b := match r.consumer
    case CIdle => CStart
    case CLoaded(_) => CCheck(|r.pushed|)
    case CChecked(_) => CReadBegin
    case CReading(_) => CReadEnd(r.pushed[|r.popped|])
    case CTaken(_, _) => CRelease;
  }

  // ----- The calls, run on their own

  lemma RunCons<T>(r: Ring<T>, a: Action<T>, run: seq<Action<T>>)
    requires Shaped(r) && Enabled(r, a) && Possible(Next(r, a), run)
    ensures Possible(r, [a] + run) && After(r, [a] + run) == After(Next(r, a), run)
  {
    assert ([a] + run)[1..] == run;
  }

  /** With the other thread at rest a push takes these steps, and does what `Spsc.SpscQueue.TryPush` states. */
  lemma SoloPush<T>(r: Ring<T>, item: T) returns (run: seq<Action<T>>)
    requires Inv(r) && r.producer.PIdle?
    ensures Possible(r, run)
    ensures var n, ok := After(r, run), |r.pushed| - |r.popped| < |r.cells| - 1;
            && n.pushed == (if ok then r.pushed + [item] else r.pushed)
            && n.fates == r.fates + [if ok then Accepted else Refused(|r.popped|)]
            && n.popped == r.popped && n.producer.PIdle? && n.consumer == r.consumer
            && n.headSeen == |r.popped| && n.tailSeen == r.tailSeen
  {
    var r1 := Next(r, PStart(item));
    CheckDecides(r1, |r.popped|);
    var r2 := Next(r1, PCheck(|r.popped|));
    run := [];
    if r2.producer.PChecked? {
      var r3 := Next(r2, PWriteBegin);
      var r4 := Next(r3, PWriteEnd);
      RunCons(r4, PPublish, []);
      RunCons(r3, PWriteEnd, [PPublish]);
      RunCons(r2, PWriteBegin, [PWriteEnd] + [PPublish]);
      run := [PWriteBegin] + ([PWriteEnd] + [PPublish]);
    }
    RunCons(r1, PCheck(|r.popped|), run);
    RunCons(r, PStart(item), [PCheck(|r.popped|)] + run);
    run := [PStart(item)] + ([PCheck(|r.popped|)] + run);
  }

  /** With the other thread at rest a pop takes these steps, and does what `Spsc.SpscQueue.TryPop` states. */
  lemma SoloPop<T>(r: Ring<T>) returns (run: seq<Action<T>>)
    requires Inv(r) && r.consumer.CIdle?
    ensures Possible(r, run)
    ensures var n := After(r, run);
            && n.popped == r.pushed[..Min(|r.popped| + 1, |r.pushed|)]
            && n.pushed == r.pushed && n.consumer.CIdle? && n.producer == r.producer
            && n.headSeen == r.headSeen && n.fates == r.fates
  {
    hide Contents, ProducerOk, Ledger, IsCapacity;
    var r1 := Next(r, CStart);
    NextKeepsInv(r, CStart);
    CCheckKeeps(r1, |r.pushed|);
    var r2 := Next(r1, CCheck(|r.pushed|));
    run := [];
    if r2.consumer.CChecked? {
      run := SoloRead(r2);
    }
    RunCons(r1, CCheck(|r.pushed|), run);
    RunCons(r, CStart, [CCheck(|r.pushed|)] + run);
    run := [CStart] + ([CCheck(|r.pushed|)] + run);
  }

  /** The steps of a pop after its check. */
  lemma SoloRead<T>(r: Ring<T>) returns (run: seq<Action<T>>)
    requires Inv(r) && r.consumer.CChecked?
    ensures Possible(r, run) && |r.popped| < |r.pushed|
    ensures After(r, run).popped == r.popped + [r.pushed[|r.popped|]]
    ensures After(r, run).pushed == r.pushed && After(r, run).consumer.CIdle? && After(r, run).producer == r.producer
    ensures After(r, run).headSeen == r.headSeen && After(r, run).fates == r.fates
  {
    ItemInPlace(r);
    hide Inv;
    var v := r.cells[r.consumer.head].value;
    var r3 := Next(r, CReadBegin);
    var r4 := Next(r3, CReadEnd(v));
    RunCons(r4, CRelease, []);
    RunCons(r3, CReadEnd(v), [CRelease]);
    RunCons(r, CReadBegin, [CReadEnd(v)] + [CRelease]);
    run := [CReadBegin] + ([CReadEnd(v)] + [CRelease]);
  }

  // ----- Stale loads happen

  /** Pushes on their own fill a new ring. */
  lemma {:induction false} FillRing<T>(capacity: nat, k: nat, item: T) returns (run: seq<Action<T>>)
    requires IsCapacity(capacity) && k <= capacity - 1
    ensures Possible(Init(capacity), run)
    ensures var r := After(Init(capacity), run);
            |r.pushed| == k && r.popped == [] && r.headSeen == 0 && r.producer.PIdle? && r.consumer.CIdle? && Inv(r)
    decreases k
  {
    hide IsCapacity, Inv, Next, Enabled;
    InitInv<T>(capacity);
    if k == 0 {
      run := [];
    } else {
      var before := FillRing(capacity, k - 1, item);
      var push := SoloPush(After(Init(capacity), before), item);
      RunAppend(Init(capacity), before, push);
      run := before + push;
      RunKeepsInv(Init(capacity), run);
    }
  }

  /** At every capacity there is a run in which a push is refused although the ring is not full by then: the
      consumer has made room, and the producer has not seen it. */
  lemma StaleRefusal<T>(capacity: nat, item: T) returns (run: seq<Action<T>>)
    requires IsCapacity(capacity)
    ensures Possible(Init(capacity), run) && Possible(Init(capacity), run + [PStart(item), PCheck(0)])
    ensures var r := After(Init(capacity), run);
            |r.pushed| - |r.popped| == capacity - 2 && r.producer.PIdle?
    ensures var n := After(Init(capacity), run + [PStart(item), PCheck(0)]);
            n.fates == After(Init(capacity), run).fates + [Refused(0)] && n.pushed == After(Init(capacity), run).pushed
  {
    hide IsCapacity, Contents, ConsumerOk, Ledger;
    MinusOne(capacity);
    var fill := FillRing(capacity, capacity - 1, item);
    var full := After(Init(capacity), fill);
    var pop := SoloPop(full);
    RunAppend(Init(capacity), fill, pop);
    run := fill + pop;
    RunKeepsInv(full, pop);
    var r := After(full, pop);
    var r1 := Next(r, PStart(item));
    CheckDecides(r1, 0);
    TwoSteps(r, PStart(item), PCheck(0));
    RunAppend(Init(capacity), run, [PStart(item), PCheck(0)]);
  }

  lemma TwoSteps<T>(r: Ring<T>, a: Action<T>, b: Action<T>)
    requires Shaped(r) && Enabled(r, a) && Enabled(Next(r, a), b)
    ensures Possible(r, [a, b]) && After(r, [a, b]) == Next(Next(r, a), b)
  {
    assert [a, b][1..] == [b] && [b][1..] == [];
    assert Possible(Next(r, a), [b]) && After(Next(r, a), [b]) == Next(Next(r, a), b);
  }

  /** And there is one in which a pop finds nothing although an item is queued. */
  lemma StaleEmpty<T>(capacity: nat, item: T) returns (run: seq<Action<T>>)
    requires IsCapacity(capacity)
    ensures Possible(Init(capacity), run) && Possible(Init(capacity), run + [CStart, CCheck(0)])
    ensures var r, n := After(Init(capacity), run), After(Init(capacity), run + [CStart, CCheck(0)]);
            && r.pushed == [item] && r.popped == [] && r.consumer.CIdle?
            && n.consumer.CIdle? && n.pushed == [item] && n.popped == []
  {
    hide IsCapacity, Contents, ProducerOk, Ledger;
    InitInv<T>(capacity);
    MinusOne(capacity);
    run := SoloPush(Init(capacity), item);
    RunKeepsInv(Init(capacity), run);
    var r := After(Init(capacity), run);
    var r1 := Next(r, CStart);
    NextKeepsInv(r, CStart);
    CCheckKeeps(r1, 0);
    TwoSteps(r, CStart, CCheck(0));
    RunAppend(Init(capacity), run, [CStart, CCheck(0)]);
  }

  /** A slot that is being written, or whose write the consumer has not acquired, may read as anything. */
  lemma UnacquiredRead<T>(r: Ring<T>, v: T)
    requires r.consumer.CReading? && r.consumer.head < |r.cells|
    requires r.cells[r.consumer.head].Torn? ||
             (r.cells[r.consumer.head].Full? && r.cells[r.consumer.head].version >= r.tailSeen)
    ensures Enabled(r, CReadEnd(v))
  {
  }

  // ----- The size, as different threads see it

  /** `size()` from a tail index loaded first and a head index loaded after it. */
  function SizeOf(capacity: nat, tail: nat, head: nat): nat
    requires capacity > 0
  {
    And(Wrap64(Wrap64(tail - head) + capacity), capacity - 1)
  }

  /** Any thread, whatever values of the two indices it observes, reads the difference of what they count
      modulo the capacity. That is the difference itself if and only if the two loads are at most a ring
      apart, the right way round. */
  lemma SizeReading<T>(r: Ring<T>, t: nat, h: nat)
    requires Indices(r) && t < |r.tails| && h < |r.heads|
    ensures SizeOf(|r.cells|, r.tails[t], r.heads[h]) == (t - h) % |r.cells|
    ensures SizeOf(|r.cells|, r.tails[t], r.heads[h]) == t - h <==> h <= t < h + |r.cells|
  {
    hide And, IsCapacity;
    SizeIsModulo(|r.cells|, h, t);
    OwnRemainder(|r.cells|, t - h);
  }

  /** The producer's view of the size is never too small, the consumer's never too large. */
  lemma SizeFromWithin<T>(r: Ring<T>, t: nat, h: nat)
    requires Inv(r) && r.tailSeen <= t < |r.tails| && r.headSeen <= h < |r.heads|
    ensures SizeOf(|r.cells|, r.tails[|r.pushed|], r.heads[h]) == |r.pushed| - h >= |r.pushed| - |r.popped|
    ensures SizeOf(|r.cells|, r.tails[t], r.heads[|r.popped|]) == t - |r.popped| <= |r.pushed| - |r.popped|
  {
    hide SizeOf, IsCapacity, Contents, ProducerOk, ConsumerOk, Ledger;
    SizeReading(r, |r.pushed|, h);
    SizeReading(r, t, |r.popped|);
  }

  /** A third thread may load the tail before a push and the head after the pop of that item: on every ring
      it computes `capacity - 1`, although the queue never held more than one item. */
  lemma SizeFromOutside<T>(capacity: nat, item: T) returns (run: seq<Action<T>>)
    requires IsCapacity(capacity)
    ensures Possible(Init(capacity), run)
    ensures var r := After(Init(capacity), run);
            && r.pushed == r.popped == [item] && |r.tails| == |r.heads| == 2
            && SizeOf(capacity, r.tails[0], r.heads[1]) == capacity - 1
  {
    hide SizeOf, IsCapacity, Possible, After;
    run := OneItemThrough(capacity, item);
    MinusOne(capacity);
    SizeReading(After(Init(capacity), run), 0, 1);
  }

  // ----- Empty and full, as different threads see them

  /** `empty()` on any observed values of the two indices: they count the same, modulo the capacity. */
  lemma EmptyReading<T>(r: Ring<T>, t: nat, h: nat)
    requires Indices(r) && t < |r.tails| && h < |r.heads|
    ensures r.heads[h] == r.tails[t] <==> (t - h) % |r.cells| == 0
    ensures h <= t < h + |r.cells| ==> (r.heads[h] == r.tails[t] <==> t == h)
  {
    hide And, IsCapacity;
    SameRemainder(|r.cells|, h, t);
    if h <= t < h + |r.cells| {
      OwnRemainder(|r.cells|, t - h);
    }
  }

  /** `full()` likewise: the tail counts one less than a ring ahead of the head, modulo the capacity. */
  lemma FullReading<T>(r: Ring<T>, t: nat, h: nat)
    requires Indices(r) && t < |r.tails| && h < |r.heads|
    ensures Successor(r.tails[t], |r.cells|) == r.heads[h] <==> (t + 1 - h) % |r.cells| == 0
    ensures h <= t < h + |r.cells| ==> (Successor(r.tails[t], |r.cells|) == r.heads[h] <==> t - h == |r.cells| - 1)
  {
    hide And;
    var c := |r.cells|;
    assert Successor(r.tails[t], c) == (t + 1) % c by {
      MaskIsMod(c, r.tails[t] + 1);
      NextIndex(c, t);
    }
    SameRemainder(c, h, t + 1);
    if h <= t < h + c {
      WholeRing(c, h, t + 1);
    }
  }

  /** What the two threads may conclude. The producer can trust a queue it finds empty, and one it does not
      find full; the consumer can trust a queue it finds full, and one it does not find empty. */
  lemma EmptyAndFullFromWithin<T>(r: Ring<T>, t: nat, h: nat)
    requires Inv(r) && r.tailSeen <= t < |r.tails| && r.headSeen <= h < |r.heads|
    ensures r.heads[h] == r.tails[|r.pushed|] ==> r.popped == r.pushed
    ensures Successor(r.tails[|r.pushed|], |r.cells|) != r.heads[h] ==> |r.pushed| - |r.popped| < |r.cells| - 1
    ensures r.heads[|r.popped|] != r.tails[t] ==> |r.popped| < |r.pushed|
    ensures Successor(r.tails[t], |r.cells|) == r.heads[|r.popped|] ==> |r.pushed| - |r.popped| == |r.cells| - 1
  {
    hide And, IsCapacity, Contents, ProducerOk, ConsumerOk, Ledger;
    EmptyReading(r, |r.pushed|, h);
    FullReading(r, |r.pushed|, h);
    EmptyReading(r, t, |r.popped|);
    FullReading(r, t, |r.popped|);
  }

  /** The run of `SizeFromOutside` can show a third thread a full ring, too, at every capacity. */
  lemma FullFromOutside<T>(capacity: nat, item: T) returns (run: seq<Action<T>>)
    requires IsCapacity(capacity)
    ensures Possible(Init(capacity), run)
    ensures var r := After(Init(capacity), run);
            && r.pushed == r.popped == [item] && |r.tails| == |r.heads| == 2
            && Successor(r.tails[0], capacity) == r.heads[1]
  {
    hide IsCapacity, Possible, After;
    run := OneItemThrough(capacity, item);
    MinusOne(capacity);
    FullReading(After(Init(capacity), run), 0, 1);
  }

  /** One item pushed, then popped. */
  lemma OneItemThrough<T>(capacity: nat, item: T) returns (run: seq<Action<T>>)
    requires IsCapacity(capacity)
    ensures Possible(Init(capacity), run)
    ensures var r := After(Init(capacity), run);
            r.pushed == r.popped == [item] && Indices(r)
  {
    hide Next, Enabled, IsCapacity, Contents, ProducerOk, ConsumerOk, Ledger, Possible, After;
    var r := Init<T>(capacity);
    InitInv<T>(capacity);
    MinusOne(capacity);
    var push := SoloPush(r, item);
    RunKeepsInv(r, push);
    var s := After(r, push);
    var pop := SoloPop(s);
    RunKeepsInv(s, pop);
    RunAppend(r, push, pop);
    run := push + pop;
  }

  lemma MinusOne(c: nat)
    requires IsCapacity(c)
    ensures c >= 2 && (0 - 1) % c == c - 1
  {
    ModIs(-1, c, -1, c - 1);
  }

  lemma {:induction false} RunAppend<T>(r: Ring<T>, a: seq<Action<T>>, b: seq<Action<T>>)
    requires Shaped(r) && Possible(r, a) && Possible(After(r, a), b)
    ensures Possible(r, a + b) && After(r, a + b) == After(After(r, a), b)
    decreases |a|
  {
    hide Next, Enabled;
    if a == [] {
      assert a + b == b;
    } else {
      assert (a + b)[1..] == a[1..] + b;
      RunAppend(Next(r, a[0]), a[1..], b);
    }
  }
}
