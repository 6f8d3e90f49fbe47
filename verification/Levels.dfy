/** One side of the book as it is stored: a flat array of price levels, each an intrusive doubly
    linked FIFO threaded through the order slots. */
module Levels {
  import opened Types

  /** `q` is exactly the list from `head` to `tail`, oldest first: acyclic, and linked both ways. */
  ghost predicate Linked(s: seq<Order>, head: int, tail: int, q: seq<nat>) {
    && (forall i :: 0 <= i < |q| ==> q[i] < |s|)
    && (forall i, j :: 0 <= i < j < |q| ==> q[i] != q[j])
    && (if q == [] then head == tail == NULL
        else && head == q[0] && s[q[0]].prev == NULL
             && tail == q[|q| - 1] && s[q[|q| - 1]].next == NULL)
    && (forall i :: 0 <= i < |q| - 1 ==> s[q[i]].next == q[i + 1] && s[q[i + 1]].prev == q[i])
  }

  /** Sum of the remaining quantities over a queue. */
  ghost function Owed(s: seq<Order>, q: seq<nat>): int
    requires forall i :: 0 <= i < |q| ==> q[i] < |s|
  {
    if q == [] then 0 else s[q[0]].Remaining() + Owed(s, q[1..])
  }

  /** Level `p` holds queue `q` of orders of this side and price, and its cached total exceeds the
      true one by `excess`, modulo the machine word. */
  ghost predicate LevelOk(side: Side, s: seq<Order>, p: nat, l: LimitLevel, q: seq<nat>, excess: nat) {
    && l.price == p
    && Linked(s, l.head, l.tail, q)
    && (forall i :: 0 <= i < |q| ==> s[q[i]].side == side && s[q[i]].price == p && s[q[i]].filled <= s[q[i]].quantity)
    && l.total == Wrap64(Owed(s, q) + excess)
    && l.count == Wrap32(|q|)
  }

  ghost predicate LadderOk(side: Side, s: seq<Order>, levels: seq<LimitLevel>, queues: seq<seq<nat>>,
                           excess: seq<nat>) {
    && |levels| == |queues| == |excess|
    && forall p :: 0 <= p < |levels| ==> LevelOk(side, s, p, levels[p], queues[p], excess[p])
  }

  /** Only orders of this side and price were touched, and of those only the links. */
  ghost predicate Relinked(s: seq<Order>, t: seq<Order>, side: Side, p: int) {
    && |s| == |t|
    && forall x :: 0 <= x < |s| ==>
         t[x] == s[x].(next := t[x].next, prev := t[x].prev) &&
         ((s[x].side == side && s[x].price == p) || t[x] == s[x])
  }

  // ----- Lemmas about one queue

  lemma {:induction false} OwedFrame(s: seq<Order>, t: seq<Order>, q: seq<nat>)
    requires |s| == |t| && forall i :: 0 <= i < |q| ==> q[i] < |s| && t[q[i]].Remaining() == s[q[i]].Remaining()
    ensures Owed(t, q) == Owed(s, q)
  {
    if q == [] {
    } else {
      OwedFrame(s, t, q[1..]);
    }
  }

  lemma {:induction false} OwedAppend(s: seq<Order>, a: seq<nat>, b: seq<nat>)
    requires forall i :: 0 <= i < |a| ==> a[i] < |s|
    requires forall i :: 0 <= i < |b| ==> b[i] < |s|
    ensures Owed(s, a + b) == Owed(s, a) + Owed(s, b)
  {
    if a == [] {
      assert a + b == b;
    } else {
      assert (a + b)[1..] == a[1..] + b;
      OwedAppend(s, a[1..], b);
    }
  }

  lemma OwedAt(s: seq<Order>, q: seq<nat>, k: nat)
    requires k < |q| && forall i :: 0 <= i < |q| ==> q[i] < |s|
    ensures Owed(s, q) == Owed(s, Without<nat>(q, k)) + s[q[k]].Remaining()
  {
    assert q == q[..k] + ([q[k]] + q[k + 1..]);
    OwedAppend(s, q[..k], [q[k]] + q[k + 1..]);
    OwedAppend(s, q[..k], q[k + 1..]);
    assert ([q[k]] + q[k + 1..])[1..] == q[k + 1..];
  }

  lemma LevelFrame(side: Side, s: seq<Order>, t: seq<Order>, p: nat, l: LimitLevel, q: seq<nat>, excess: nat)
    requires LevelOk(side, s, p, l, q, excess)
    requires |s| == |t| && forall i :: 0 <= i < |q| ==> t[q[i]] == s[q[i]]
    ensures LevelOk(side, t, p, l, q, excess)
  {
    OwedFrame(s, t, q);
  }

  /** A ladder survives any change that leaves the orders of its own queues alone. */
  lemma LadderFrame(side: Side, s: seq<Order>, t: seq<Order>, levels: seq<LimitLevel>, queues: seq<seq<nat>>,
                    excess: seq<nat>)
    requires LadderOk(side, s, levels, queues, excess)
    requires |s| == |t|
    requires forall p, i :: 0 <= p < |queues| && 0 <= i < |queues[p]| ==>
               queues[p][i] < |s| && t[queues[p][i]] == s[queues[p][i]]
    ensures LadderOk(side, t, levels, queues, excess)
  {
    forall p | 0 <= p < |levels|
      ensures LevelOk(side, t, p, levels[p], queues[p], excess[p])
    {
      LevelFrame(side, s, t, p, levels[p], queues[p], excess[p]);
    }
  }

  /** Replacing one level, when the orders in the other levels did not change. */
  lemma LadderUpdate(side: Side, s: seq<Order>, t: seq<Order>, levels: seq<LimitLevel>, queues: seq<seq<nat>>,
                     excess: seq<nat>,
                     p: nat, l: LimitLevel, q: seq<nat>, x: nat)
    requires LadderOk(side, s, levels, queues, excess) && p < |levels|
    requires |s| == |t|
    requires forall r, i :: 0 <= r < |queues| && r != p && 0 <= i < |queues[r]| ==>
               queues[r][i] < |s| && t[queues[r][i]] == s[queues[r][i]]
    requires LevelOk(side, t, p, l, q, x)
    ensures LadderOk(side, t, levels[p := l], queues[p := q], excess[p := x])
  {
    forall r | 0 <= r < |levels| && r != p
      ensures LevelOk(side, t, r, levels[r], queues[r], excess[r])
    {
      assert LevelOk(side, s, r, levels[r], queues[r], excess[r]);
      LevelFrame(side, s, t, r, levels[r], queues[r], excess[r]);
    }
  }

  // ----- What the pointer updates do to the slots

  /** The slots after `o` was linked in behind `tail`. */
  ghost function LinkedIn(s: seq<Order>, tail: int, o: nat): (t: seq<Order>)
    requires o < |s| && -1 <= tail < |s|
    ensures |t| == |s|
  {
    var t := s[o := s[o].(next := NULL, prev := tail)];
    if tail != NULL then t[tail := t[tail].(next := o)] else t
  }

  /** The slots after `o` was unlinked from its neighbours. */
  ghost function LinkedOut(s: seq<Order>, o: nat): (t: seq<Order>)
    requires o < |s|
    ensures |t| == |s|
  {
    var prev, next := s[o].prev, s[o].next;
    var t := if 0 <= prev < |s| then s[prev := s[prev].(next := next)] else s;
    var u := if 0 <= next < |s| then t[next := t[next].(prev := prev)] else t;
    u[o := u[o].(next := NULL, prev := NULL)]
  }

  lemma LinkedInList(s: seq<Order>, head: int, tail: int, q: seq<nat>, o: nat)
    requires Linked(s, head, tail, q) && o < |s| && o !in q
    ensures Linked(LinkedIn(s, tail, o), if tail == NULL then o else head, o, q + [o])
  {
  }

  lemma LinkedOutList(s: seq<Order>, head: int, tail: int, q: seq<nat>, k: nat)
    requires Linked(s, head, tail, q) && k < |q|
    ensures var o := q[k];
            && -1 <= s[o].prev < |s| && -1 <= s[o].next < |s| && s[o].prev != o && s[o].next != o
            && Linked(LinkedOut(s, o), if s[o].prev == NULL then s[o].next else head,
                      if s[o].next == NULL then s[o].prev else tail, Without<nat>(q, k))
  {
    var o := q[k];
    var q': seq<nat> := Without<nat>(q, k);
    assert s[o].prev == (if k == 0 then NULL else q[k - 1]);
    assert s[o].next == (if k == |q| - 1 then NULL else q[k + 1]);
    var t := LinkedOut(s, o);
    forall i | 0 <= i < |q'| - 1
      ensures t[q'[i]].next == q'[i + 1] && t[q'[i + 1]].prev == q'[i]
    {
      LinkedOutPair(s, head, tail, q, k, i);
    }
  }

  lemma LinkedOutPair(s: seq<Order>, head: int, tail: int, q: seq<nat>, k: nat, i: nat)
    requires Linked(s, head, tail, q) && k < |q| && i < |q| - 2
    ensures var t, q' := LinkedOut(s, q[k]), Without<nat>(q, k);
            q'[i] < |s| && q'[i + 1] < |s| && t[q'[i]].next == q'[i + 1] && t[q'[i + 1]].prev == q'[i]
  {
    assert s[q[k]].prev == (if k == 0 then NULL else q[k - 1]);
    assert s[q[k]].next == (if k == |q| - 1 then NULL else q[k + 1]);
    if i + 1 < k {
      assert s[q[i]].next == q[i + 1] && s[q[i + 1]].prev == q[i];
    } else if i >= k {
      assert s[q[i + 1]].next == q[i + 2] && s[q[i + 2]].prev == q[i + 1];
    } else {
      assert s[q[k]].prev == q[i] && s[q[k]].next == q[i + 2];
    }
  }

  lemma LinkedInFrame(side: Side, s: seq<Order>, p: nat, l: LimitLevel, q: seq<nat>, excess: nat, o: nat)
    requires LevelOk(side, s, p, l, q, excess) && o < |s| && o !in q && s[o].side == side && s[o].price == p
    ensures Relinked(s, LinkedIn(s, l.tail, o), side, p)
  {
  }

  lemma LinkedOutFrame(side: Side, s: seq<Order>, p: nat, l: LimitLevel, q: seq<nat>, excess: nat, k: nat)
    requires LevelOk(side, s, p, l, q, excess) && k < |q|
    ensures -1 <= s[q[k]].prev < |s| && -1 <= s[q[k]].next < |s| && s[q[k]].prev != q[k] && s[q[k]].next != q[k]
    ensures Relinked(s, LinkedOut(s, q[k]), side, p)
  {
    hide LinkedOut, Relinked;
    assert s[q[k]].prev == if k == 0 then NULL else q[k - 1];
    assert s[q[k]].next == if k == |q| - 1 then NULL else q[k + 1];
    LinkedOutRelinks(s, q[k], side, p);
  }

  lemma LinkedOutRelinks(s: seq<Order>, o: nat, side: Side, p: int)
    requires o < |s| && s[o].side == side && s[o].price == p
    requires 0 <= s[o].prev < |s| ==> s[s[o].prev].side == side && s[s[o].prev].price == p
    requires 0 <= s[o].next < |s| ==> s[s[o].next].side == side && s[s[o].next].price == p
    ensures Relinked(s, LinkedOut(s, o), side, p)
  {
  }

  /** `push_back` adds the order's whole quantity, although part of it may already be filled. */
  ghost function PushedLevel(l: LimitLevel, order: Order, o: nat): LimitLevel {
    LimitLevel(l.price, Wrap64(l.total + order.quantity), Wrap32(l.count + 1),
               if l.tail == NULL then o else l.head, o)
  }

  ghost function RemovedLevel(l: LimitLevel, order: Order): LimitLevel {
    LimitLevel(l.price, Wrap64(l.total - (order.quantity - order.filled)), Wrap32(l.count - 1),
               if order.prev == NULL then order.next else l.head, if order.next == NULL then order.prev else l.tail)
  }

  /** Machine-word addition may wrap early or late: the result is the same. */
  lemma AddWraps64(total: int, owed: int, delta: int)
    requires total == Wrap64(owed)
    ensures Wrap64(total + delta) == Wrap64(owed + delta)
  {
  }

  lemma AddWraps32(count: int, length: int, delta: int)
    requires count == Wrap32(length)
    ensures Wrap32(count + delta) == Wrap32(length + delta)
  {
  }

  lemma PushBackKeeps(side: Side, s: seq<Order>, p: nat, l: LimitLevel, q: seq<nat>, excess: nat, o: nat)
    requires LevelOk(side, s, p, l, q, excess) && o < |s| && o !in q
    requires s[o].side == side && s[o].price == p && s[o].filled <= s[o].quantity
    ensures LevelOk(side, LinkedIn(s, l.tail, o), p, PushedLevel(l, s[o], o), q + [o], excess + s[o].filled)
  {
    var t := LinkedIn(s, l.tail, o);
    LinkedInFrame(side, s, p, l, q, excess, o);
    LinkedInList(s, l.head, l.tail, q, o);
    OwedFrame(s, t, q);
    OwedAppend(t, q, [o]);
    AddWraps64(l.total, Owed(s, q) + excess, s[o].quantity);
    AddWraps32(l.count, |q|, 1);
  }

  /** What is left of a queue is still of its side and price, and owes that much less. */
  lemma OwedWithout(s: seq<Order>, t: seq<Order>, side: Side, p: int, q: seq<nat>, k: nat)
    requires Relinked(s, t, side, p) && k < |q| && forall i :: 0 <= i < |q| ==> q[i] < |s|
    ensures forall i :: 0 <= i < |q| - 1 ==> Without<nat>(q, k)[i] < |t|
    ensures Owed(t, Without<nat>(q, k)) == Owed(s, q) - s[q[k]].Remaining()
  {
    hide Owed;
    OwedAt(s, q, k);
    OwedFrame(s, t, Without<nat>(q, k));
  }

  lemma RemoveKeeps(side: Side, s: seq<Order>, p: nat, l: LimitLevel, q: seq<nat>, excess: nat, k: nat)
    requires LevelOk(side, s, p, l, q, excess) && k < |q|
    ensures -1 <= s[q[k]].prev < |s| && -1 <= s[q[k]].next < |s| && s[q[k]].prev != q[k] && s[q[k]].next != q[k]
    ensures LevelOk(side, LinkedOut(s, q[k]), p, RemovedLevel(l, s[q[k]]), Without<nat>(q, k), excess)
  {
    hide LinkedOut, Owed, Wrap64, Wrap32;
    LinkedOutFrame(side, s, p, l, q, excess, k);
    LinkedOutList(s, l.head, l.tail, q, k);
    OwedWithout(s, LinkedOut(s, q[k]), side, p, q, k);
    AddWraps64(l.total, Owed(s, q) + excess, -s[q[k]].Remaining());
    AddWraps32(l.count, |q|, -1);
  }

  /** Relinking at one price leaves the orders queued at the other prices alone. */
  lemma RelinkedFrame(side: Side, s: seq<Order>, t: seq<Order>, levels: seq<LimitLevel>, queues: seq<seq<nat>>,
                      excess: seq<nat>, p: nat)
    requires LadderOk(side, s, levels, queues, excess) && Relinked(s, t, side, p)
    ensures forall r, i :: 0 <= r < |queues| && r != p && 0 <= i < |queues[r]| ==>
              queues[r][i] < |s| && t[queues[r][i]] == s[queues[r][i]]
  {
    forall r, i | 0 <= r < |queues| && r != p && 0 <= i < |queues[r]|
      ensures queues[r][i] < |s| && t[queues[r][i]] == s[queues[r][i]]
    {
      assert LevelOk(side, s, r, levels[r], queues[r], excess[r]);
    }
  }

  /** `t` is `s` except that order `x` was reduced by `cut`; links are untouched. */
  ghost predicate Reduced(s: seq<Order>, t: seq<Order>, x: nat, cut: int)
    requires x < |s| == |t|
  {
    && t[x] == s[x].(status := t[x].status, quantity := t[x].quantity, filled := t[x].filled)
    && t[x].filled <= t[x].quantity
    && t[x].Remaining() == s[x].Remaining() - cut
  }

  lemma OwedReduce(s: seq<Order>, t: seq<Order>, q: seq<nat>, k: nat, cut: int)
    requires k < |q| && |s| == |t| && forall i :: 0 <= i < |q| ==> q[i] < |s|
    requires forall i :: 0 <= i < |q| && i != k ==> t[q[i]] == s[q[i]]
    requires t[q[k]].Remaining() == s[q[k]].Remaining() - cut
    ensures Owed(t, q) == Owed(s, q) - cut
  {
    OwedAt(s, q, k);
    OwedAt(t, q, k);
    OwedFrame(s, t, Without<nat>(q, k));
  }

  lemma LevelReduce(side: Side, s: seq<Order>, t: seq<Order>, p: nat, l: LimitLevel, q: seq<nat>, excess: nat, k: nat,
                    cut: int)
    requires LevelOk(side, s, p, l, q, excess) && k < |q| && |s| == |t|
    requires forall i :: 0 <= i < |q| && i != k ==> t[q[i]] == s[q[i]]
    requires Reduced(s, t, q[k], cut)
    ensures LevelOk(side, t, p, l.(total := Wrap64(l.total - cut)), q, excess)
  {
    OwedReduce(s, t, q, k, cut);
    assert forall i :: 0 <= i < |q| ==> t[q[i]].prev == s[q[i]].prev && t[q[i]].next == s[q[i]].next;
    AddWraps64(l.total, Owed(s, q) + excess, -cut);
  }

  /** Filling part of a queued order and taking the same amount off its level keeps the ladder. */
  lemma ReduceKeeps(side: Side, s: seq<Order>, t: seq<Order>, levels: seq<LimitLevel>, queues: seq<seq<nat>>,
                    excess: seq<nat>,
                    p: nat, k: nat, cut: int)
    requires LadderOk(side, s, levels, queues, excess) && p < |levels| && k < |queues[p]|
    requires |s| == |t|
    requires forall r, i :: 0 <= r < |queues| && 0 <= i < |queues[r]| && !(r == p && i == k) ==>
               queues[r][i] < |s| && t[queues[r][i]] == s[queues[r][i]]
    requires queues[p][k] < |s| && Reduced(s, t, queues[p][k], cut)
    ensures LadderOk(side, t, levels[p := levels[p].(total := Wrap64(levels[p].total - cut))], queues, excess)
  {
    var q := queues[p];
    LevelReduce(side, s, t, p, levels[p], q, excess[p], k, cut);
    LadderUpdate(side, s, t, levels, queues, excess, p, levels[p].(total := Wrap64(levels[p].total - cut)), q,
      excess[p]);
    assert queues[p := q] == queues && excess[p := excess[p]] == excess;
  }

  lemma PushBackLadder(side: Side, s: seq<Order>, levels: seq<LimitLevel>, queues: seq<seq<nat>>, excess: seq<nat>,
                       p: nat, o: nat)
    requires LadderOk(side, s, levels, queues, excess) && p < |levels| && o < |s| && o !in queues[p]
    requires s[o].side == side && s[o].price == p && s[o].filled <= s[o].quantity
    ensures -1 <= levels[p].tail < |s|
    ensures LadderOk(side, LinkedIn(s, levels[p].tail, o), levels[p := PushedLevel(levels[p], s[o], o)],
                     queues[p := queues[p] + [o]], excess[p := excess[p] + s[o].filled])
    ensures Relinked(s, LinkedIn(s, levels[p].tail, o), side, p)
  {
    var l, q := levels[p], queues[p];
    assert LevelOk(side, s, p, l, q, excess[p]);
    LinkedInFrame(side, s, p, l, q, excess[p], o);
    PushBackKeeps(side, s, p, l, q, excess[p], o);
    RelinkedFrame(side, s, LinkedIn(s, l.tail, o), levels, queues, excess, p);
    LadderUpdate(side, s, LinkedIn(s, l.tail, o), levels, queues, excess, p, PushedLevel(l, s[o], o),
                 q + [o], excess[p] + s[o].filled);
  }

  lemma Neighbours(side: Side, s: seq<Order>, levels: seq<LimitLevel>, queues: seq<seq<nat>>, excess: seq<nat>,
                   p: nat, k: nat)
    requires LadderOk(side, s, levels, queues, excess) && p < |levels| && k < |queues[p]|
    ensures var o := queues[p][k];
            o < |s| && -1 <= s[o].prev < |s| && -1 <= s[o].next < |s| && s[o].prev != o && s[o].next != o
  {
    assert LevelOk(side, s, p, levels[p], queues[p], excess[p]);
    LinkedOutFrame(side, s, p, levels[p], queues[p], excess[p], k);
  }

  lemma RemoveLadder(side: Side, s: seq<Order>, levels: seq<LimitLevel>, queues: seq<seq<nat>>, excess: seq<nat>,
                     p: nat, k: nat)
    requires LadderOk(side, s, levels, queues, excess) && p < |levels| && k < |queues[p]|
    ensures var o := queues[p][k];
            && o < |s| && -1 <= s[o].prev < |s| && -1 <= s[o].next < |s| && s[o].prev != o && s[o].next != o
            && LadderOk(side, LinkedOut(s, o), levels[p := RemovedLevel(levels[p], s[o])],
                        queues[p := Without<nat>(queues[p], k)], excess)
            && Relinked(s, LinkedOut(s, o), side, p)
  {
    var l, q := levels[p], queues[p];
    assert LevelOk(side, s, p, l, q, excess[p]);
    LinkedOutFrame(side, s, p, l, q, excess[p], k);
    RemoveKeeps(side, s, p, l, q, excess[p], k);
    RelinkedFrame(side, s, LinkedOut(s, q[k]), levels, queues, excess, p);
    LadderUpdate(side, s, LinkedOut(s, q[k]), levels, queues, excess, p, RemovedLevel(l, s[q[k]]),
                 Without<nat>(q, k), excess[p]);
    assert excess[p := excess[p]] == excess;
  }

  class PriceLevels {
    const side: Side
    const levels: array<LimitLevel>
    ghost var queues: seq<seq<nat>>

    /** The loop gives every level its own price tick and an empty list. */
    constructor (side: Side, ticks: nat)
      ensures this.side == side && levels.Length == ticks && fresh(levels)
      ensures |queues| == ticks && forall p :: 0 <= p < ticks ==> queues[p] == []
      ensures forall p :: 0 <= p < ticks ==> levels[p] == LimitLevel(p, 0, 0, NULL, NULL)
    {
      this.side := side;
      levels := new LimitLevel[ticks](_ => LimitLevel(INVALID_PRICE, 0, 0, NULL, NULL));
      queues := seq(ticks, _ => []);
      new;
      var p := 0;
      while p < ticks
        invariant 0 <= p <= ticks
        invariant |queues| == ticks && forall k :: 0 <= k < ticks ==> queues[k] == []
        invariant forall k :: 0 <= k < ticks ==>
                    levels[k] == LimitLevel(if k < p then k else INVALID_PRICE, 0, 0, NULL, NULL)
      {
        levels[p] := levels[p].(price := p);
        p := p + 1;
      }
    }

    method PushBack(slots: array<Order>, p: nat, o: nat, ghost excess: seq<nat>)
      requires LadderOk(side, slots[..], levels[..], queues, excess)
      requires p < levels.Length && o < slots.Length && o !in queues[p]
      requires slots[o].side == side && slots[o].price == p && slots[o].filled <= slots[o].quantity
      modifies this`queues, levels, slots
      ensures queues == old(queues)[p := old(queues[p]) + [o]]
      ensures LadderOk(side, slots[..], levels[..], queues, excess[p := excess[p] + slots[o].filled])
      ensures Relinked(old(slots[..]), slots[..], side, p)
    {
      ghost var s, l := slots[..], levels[p];
      PushBackLadder(side, s, levels[..], queues, excess, p, o);
      var tail := levels[p].tail;
      slots[o] := slots[o].(next := NULL, prev := tail);
      if tail != NULL {
        slots[tail] := slots[tail].(next := o);
      } else {
        levels[p] := levels[p].(head := o);
      }
      levels[p] := levels[p].(tail := o, total := Wrap64(levels[p].total + slots[o].quantity),
                              count := Wrap32(levels[p].count + 1));
      queues := queues[p := queues[p] + [o]];
      assert slots[..] == LinkedIn(s, l.tail, o);
      assert levels[..] == old(levels[..])[p := PushedLevel(l, s[o], o)];
    }

    method Remove(slots: array<Order>, p: nat, o: nat, ghost k: nat, ghost excess: seq<nat>)
      requires LadderOk(side, slots[..], levels[..], queues, excess)
      requires p < levels.Length && k < |queues[p]| && queues[p][k] == o
      modifies this`queues, levels, slots
      ensures queues == old(queues)[p := Without<nat>(old(queues[p]), k)]
      ensures LadderOk(side, slots[..], levels[..], queues, excess)
      ensures Relinked(old(slots[..]), slots[..], side, p)
      ensures slots[..] == LinkedOut(old(slots[..]), o)
      ensures levels[..] == old(levels[..])[p := RemovedLevel(old(levels[p]), old(slots[o]))]
    {
      ghost var s, l := slots[..], levels[p];
      Neighbours(side, s, levels[..], queues, excess, p, k);
      var prev, next := slots[o].prev, slots[o].next;
      if prev != NULL {
        slots[prev] := slots[prev].(next := next);
      } else {
        levels[p] := levels[p].(head := next);
      }
      if next != NULL {
        slots[next] := slots[next].(prev := prev);
      } else {
        levels[p] := levels[p].(tail := prev);
      }
      slots[o] := slots[o].(next := NULL, prev := NULL);
      levels[p] := levels[p].(total := Wrap64(levels[p].total - (slots[o].quantity - slots[o].filled)),
                              count := Wrap32(levels[p].count - 1));
      queues := queues[p := Without<nat>(queues[p], k)];
      assert slots[..] == LinkedOut(s, o);
      assert levels[..] == old(levels[..])[p := RemovedLevel(l, s[o])];
      RemoveLadder(side, s, old(levels[..]), old(queues), excess, p, k);
    }
  }
}
