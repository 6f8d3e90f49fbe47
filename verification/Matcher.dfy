/** Price-time matching on one flat list, independent of levels, pointers and pools.
    `Match` is the reference the order book is proved against; this module proves what it means. */
module Matcher {
  import opened Types

  /** A resting order as the reference sees it. `stamp` is the moment it joined its queue. */
  datatype Entry = Entry(slot: nat, id: Word64, price: int, remaining: nat, stamp: nat)

  /** One trade against a resting order; `done` when that order has nothing left. */
  datatype Fill = Fill(slot: nat, id: Word64, price: int, quantity: nat, done: bool)

  datatype Outcome = Outcome(fills: seq<Fill>, book: seq<Entry>, left: nat)

  /** Whether an aggressor on `side` with this limit may trade at `price`. */
  predicate Crosses(side: Side, limit: int, price: int) {
    if side.Buy? then price <= limit else price >= limit
  }

  /** Whether a resting order on `side` at price `a` is served no later than one at `b`. */
  predicate NoWorse(side: Side, a: int, b: int) {
    if side.Buy? then a >= b else a <= b
  }

  /** Strict price-time order of the resting orders on `side`. */
  predicate Before(side: Side, a: Entry, b: Entry) {
    (a.price != b.price && NoWorse(side, a.price, b.price)) || (a.price == b.price && a.stamp < b.stamp)
  }

  ghost predicate Sorted(side: Side, list: seq<Entry>) {
    forall i, j :: 0 <= i < j < |list| ==> Before(side, list[i], list[j])
  }

  /** The aggressor takes from the front until it is filled or the front no longer crosses. */
  function Match(side: Side, limit: int, qty: nat, opp: seq<Entry>): (o: Outcome)
    ensures o.left <= qty
    decreases |opp|
  {
    if qty == 0 || opp == [] || !Crosses(side, limit, opp[0].price) then
      Outcome([], opp, qty)
    else
      var e := opp[0];
      if qty < e.remaining then
        Outcome([FillOf(e, qty)], [e.(remaining := e.remaining - qty)] + opp[1..], 0)
      else
        var rest := Match(side, limit, qty - e.remaining, opp[1..]);
        Outcome([FillOf(e, e.remaining)] + rest.fills, rest.book, rest.left)
  }

  function FillOf(e: Entry, qty: nat): Fill {
    Fill(e.slot, e.id, e.price, qty, qty == e.remaining)
  }

  function Traded(fills: seq<Fill>): nat {
    if fills == [] then 0 else fills[0].quantity + Traded(fills[1..])
  }

  /** Total remaining quantity of the entries an aggressor may trade with. */
  function Depth(side: Side, limit: int, list: seq<Entry>): nat {
    if list == [] then 0
    else (if Crosses(side, limit, list[0].price) then list[0].remaining else 0) + Depth(side, limit, list[1..])
  }

  function TradedOf(fills: seq<Fill>, slot: nat): nat {
    if fills == [] then 0 else (if fills[0].slot == slot then fills[0].quantity else 0) + TradedOf(fills[1..], slot)
  }

  // ----- Basic consequences of sortedness

  lemma SortedTail(side: Side, list: seq<Entry>)
    requires Sorted(side, list) && list != []
    ensures Sorted(side, list[1..])
  {
  }

  lemma {:induction false} NothingCrosses(side: Side, limit: int, list: seq<Entry>)
    requires Sorted(side.Opposite(), list)
    requires list == [] || !Crosses(side, limit, list[0].price)
    ensures Depth(side, limit, list) == 0
    ensures forall i :: 0 <= i < |list| ==> !Crosses(side, limit, list[i].price)
  {
    if |list| > 1 {
      assert Before(side.Opposite(), list[0], list[1]);
      NothingCrosses(side, limit, list[1..]);
      assert forall i :: 1 <= i < |list| ==> list[i] == list[1..][i - 1];
    } else if |list| == 1 {
      assert list[1..] == [];
    }
  }

  // ----- What a price-time match is, without saying how to compute it

  /** `n` resting orders are consumed whole from the front, then at most one is reduced, and
      the aggressor stops only when it is filled or nothing left crosses its limit. */
  ghost predicate PriceTime(side: Side, limit: int, qty: nat, opp: seq<Entry>, n: nat, o: Outcome) {
    && n <= |opp|
    && n <= |o.fills| <= n + 1
    && (forall i :: 0 <= i < |o.fills| ==>
          i < |opp| && (if side.Buy? then opp[i].price <= limit else opp[i].price >= limit) &&
          var quantity := if i < n then opp[i].remaining else o.fills[i].quantity;
          o.fills[i] == Fill(opp[i].slot, opp[i].id, opp[i].price, quantity, quantity == opp[i].remaining))
    && (forall i :: 0 <= i < n ==> Traded(o.fills[..i]) < qty)
    && o.left + Traded(o.fills) == qty
    && (if |o.fills| == n then
          o.book == opp[n..]
        else
          && 0 < o.fills[n].quantity < opp[n].remaining
          && o.left == 0
          && o.book == [opp[n].(remaining := opp[n].remaining - o.fills[n].quantity)] + opp[n + 1..])
    && (o.left == 0 || o.book == [] || if side.Buy? then o.book[0].price > limit else o.book[0].price < limit)
  }

  lemma {:induction false} PriceTimeCons(side: Side, limit: int, qty: nat, opp: seq<Entry>, n: nat, r: Outcome)
    requires qty > 0 && opp != [] && Crosses(side, limit, opp[0].price) && opp[0].remaining <= qty
    requires PriceTime(side, limit, qty - opp[0].remaining, opp[1..], n, r)
    ensures PriceTime(side, limit, qty, opp, n + 1,
                      Outcome([FillOf(opp[0], opp[0].remaining)] + r.fills, r.book, r.left))
  {
    var fills := [FillOf(opp[0], opp[0].remaining)] + r.fills;
    assert fills[1..] == r.fills;
    forall i | 0 <= i < n + 1
      ensures Traded(fills[..i]) < qty
    {
      if i > 0 {
        assert fills[..i][1..] == r.fills[..i - 1];
        assert Traded(fills[..i]) == opp[0].remaining + Traded(r.fills[..i - 1]);
      }
    }
    assert opp[1..][n..] == opp[n + 1..];
    if |r.fills| != n {
      assert opp[1..][n + 1..] == opp[n + 2..];
    }
  }

  lemma {:induction false} MatchIsPriceTime(side: Side, limit: int, qty: nat, opp: seq<Entry>) returns (n: nat)
    ensures PriceTime(side, limit, qty, opp, n, Match(side, limit, qty, opp))
    decreases |opp|
  {
    if qty == 0 || opp == [] || !Crosses(side, limit, opp[0].price) || qty < opp[0].remaining {
      n := 0;
      FrontOnly(side, limit, qty, opp);
    } else {
      var m := MatchIsPriceTime(side, limit, qty - opp[0].remaining, opp[1..]);
      n := m + 1;
      PriceTimeCons(side, limit, qty, opp, m, Match(side, limit, qty - opp[0].remaining, opp[1..]));
    }
  }

  lemma FrontOnly(side: Side, limit: int, qty: nat, opp: seq<Entry>)
    requires qty == 0 || opp == [] || !Crosses(side, limit, opp[0].price) || qty < opp[0].remaining
    ensures PriceTime(side, limit, qty, opp, 0, Match(side, limit, qty, opp))
  {
    assert opp[0..] == opp;
    var o := Match(side, limit, qty, opp);
    if o.fills != [] {
      assert o.fills[1..] == [];
      assert Traded(o.fills) == o.fills[0].quantity + Traded([]);
    }
  }

  lemma PriceTimeTail(side: Side, limit: int, qty: nat, opp: seq<Entry>, n: nat, o: Outcome)
    requires PriceTime(side, limit, qty, opp, n, o) && n > 0
    ensures qty > 0 && opp[0].remaining <= qty && Crosses(side, limit, opp[0].price)
    ensures o.fills == [FillOf(opp[0], opp[0].remaining)] + o.fills[1..]
    ensures PriceTime(side, limit, qty - opp[0].remaining, opp[1..], n - 1, Outcome(o.fills[1..], o.book, o.left))
  {
    var e, fills := opp[0], o.fills[1..];
    assert o.fills[0] == FillOf(e, e.remaining);
    assert o.fills[..0] == [];
    assert Traded(o.fills) == e.remaining + Traded(fills);
    forall i | 0 <= i < n - 1
      ensures Traded(fills[..i]) < qty - e.remaining
    {
      assert o.fills[..i + 1][1..] == fills[..i];
      assert Traded(o.fills[..i + 1]) == e.remaining + Traded(fills[..i]);
    }
  }

  lemma NoneConsumed(side: Side, limit: int, qty: nat, opp: seq<Entry>, n: nat, o: Outcome)
    requires PriceTime(side, limit, qty, opp, n, o) && n == 0
    ensures o == Match(side, limit, qty, opp)
  {
    if |o.fills| == 1 {
      assert o.fills[1..] == [];
      assert Traded(o.fills) == o.fills[0].quantity + Traded([]);
      assert o.fills == [o.fills[0]];
    } else {
      assert o.fills == [];
    }
  }

  /** The declarative description pins down the outcome: `Match` is the only price-time match. */
  lemma {:induction false} PriceTimeIsMatch(side: Side, limit: int, qty: nat, opp: seq<Entry>, n: nat, o: Outcome)
    requires PriceTime(side, limit, qty, opp, n, o)
    ensures o == Match(side, limit, qty, opp)
    decreases |opp|
  {
    if n == 0 {
      NoneConsumed(side, limit, qty, opp, n, o);
    } else {
      PriceTimeTail(side, limit, qty, opp, n, o);
      hide PriceTime;
      PriceTimeIsMatch(side, limit, qty - opp[0].remaining, opp[1..], n - 1, Outcome(o.fills[1..], o.book, o.left));
    }
  }

  // ----- How much trades, and at what prices

  /** The traded quantity is the aggressor's size or the whole crossable depth, whichever is less;
      a remainder is left only when nothing that is still in the book crosses. */
  lemma {:induction false} MatchTradesDepth(side: Side, limit: int, qty: nat, opp: seq<Entry>)
    requires Sorted(side.Opposite(), opp)
    ensures var o := Match(side, limit, qty, opp);
            && Traded(o.fills) == Min(qty, Depth(side, limit, opp))
            && o.left == qty - Traded(o.fills)
            && Depth(side, limit, o.book) == Depth(side, limit, opp) - Traded(o.fills)
            && (o.left > 0 ==> forall i :: 0 <= i < |o.book| ==> !Crosses(side, limit, o.book[i].price))
    decreases |opp|
  {
    if qty == 0 {
    } else if opp == [] || !Crosses(side, limit, opp[0].price) {
      NothingCrosses(side, limit, opp);
    } else if qty < opp[0].remaining {
      var o := Match(side, limit, qty, opp);
      assert o.book[1..] == opp[1..];
      assert o.fills[1..] == [];
    } else {
      SortedTail(side.Opposite(), opp);
      MatchTradesDepth(side, limit, qty - opp[0].remaining, opp[1..]);
      var o := Match(side, limit, qty, opp);
      assert o.fills[1..] == Match(side, limit, qty - opp[0].remaining, opp[1..]).fills;
    }
  }

  /** Every trade is at the resting price, within the aggressor's limit, and prices never improve
      as the sweep goes on. */
  lemma {:induction false} MatchPrices(side: Side, limit: int, qty: nat, opp: seq<Entry>)
    requires Sorted(side.Opposite(), opp)
    ensures var fills := Match(side, limit, qty, opp).fills;
            && |fills| <= |opp|
            && (forall i :: 0 <= i < |fills| ==>
                  fills[i].slot == opp[i].slot && fills[i].price == opp[i].price &&
                  Crosses(side, limit, fills[i].price))
            && (forall i, j :: 0 <= i < j < |fills| ==> NoWorse(side.Opposite(), fills[i].price, fills[j].price))
  {
    var n := MatchIsPriceTime(side, limit, qty, opp);
    var fills := Match(side, limit, qty, opp).fills;
    forall i, j | 0 <= i < j < |fills|
      ensures NoWorse(side.Opposite(), fills[i].price, fills[j].price)
    {
      assert Before(side.Opposite(), opp[i], opp[j]);
    }
  }

  /** Price-time priority: when fill `i` happens, every opposite order that was not already consumed
      by an earlier fill has a worse price, or the same price and a later stamp. */
  lemma {:induction false} MatchPriority(side: Side, limit: int, qty: nat, opp: seq<Entry>, i: nat, k: nat)
    requires Sorted(side.Opposite(), opp)
    requires i < |Match(side, limit, qty, opp).fills| && k < |opp|
    ensures i < |opp| && opp[i].slot == Match(side, limit, qty, opp).fills[i].slot
    ensures k == i || Before(side.Opposite(), opp[i], opp[k]) ||
            (k < i && Match(side, limit, qty, opp).fills[k] == FillOf(opp[k], opp[k].remaining))
  {
    var n := MatchIsPriceTime(side, limit, qty, opp);
  }

  /** Trades are the retired resting orders plus at most one partial fill, which comes last. */
  lemma {:induction false} MatchTradeCount(side: Side, limit: int, qty: nat, opp: seq<Entry>)
    ensures var o := Match(side, limit, qty, opp);
            && |opp| - |o.book| <= |o.fills| <= |opp| - |o.book| + 1
            && (|o.fills| == |opp| - |o.book| + 1 ==> o.left == 0 && !o.fills[|o.fills| - 1].done)
            && (forall i :: 0 <= i < |opp| - |o.book| ==> o.fills[i].done)
  {
    var n := MatchIsPriceTime(side, limit, qty, opp);
  }

  // ----- Splitting an aggressor

  lemma {:induction false} TradedOfAppend(a: seq<Fill>, b: seq<Fill>, slot: nat)
    ensures TradedOf(a + b, slot) == TradedOf(a, slot) + TradedOf(b, slot)
  {
    if a == [] {
      assert a + b == b;
    } else {
      assert (a + b)[1..] == a[1..] + b;
      TradedOfAppend(a[1..], b, slot);
    }
  }

  /** One aggressor of `a + b`, or `a` and then `b`: the same opposite side remains, the same total
      is left over, and every resting order is filled by the same total. */
  lemma {:induction false} MatchSplit(side: Side, limit: int, a: nat, b: nat, opp: seq<Entry>, slot: nat)
    requires a > 0
    ensures var whole, first := Match(side, limit, a + b, opp), Match(side, limit, a, opp);
            var second := Match(side, limit, b, first.book);
            && whole.book == second.book
            && whole.left == first.left + second.left
            && TradedOf(whole.fills, slot) == TradedOf(first.fills, slot) + TradedOf(second.fills, slot)
    decreases |opp|
  {
    if opp != [] && Crosses(side, limit, opp[0].price) {
      var e := opp[0];
      if e.remaining < a {
        MatchSplit(side, limit, a - e.remaining, b, opp[1..], slot);
        SplitFills(side, limit, a, opp, slot);
        SplitFills(side, limit, a + b, opp, slot);
      } else {
        MatchSplitHead(side, limit, a, b, opp, slot);
      }
    }
  }

  lemma {:induction false} SplitFills(side: Side, limit: int, qty: nat, opp: seq<Entry>, slot: nat)
    requires opp != [] && Crosses(side, limit, opp[0].price) && 0 < qty && opp[0].remaining <= qty
    ensures var r := Match(side, limit, qty - opp[0].remaining, opp[1..]);
            TradedOf(Match(side, limit, qty, opp).fills, slot)
            == (if opp[0].slot == slot then opp[0].remaining else 0) + TradedOf(r.fills, slot)
  {
    TradedOfAppend([FillOf(opp[0], opp[0].remaining)],
                   Match(side, limit, qty - opp[0].remaining, opp[1..]).fills, slot);
    assert [FillOf(opp[0], opp[0].remaining)][1..] == [];
  }

  /** The case where `a` does not get past the first resting order. */
  lemma {:induction false} MatchSplitHead(side: Side, limit: int, a: nat, b: nat, opp: seq<Entry>, slot: nat)
    requires a > 0 && opp != [] && Crosses(side, limit, opp[0].price) && a <= opp[0].remaining
    ensures var whole, first := Match(side, limit, a + b, opp), Match(side, limit, a, opp);
            var second := Match(side, limit, b, first.book);
            && whole.book == second.book
            && whole.left == first.left + second.left
            && TradedOf(whole.fills, slot) == TradedOf(first.fills, slot) + TradedOf(second.fills, slot)
  {
    var e := opp[0];
    var first := Match(side, limit, a, opp);
    if a == e.remaining {
      assert first.book == opp[1..] by { assert Match(side, limit, 0, opp[1..]).book == opp[1..]; }
      SplitFills(side, limit, a + b, opp, slot);
      SplitFills(side, limit, a, opp, slot);
    } else {
      var e' := e.(remaining := e.remaining - a);
      assert first.book[1..] == opp[1..];
      if b == 0 {
      } else if b < e'.remaining {
        assert [FillOf(e, a + b)][1..] == [];
        assert [FillOf(e, a)][1..] == [];
        assert [FillOf(e', b)][1..] == [];
      } else {
        SplitFills(side, limit, a + b, opp, slot);
        SplitFills(side, limit, b, first.book, slot);
      }
    }
  }
}
