/** A match in progress: what has been traded so far and what the reference match still has to do. */
module Sweep {
  import opened Types
  import opened Matcher
  import opened BookSpec
  import opened BookInvariant
  import opened BookStore

  /** After the fills `done`, the book is `now` and the aggressor has `left`; finishing from here
      gives the whole reference match. */
  ghost predicate Sofar(m0: State, side: Side, limit: int, qty: nat, done: seq<Fill>, now: State, left: nat) {
    && m0.Shaped()
    && now == Absorb(m0, side, done, now.Of(side.Opposite()))
    && var whole, rest := Match(side, limit, qty, m0.Of(side.Opposite())),
         Match(side, limit, left, now.Of(side.Opposite()));
       whole.fills == done + rest.fills && whole.book == rest.book && whole.left == rest.left
  }

  lemma SofarStart(m: State, side: Side, limit: int, qty: nat)
    requires m.Shaped()
    ensures Sofar(m, side, limit, qty, [], m, qty)
  {
    assert m.free + Retired([]) == m.free;
    var whole := Match(side, limit, qty, m.Of(side.Opposite()));
    assert [] + whole.fills == whole.fills;
  }

  lemma {:induction false} TradedAppend(a: seq<Fill>, b: seq<Fill>)
    ensures Traded(a + b) == Traded(a) + Traded(b)
  {
    if a == [] {
      assert a + b == b;
    } else {
      assert (a + b)[1..] == a[1..] + b;
      TradedAppend(a[1..], b);
    }
  }

  /** Absorbing fills one after the other is absorbing them together. */
  lemma AbsorbAppend(m: State, side: Side, a: seq<Fill>, b: seq<Fill>, book1: seq<Entry>, book2: seq<Entry>)
    requires m.Shaped()
    ensures Absorb(Absorb(m, side, a, book1), side, b, book2) == Absorb(m, side, a + b, book2)
  {
    hide Unindexed, Retired, Traded;
    RetiredAppend(a, b);
    UnindexedAppend(m.table, a, b);
    TradedAppend(a, b);
    assert m.free + (Retired(a) + Retired(b)) == m.free + Retired(a) + Retired(b);
  }

  /** The reference match peels off one fill at a time. */
  lemma MatchStep(side: Side, limit: int, left: nat, opp: seq<Entry>, q: nat)
    requires left > 0 && opp != [] && Crosses(side, limit, opp[0].price) && q == Min(opp[0].remaining, left)
    ensures var book := if q == opp[0].remaining then opp[1..]
                        else [opp[0].(remaining := opp[0].remaining - q)] + opp[1..];
            var all, rest := Match(side, limit, left, opp), Match(side, limit, left - q, book);
            && all.fills == [FillOf(opp[0], q)] + rest.fills && all.book == rest.book && all.left == rest.left
  {
    if q != opp[0].remaining {
      assert [FillOf(opp[0], q)] + [] == [FillOf(opp[0], q)];
    }
  }

  lemma SofarStep(m0: State, side: Side, limit: int, qty: nat, done: seq<Fill>, now: State, left: nat, q: nat)
    requires Sofar(m0, side, limit, qty, done, now, left) && now.Shaped()
    requires left > 0 && now.Of(side.Opposite()) != []
    requires Crosses(side, limit, now.Of(side.Opposite())[0].price)
    requires q == Min(now.Of(side.Opposite())[0].remaining, left)
    ensures Sofar(m0, side, limit, qty, done + [FillOf(now.Of(side.Opposite())[0], q)], FillStep(now, side, q),
              left - q)
  {
    hide Unindexed, Retired, Traded, Match;
    var opp, f := now.Of(side.Opposite()), FillOf(now.Of(side.Opposite())[0], q);
    var book := if q == opp[0].remaining then opp[1..] else [opp[0].(remaining := opp[0].remaining - q)] + opp[1..];
    MatchStep(side, limit, left, opp, q);
    AbsorbAppend(m0, side, done, [f], opp, book);
    assert done + ([f] + Match(side, limit, left - q, book).fills) == done + [f] +
             Match(side, limit, left - q, book).fills;
  }

  /** When the aggressor is filled or the front no longer crosses, what was done is the whole match. */
  lemma SofarEnd(m0: State, side: Side, limit: int, qty: nat, done: seq<Fill>, now: State, left: nat)
    requires Sofar(m0, side, limit, qty, done, now, left)
    requires left == 0 || now.Of(side.Opposite()) == [] || !Crosses(side, limit, now.Of(side.Opposite())[0].price)
    ensures var m := Match(side, limit, qty, m0.Of(side.Opposite()));
            m.fills == done && m.left == left && now == Absorb(m0, side, m.fills, m.book)
  {
  }
}
