/** The index arithmetic of a power-of-two ring: masking is modulo, and machine wrap-around is harmless. */
module RingMath {
  import opened Types

  /** Bitwise and of two unsigned numbers. */
  function And(x: nat, y: nat): nat
    decreases x
  {
    if x == 0 then 0 else 2 * And(x / 2, y / 2) + if x % 2 == 1 && y % 2 == 1 then 1 else 0
  }

  function Pow2(k: nat): (p: nat)
    ensures p >= 1
  {
    if k == 0 then 1 else 2 * Pow2(k - 1)
  }

  /** The compile-time check on a queue's capacity, which is a 64-bit size. */
  predicate IsCapacity(c: int) {
    2 <= c < TWO64 && And(c, c - 1) == 0
  }

  /** Bit `k` of a bitwise and is set exactly when it is in both numbers. */
  lemma {:induction false} AndBit(x: nat, y: nat, k: nat)
    ensures (And(x, y) / Pow2(k)) % 2 == 1 <==> (x / Pow2(k)) % 2 == 1 && (y / Pow2(k)) % 2 == 1
    decreases k
  {
    if k == 0 {
      LowBit(x, y);
    } else {
      AndBit(x / 2, y / 2, k - 1);
      HalfAnd(x, y);
      DivideTwice(x, Pow2(k - 1));
      DivideTwice(y, Pow2(k - 1));
      DivideTwice(And(x, y), Pow2(k - 1));
    }
  }

  lemma LowBit(x: nat, y: nat)
    ensures And(x, y) % 2 == 1 <==> x % 2 == 1 && y % 2 == 1
  {
  }

  lemma HalfAnd(x: nat, y: nat)
    ensures And(x, y) / 2 == And(x / 2, y / 2)
  {
  }

  lemma DivideTwice(x: nat, p: nat)
    requires p > 0
    ensures x / (2 * p) == (x / 2) / p
  {
    HalfMod(x, p);
    var q, r := (x / 2) / p, (x / 2) % p;
    assert x == (2 * p) * q + (2 * r + x % 2);
    ModIs(x, 2 * p, q, 2 * r + x % 2);
  }

  lemma {:induction false} AndSelf(x: nat)
    ensures And(x, x) == x
    decreases x
  {
    if x == 0 {
    } else {
      AndSelf(x / 2);
    }
  }

  /** `c & (c - 1) == 0` holds of powers of two only. */
  lemma {:induction false} CapacityIsPower(c: nat) returns (k: nat)
    requires c >= 1 && And(c, c - 1) == 0
    ensures c == Pow2(k)
    decreases c
  {
    hide And;
    k := 0;
    if c > 1 {
      CapacityIsEven(c);
      var j := CapacityIsPower(c / 2);
      k := j + 1;
    }
  }

  lemma CapacityIsEven(c: nat)
    requires c > 1 && And(c, c - 1) == 0
    ensures c % 2 == 0 && And(c / 2, c / 2 - 1) == 0
  {
    if c % 2 == 1 {
      assert (c - 1) / 2 == c / 2;
      AndSelf(c / 2);
    } else {
      assert (c - 1) / 2 == c / 2 - 1;
    }
  }

  /** Every power of two that fits the word and is at least 2 passes that check. */
  lemma PowerIsCapacity(k: nat)
    requires 1 <= k < 64
    ensures IsCapacity(Pow2(k))
  {
    AndMask(Pow2(k), k);
    PowersGrow(1, k);
    PowersGrow(k, 63);
    Word64IsPower();
    assert Pow2(64) == 2 * Pow2(63);
    ModIs(Pow2(k), Pow2(k), 1, 0);
  }

  lemma {:induction false} HalfMod(x: nat, p: nat)
    requires p >= 1
    ensures x % (2 * p) == 2 * ((x / 2) % p) + x % 2
  {
    var q, r := (x / 2) / p, (x / 2) % p;
    assert x / 2 == p * q + r;
    assert x == 2 * (x / 2) + x % 2;
    assert x == (2 * p) * q + (2 * r + x % 2);
    ModIs(x, 2 * p, q, 2 * r + x % 2);
  }

  lemma ModIs(x: int, m: int, q: int, r: int)
    requires m > 0 && 0 <= r < m && x == m * q + r
    ensures x % m == r && x / m == q
  {
    var d := x / m - q;
    assert m * d == r - x % m;
    MultipleBetween(m, d);
  }

  lemma MultipleBetween(m: int, d: int)
    requires m > 0 && -m < m * d < m
    ensures d == 0
  {
  }

  lemma AndOddMask(x: nat, p: nat)
    requires p >= 1
    ensures And(x, 2 * p - 1) == 2 * And(x / 2, p - 1) + x % 2
  {
    assert (2 * p - 1) / 2 == p - 1;
    assert And(0, p - 1) == 0;
  }

  lemma {:induction false} AndMask(x: nat, k: nat)
    ensures And(x, Pow2(k) - 1) == x % Pow2(k)
    decreases k
  {
    hide And;
    if k == 0 {
      AndZero(x);
    } else {
      var p := Pow2(k - 1);
      AndOddMask(x, p);
      AndMask(x / 2, k - 1);
      HalfMod(x, p);
    }
  }

  lemma {:induction false} AndZero(x: nat)
    ensures And(x, 0) == 0
    decreases x
  {
    if x == 0 {
    } else {
      AndZero(x / 2);
    }
  }

  /** For every capacity the compiler accepts, `& kMask` is `% Capacity`. */
  lemma MaskIsMod(c: nat, x: nat)
    requires IsCapacity(c)
    ensures And(x, c - 1) == x % c
  {
    var k := CapacityIsPower(c);
    AndMask(x, k);
  }

  // ----- Indices in a ring

  /** The next index is the masked successor of the current one. */
  lemma NextIndex(c: nat, n: nat)
    requires c >= 2
    ensures (n % c + 1) % c == (n + 1) % c
  {
    var q, r := n / c, n % c;
    if r + 1 < c {
      ModIs(n + 1, c, q, r + 1);
      ModIs(r + 1, c, 0, r + 1);
    } else {
      assert c * (q + 1) == c * q + c;
      ModIs(n + 1, c, q + 1, 0);
      ModIs(r + 1, c, 1, 0);
    }
  }

  /** Counters less than a ring apart share a cell only when they are equal. */
  lemma SameCell(c: nat, m: nat, n: nat)
    requires c > 0 && m <= n < m + c
    ensures m % c == n % c <==> m == n
  {
    if m % c == n % c {
      assert n - m == c * (n / c - m / c);
      MultipleBetween(c, n / c - m / c);
    }
  }

  /** A counter is one ring ahead of another exactly when, being at most that far ahead but not equal, it
      shares its cell. */
  lemma WholeRing(c: nat, m: nat, n: nat)
    requires c > 0 && m < n <= m + c
    ensures m % c == n % c <==> n == m + c
  {
    if n == m + c {
      assert n == c * (m / c + 1) + m % c;
      ModIs(n, c, m / c + 1, m % c);
    } else {
      SameCell(c, m, n);
    }
  }

  lemma {:induction false} PowersDivide(j: nat, k: nat)
    requires k <= j
    ensures Pow2(j) == Pow2(j - k) * Pow2(k)
    decreases j
  {
    if k == j {
    } else {
      PowersDivide(j - 1, k);
      assert Pow2(j) == 2 * (Pow2(j - 1 - k) * Pow2(k));
    }
  }

  lemma {:induction false} PowersGrow(j: nat, k: nat)
    requires j <= k
    ensures Pow2(j) <= Pow2(k)
  {
    if j == k {
    } else {
      PowersGrow(j, k - 1);
    }
  }

  lemma Word64IsPower()
    ensures Pow2(64) == TWO64
  {
    assert Pow2(8) == 0x100;
    PowersDivide(16, 8);
    PowersDivide(32, 16);
    PowersDivide(64, 32);
  }

  /** Every capacity divides the machine word. */
  lemma CapacityDividesWord(c: nat) returns (d: nat)
    requires IsCapacity(c)
    ensures TWO64 == d * c
  {
    var k := CapacityIsPower(c);
    Word64IsPower();
    if k > 64 {
      PowersGrow(64, k);
    }
    PowersDivide(64, k);
    d := Pow2(64 - k);
  }

  lemma WrapSum(a: int, b: int)
    ensures Wrap64(Wrap64(a) + b) == Wrap64(a + b)
  {
  }

  /** Wrapping around the machine word is invisible modulo a capacity. */
  lemma WrapIsInvisible(c: nat, n: int)
    requires IsCapacity(c)
    ensures Wrap64(n) % c == n % c
  {
    hide IsCapacity;
    var d := CapacityDividesWord(c);
    var k := n / TWO64;
    assert n == (d * c) * k + Wrap64(n);
    assert (d * c) * k == c * (d * k) by { Shuffle(d, c, k); }
    var q, r := n / c, n % c;
    assert Wrap64(n) == c * (q - d * k) + r by { assert c * (q - d * k) == c * q - c * (d * k); }
    ModIs(Wrap64(n), c, q - d * k, r);
  }

  lemma Shuffle(d: int, c: int, k: int)
    ensures (d * c) * k == c * (d * k)
  {
  }

  lemma ModOfDifference(c: nat, m: nat, n: nat)
    requires c > 0
    ensures (n % c - m % c + c) % c == (n - m) % c
  {
    var k := (n - m) / c;
    var a := m / c - n / c + k + 1;
    assert n % c - m % c + c == c * a + (n - m) % c by {
      assert m == c * (m / c) + m % c && n == c * (n / c) + n % c && n - m == c * k + (n - m) % c;
      Distribute(c, m / c, n / c, k);
    }
    ModIs(n % c - m % c + c, c, a, (n - m) % c);
  }

  lemma Distribute(c: int, x: int, y: int, k: int)
    ensures c * (x - y + k + 1) == c * x - c * y + c * k + c
  {
  }

  /** `size()` on a tail that counts `n` and a head that counts `m`: the unsigned difference of the two
      indices, plus the capacity, masked, is their difference modulo the capacity, whether or not the
      subtraction wraps around. */
  lemma SizeIsModulo(c: nat, m: nat, n: nat)
    requires IsCapacity(c)
    ensures And(Wrap64(Wrap64(n % c - m % c) + c), c - 1) == (n - m) % c
  {
    hide And, Wrap64;
    WrapSum(n % c - m % c, c);
    MaskedWord(c, n % c - m % c + c);
    ModOfDifference(c, m, n);
  }

  lemma MaskedWord(c: nat, x: int)
    requires IsCapacity(c)
    ensures And(Wrap64(x), c - 1) == x % c
  {
    hide And, Wrap64;
    MaskIsMod(c, Wrap64(x));
    WrapIsInvisible(c, x);
  }

  /** A difference is its own remainder exactly when it is one that a ring can hold. */
  lemma OwnRemainder(c: nat, d: int)
    requires c > 0
    ensures d % c == d <==> 0 <= d < c
  {
    if 0 <= d < c {
      ModIs(d, c, 0, d);
    }
  }

  lemma SameRemainder(c: nat, m: nat, n: nat)
    requires c > 0
    ensures m % c == n % c <==> (n - m) % c == 0
  {
    ModOfDifference(c, m, n);
    var d := n % c - m % c + c;
    if m % c == n % c {
      ModIs(c, c, 1, 0);
    } else if m % c < n % c {
      ModIs(d, c, 1, n % c - m % c);
    } else {
      ModIs(d, c, 0, d);
    }
  }

  /** With at most a ring between them, the size is the number of items. */
  lemma SizeIsDifference(c: nat, popped: nat, pushed: nat)
    requires IsCapacity(c) && popped <= pushed < popped + c
    ensures And(Wrap64(Wrap64(pushed % c - popped % c) + c), c - 1) == pushed - popped
  {
    SizeIsModulo(c, popped, pushed);
    OwnRemainder(c, pushed - popped);
  }
}
