/**
 Machine-integer facts shared by the models: bitwise operators on naturals, powers
 of two, and remainders by a power of two.
 */
module Bits {

  type byte = b: int | 0 <= b < 256

  predicate IsPow2(n: nat) {
    n == 1 || (n > 1 && n % 2 == 0 && IsPow2(n / 2))
  }

  function BitAnd(a: nat, b: nat): (r: nat)
    decreases a
  {
    if a == 0 then 0
    else (if a % 2 == 1 && b % 2 == 1 then 1 else 0) + 2 * BitAnd(a / 2, b / 2)
  }

  function BitOr(a: nat, b: nat): (r: nat)
    decreases a + b
  {
    if a == 0 && b == 0 then 0
    else (if a % 2 == 1 || b % 2 == 1 then 1 else 0) + 2 * BitOr(a / 2, b / 2)
  }

  /** `x & (n - 1)` is the remainder by `n`, the idiom the rings wrap with. */
  lemma {:induction false} AndMask(x: nat, n: nat)
    requires IsPow2(n)
    ensures BitAnd(x, n - 1) == x % n
  {
    if n == 1 {
      AndZero(x);
    } else if x == 0 {
      DivModUnique(0, n, 0, 0);
    } else {
      AndMask(x / 2, n / 2);
      AndStep(x, n / 2, n);
    }
  }

  lemma AndStep(x: nat, m: nat, n: nat)
    requires m > 0 && n == 2 * m && x > 0 && BitAnd(x / 2, m - 1) == (x / 2) % m
    ensures BitAnd(x, n - 1) == x % n
  {
    DivModUnique(n - 1, 2, m - 1, 1);
    assert BitAnd(x, n - 1) == x % 2 + 2 * BitAnd(x / 2, m - 1);
    HalfMod(x, m);
  }

  lemma {:induction false} AndZero(x: nat)
    ensures BitAnd(x, 0) == 0
  {
    if x != 0 {
      AndZero(x / 2);
    }
  }

  lemma AndDouble(x: nat, m: nat, n: nat)
    requires n == 2 * m
    ensures BitAnd(x, n) == 2 * BitAnd(x / 2, m)
  {
    DivModUnique(n, 2, m, 0);
  }

  /** Masking with a power of two is nonzero exactly when that binary digit is 1. */
  lemma {:induction false} AndBit(x: nat, n: nat)
    requires IsPow2(n)
    ensures BitAnd(x, n) != 0 <==> x / n % 2 == 1
  {
    if n == 1 {
      if x != 0 {
        AndZero(x / 2);
      }
    } else {
      var m := n / 2;
      AndDouble(x, m, n);
      AndBit(x / 2, m);
      HalfDiv(x, m, n);
    }
  }

  lemma HalfDiv(x: nat, m: nat, n: nat)
    requires m > 0 && n == 2 * m
    ensures x / 2 / m == x / n
  {
    var q, r := x / 2 / m, x / 2 % m;
    assert x / 2 == m * q + r && x == 2 * (x / 2) + x % 2;
    assert x == n * q + (2 * r + x % 2);
    DivModUnique(x, n, q, 2 * r + x % 2);
  }

  lemma HalfMod(x: nat, m: nat)
    requires m > 0
    ensures x % (2 * m) == x % 2 + 2 * ((x / 2) % m)
  {
    var y, q, r := x / 2, (x / 2) / m, (x / 2) % m;
    assert x == (2 * m) * q + (x % 2 + 2 * r);
    DivModUnique(x, 2 * m, q, x % 2 + 2 * r);
  }

  /** Or-ing a value below `n` into a multiple of `n` is addition. */
  lemma {:induction false} OrDisjoint(a: nat, b: nat, n: nat)
    requires IsPow2(n) && b < n && a % n == 0
    ensures BitOr(a, b) == a + b
  {
    if n == 1 {
      OrZero(a);
    } else if a + b != 0 {
      HalfMod(a, n / 2);
      OrDisjoint(a / 2, b / 2, n / 2);
    }
  }

  lemma {:induction false} OrZero(a: nat)
    ensures BitOr(a, 0) == a
  {
    if a != 0 {
      OrZero(a / 2);
    }
  }

  lemma DivModUnique(x: int, m: int, q: int, r: int)
    requires m > 0 && 0 <= r < m && x == m * q + r
    ensures x / m == q && x % m == r
  {
    assert m * (x / m - q) == r - x % m;
    MulBounds(m, x / m - q);
  }

  lemma MulBounds(m: int, d: int)
    requires m > 0
    ensures d >= 1 ==> m * d >= m
    ensures d <= -1 ==> m * d <= -m
  {
  }

  /** A 16-bit counter taken modulo a power-of-two ring size is the unbounded one. */
  lemma ModMod(x: nat, n: nat, m: nat)
    requires n > 0 && m > 0 && m % n == 0
    ensures (x % m) % n == x % n
  {
    var k, q := m / n, x / m;
    var r := x % m;
    assert m == n * k;
    assert x == n * (k * q) + r;
    assert x == n * (k * q + r / n) + r % n;
    DivModUnique(x, n, k * q + r / n, r % n);
  }

  lemma {:induction false} Pow2Divides(n: nat, m: nat)
    requires IsPow2(n) && IsPow2(m) && n <= m
    ensures m % n == 0
    decreases m
  {
    if n > 1 {
      Pow2Divides(n / 2, m / 2);
      HalfMod(m, n / 2);
    }
  }

  /** Two indices less than `n` apart fall in different slots of a ring of `n`. */
  lemma SlotsDiffer(n: nat, i: nat, j: nat)
    requires i < j < i + n
    ensures i % n != j % n
  {
    var q, r, k := i / n, i % n, j - i;
    assert i == n * q + r;
    if r + k < n {
      DivModUnique(j, n, q, r + k);
    } else {
      assert j == n * (q + 1) + (r + k - n);
      DivModUnique(j, n, q + 1, r + k - n);
    }
  }

  lemma SuccMod(x: nat, m: nat)
    requires m > 1
    ensures (x % m + 1) % m == (x + 1) % m
  {
    var q, r := x / m, x % m;
    assert x == m * q + r;
    if r + 1 < m {
      DivModUnique(x + 1, m, q, r + 1);
      DivModUnique(r + 1, m, 0, r + 1);
    } else {
      NextMultiple(m, q);
      DivModUnique(x + 1, m, q + 1, 0);
      DivModUnique(r + 1, m, 1, 0);
    }
  }

  lemma NextMultiple(m: int, q: int)
    ensures m * (q + 1) == m * q + m
  {
  }

  lemma Double(n: nat, m: nat)
    requires IsPow2(n) && m == 2 * n
    ensures IsPow2(m)
  {
    DivModUnique(m, 2, n, 0);
  }

  lemma Times16(n: nat)
    requires IsPow2(n)
    ensures IsPow2(16 * n)
  {
    Double(n, 2 * n);
    Double(2 * n, 4 * n);
    Double(4 * n, 8 * n);
    Double(8 * n, 16 * n);
  }

  lemma Pow2Constants()
    ensures IsPow2(0x1000) && IsPow2(0x1_0000) && IsPow2(0x40_0000)
  {
    Times16(1);
    Times16(0x10);
    Times16(0x100);
    Times16(0x1000);
    Times16(0x1_0000);
    assert IsPow2(0x20_0000);
  }

  /** Of two different powers of two the larger is at least twice the smaller. */
  lemma {:induction false} Pow2Gap(p: nat, n: nat)
    requires IsPow2(p) && IsPow2(n) && p < n
    ensures 2 * p <= n
  {
    if p > 1 {
      Pow2Gap(p / 2, n / 2);
    }
  }
}
