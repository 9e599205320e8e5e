/** Facts about remainders that the ring offsets rest on. */
module Modular {

  const TWO_64: nat := 0x1_0000_0000_0000_0000

  /** The value a 64-bit register holds for an unbounded counter. */
  function Reg(counter: nat): (r: nat)
    ensures r < TWO_64
  {
    counter % TWO_64
  }

  /** 64-bit unsigned addition. */
  function AddU64(a: nat, b: nat): (r: nat)
    ensures r < TWO_64
  {
    (a + b) % TWO_64
  }

  /** 64-bit unsigned subtraction. */
  function SubU64(a: nat, b: nat): (r: nat)
    ensures r < TWO_64
  {
    (a - b) % TWO_64
  }

  /** A nonzero multiple of `n` is at least `n` away from zero. */
  lemma MultipleIsFar(d: int, n: int)
    requires d != 0 && n > 0
    ensures d * n >= n || d * n <= -n
  {
  }

  lemma DivModUnique(a: int, q: int, r: int, n: int)
    requires 0 <= r < n && a == q * n + r
    ensures a % n == r && a / n == q
  {
    var q', r' := a / n, a % n;
    assert a == q' * n + r';
    assert (q - q') * n == q * n - q' * n;
    if q != q' {
      MultipleIsFar(q - q', n);
    }
  }

  /** Moving forward by `i` without reaching the end keeps the same lap. */
  lemma ModForward(a: nat, i: nat, n: nat)
    requires n > 0 && a % n + i < n
    ensures (a + i) % n == a % n + i
  {
    DivModUnique(a + i, a / n, a % n + i, n);
  }

  /** Two positions less than one lap apart have different offsets. */
  lemma ModDistinct(a: nat, b: nat, n: nat)
    requires a < b < a + n
    ensures a % n != b % n
  {
    var p, q := a / n, b / n;
    assert b - a == (q - p) * n + (b % n - a % n) by { assert q * n - p * n == (q - p) * n; }
    if q != p {
      MultipleIsFar(q - p, n);
    }
  }

  /** Offsets depend on a position only through its offset. */
  lemma ModCongruent(a: nat, b: nat, i: nat, n: nat)
    requires n > 0 && a % n == b % n
    ensures (a + i) % n == (b + i) % n
  {
    var r := a % n + i;
    DivModUnique(a + i, a / n + r / n, r % n, n) by { assert (a / n + r / n) * n == a / n * n + r / n * n; }
    DivModUnique(b + i, b / n + r / n, r % n, n) by { assert (b / n + r / n) * n == b / n * n + r / n * n; }
  }

  /** Reducing first by a multiple of `n` does not change the remainder by `n`. */
  lemma ModOfMod(a: nat, n: nat, k: nat)
    requires n > 0 && k > 0
    ensures n * k > 0 && (a % (n * k)) % n == a % n
  {
    assert n * k > 0 by { assert n * k >= n * 1; }
    var q, r := a / (n * k), a % (n * k);
    assert a == (k * q + r / n) * n + r % n by {
      assert (n * k) * q == (k * q) * n;
      assert (k * q + r / n) * n == (k * q) * n + r / n * n;
    }
    DivModUnique(a, k * q + r / n, r % n, n);
  }

  /** A multiple of 8 stays a multiple of 8 when reduced by a multiple of 8. */
  lemma ModKeepsAlignment(a: nat, n: nat)
    requires n > 0 && n % 8 == 0 && a % 8 == 0
    ensures (a % n) % 8 == 0
  {
    ModOfMod(a, 8, n / 8);
  }

  /** 64-bit addition of counters is addition of the unbounded counters. */
  lemma RegAdd(a: nat, b: nat)
    ensures AddU64(Reg(a), b) == Reg(a + b)
  {
  }

  /** Registers less than 2^64 apart agree exactly when the counters do. */
  lemma RegInjective(a: nat, b: nat)
    requires a <= b < a + TWO_64
    ensures Reg(a) == Reg(b) <==> a == b
    ensures SubU64(Reg(b), Reg(a)) == b - a
  {
  }
}
