/** Integer facts the solver does not find on its own: powers of two and the
    uniqueness of Euclidean division, used by the reward and target arithmetic. */
module Arith {

  function Pow2(k: nat): (r: nat)
    ensures r > 0
  {
    if k == 0 then 1 else 2 * Pow2(k - 1)
  }

  lemma {:induction false} Pow2Add(a: nat, b: nat)
    ensures Pow2(a + b) == Pow2(a) * Pow2(b)
  {
    if a > 0 {
      Pow2Add(a - 1, b);
      assert Pow2(a + b) == 2 * Pow2(a - 1 + b);
    }
  }

  lemma {:induction false} Pow2Monotone(a: nat, b: nat)
    requires a <= b
    ensures Pow2(a) <= Pow2(b)
  {
    if a < b {
      Pow2Monotone(a, b - 1);
    }
  }

  lemma MulAtLeast(m: int, x: int)
    requires m > 0 && x >= 1
    ensures m * x >= m
  {
    if x > 1 {
      MulAtLeast(m, x - 1);
      assert m * x == m * (x - 1) + m;
    }
  }

  lemma DivUnique(n: int, m: int, q: int, r: int)
    requires m > 0 && 0 <= r < m && n == m * q + r
    ensures n / m == q && n % m == r
  {
    var d := q - n / m;
    assert n == m * (n / m) + n % m;
    assert m * d == n % m - r by {
      assert m * d == m * q - m * (n / m);
    }
    if d >= 1 {
      MulAtLeast(m, d);
      assert false;
    } else if d <= -1 {
      MulAtLeast(m, -d);
      assert false;
    }
  }

  /** Rounding down to a multiple of `m` loses less than `m`. */
  lemma RoundDown(n: nat, m: nat)
    requires m > 0
    ensures (n / m) * m <= n < (n / m) * m + m
  {
    assert n == m * (n / m) + n % m;
  }

  lemma DivDiv(n: nat, a: nat, b: nat)
    requires a > 0 && b > 0
    ensures n / a / b == n / (a * b)
  {
    var q := n / a;
    var r := n % a;
    var q2 := q / b;
    var r2 := q % b;
    assert n == a * q + r;
    assert q == b * q2 + r2;
    assert a * q == (a * b) * q2 + a * r2 by {
      assert a * (b * q2 + r2) == a * (b * q2) + a * r2;
      assert a * (b * q2) == (a * b) * q2;
    }
    assert a * r2 + r < a * b by {
      assert r2 <= b - 1;
      MulLe(a, r2, b - 1);
      assert a * (b - 1) == a * b - a;
    }
    DivUnique(n, a * b, q2, a * r2 + r);
  }

  lemma MulLe(a: nat, x: nat, y: nat)
    requires x <= y
    ensures a * x <= a * y
  {
    if x < y {
      assert a * y == a * x + a * (y - x);
    }
  }

  /** Dividing by a larger divisor gives a smaller quotient. */
  lemma DivLeDiv(n: nat, a: nat, b: nat)
    requires 0 < a <= b
    ensures n / b <= n / a
  {
    RoundDown(n, a);
    RoundDown(n, b);
    MulLe(n / b, a, b);
    if n / b > n / a {
      MulLe(a, n / a + 1, n / b);
      assert false;
    }
  }

  /** Reducing the left summand first does not change the remainder. */
  lemma ModAddLeft(a: int, x: int, m: int)
    requires m > 0
    ensures ((a % m) + x) % m == (a + x) % m
  {
    var y := a % m + x;
    assert a == m * (a / m) + a % m;
    assert y == m * (y / m) + y % m;
    assert m * (a / m + y / m) == m * (a / m) + m * (y / m);
    DivUnique(a + x, m, a / m + y / m, y % m);
  }

  const TwoTo63: nat := 0x8000_0000_0000_0000
  const TwoTo64: nat := 0x1_0000_0000_0000_0000

  /** Pow2 at the widths the source's integer types use. */
  lemma Pow2Widths()
    ensures Pow2(8) == 256 && Pow2(16) == 0x1_0000 && Pow2(32) == 0x1_0000_0000
    ensures Pow2(56) == 0x100_0000_0000_0000
    ensures Pow2(63) == TwoTo63 && Pow2(64) == TwoTo64
  {
    assert Pow2(4) == 16;
    assert Pow2(8) == 256;
    Pow2Add(8, 8);
    Pow2Add(16, 16);
    Pow2Add(32, 16);
    Pow2Add(48, 8);
    Pow2Add(56, 7);
    assert Pow2(7) == 128;
    Pow2Add(63, 1);
  }

  /** Go's conversion of a mathematical integer into an `int64`: two's-complement wrap-around. */
  function WrapInt64(x: int): (r: int)
    ensures -(TwoTo63 as int) <= r < TwoTo63
    ensures (x - r) % TwoTo64 == 0
  {
    var m := x % TwoTo64;
    if m >= TwoTo63 then m - TwoTo64 else m
  }

  /** Go's `/` on integers: the quotient truncated toward zero. */
  function TruncDiv(a: int, b: int): (q: int)
    requires b != 0
    ensures a >= 0 && b > 0 ==> q == a / b
    ensures a >= 0 && b < 0 ==> q == -(a / -b)
  {
    var n := if a >= 0 then a else -a;
    var d := if b >= 0 then b else -b;
    if (a >= 0) == (b > 0) then n / d else -(n / d)
  }
}
