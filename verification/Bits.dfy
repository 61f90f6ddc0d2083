/** Fixed-width arithmetic: powers of two, bitwise and, and the div/mod facts the hash index rests on. */
module Bits {

  const TWO32: nat := 0x1_0000_0000
  const TWO63: nat := 0x8000_0000_0000_0000
  const TWO64: nat := 0x1_0000_0000_0000_0000

  // The value of x in unsigned 32-bit and 64-bit arithmetic.
  function U32(x: int): (r: nat)
    ensures r < TWO32
  {
    x % 0x1_0000_0000
  }

  function U64(x: int): (r: nat)
    ensures r < TWO64
  {
    x % 0x1_0000_0000_0000_0000
  }

  // An inner reduction can be dropped.
  lemma U32Inner(x: int, y: int, c: nat)
    ensures U32(c * U32(x) + y) == U32(c * x + y)
  {
    var m: nat := 0x1_0000_0000;
    var q := x / m;
    assert c * x == c * U32(x) + (c * q) * m by {
      assert x == q * m + U32(x);
      assert c * (q * m) == (c * q) * m;
    }
    var z := c * U32(x) + y;
    assert z + (c * q) * m == (z / m + c * q) * m + z % m;
    DivModUnique(z + (c * q) * m, m, z / m + c * q, z % m);
  }

  function Pow2(n: nat): (r: nat)
    ensures r > 0
  {
    if n == 0 then 1 else 2 * Pow2(n - 1)
  }

  lemma Pow2Quad(n: nat)
    ensures Pow2(n + 2) == 4 * Pow2(n)
  {
    assert Pow2(n + 2) == 2 * Pow2(n + 1);
  }

  lemma DivNat(x: nat, d: nat)
    requires d > 0
    ensures x / d >= 0
  {}

  // The bitwise "and" of two unsigned numbers.
  function And(a: nat, b: nat): nat {
    if a == 0 || b == 0 then 0 else (if a % 2 == 1 && b % 2 == 1 then 1 else 0) + 2 * And(a / 2, b / 2)
  }

  lemma {:induction false} Pow2Sum(m: nat, n: nat)
    ensures Pow2(m + n) == Pow2(m) * Pow2(n)
  {
    if m == 0 {
    } else {
      Pow2Sum(m - 1, n);
      assert 2 * (Pow2(m - 1) * Pow2(n)) == (2 * Pow2(m - 1)) * Pow2(n);
    }
  }

  lemma Pow2Values()
    ensures Pow2(28) == 0x1000_0000 && Pow2(30) == 0x4000_0000 && Pow2(32) == TWO32 && Pow2(34) == 4 * TWO32
  {
    assert Pow2(8) == 256;
    Pow2Sum(8, 8);
    Pow2Sum(16, 8);
    Pow2Sum(24, 4);
    Pow2Sum(28, 2);
    Pow2Sum(16, 16);
    Pow2Sum(32, 2);
  }

  lemma MulSign(t: int, d: nat)
    ensures t >= 1 ==> t * d >= d
    ensures t <= -1 ==> t * d + d <= 0
  {
    if t >= 1 {
      assert t * d == (t - 1) * d + d;
    } else {
      assert t * d == (t + 1) * d - d;
    }
  }

  lemma DivModUnique(x: int, d: int, q: int, r: int)
    requires 0 <= r < d && x == q * d + r
    ensures x / d == q && x % d == r
  {
    var t := q - x / d;
    assert x == (x / d) * d + x % d;
    assert t * d == x % d - r by {
      assert t * d == q * d - (x / d) * d;
    }
    MulSign(t, d);
  }

  // Masking with n one-bits keeps the n low bits.
  lemma {:induction false} AndMask(a: nat, n: nat)
    ensures And(a, Pow2(n) - 1) == a % Pow2(n)
  {
    if n == 0 {
      assert a % 1 == 0;
    } else if a == 0 {
      DivModUnique(0, Pow2(n), 0, 0);
    } else {
      var h := Pow2(n - 1);
      assert Pow2(n) == 2 * h;
      calc {
        And(a, 2 * h - 1);
        { AndOdd(a, h); }
        a % 2 + 2 * And(a / 2, h - 1);
        { AndMask(a / 2, n - 1); }
        a % 2 + 2 * (a / 2 % h);
        { HalfMod(a, h); }
        a % (2 * h);
      }
    }
  }

  lemma AndOdd(a: nat, h: nat)
    requires h > 0
    ensures And(a, 2 * h - 1) == a % 2 + 2 * And(a / 2, h - 1)
  {
    assert (2 * h - 1) % 2 == 1 && (2 * h - 1) / 2 == h - 1;
  }

  lemma HalfMod(a: nat, h: nat)
    requires h > 0
    ensures a % (2 * h) == a % 2 + 2 * (a / 2 % h)
  {
    var q, r := a / 2 / h, a / 2 % h;
    assert a == q * (2 * h) + (2 * r + a % 2) by {
      assert a / 2 == q * h + r;
      assert q * (2 * h) == 2 * (q * h);
    }
    DivModUnique(a, 2 * h, q, 2 * r + a % 2);
  }

  // Reducing by a multiple first does not change a remainder.
  lemma ModMod(x: nat, d: nat, m: nat)
    requires d > 0 && m > 0
    ensures x % (d * m) % d == x % d
    ensures d * m > 0
  {
    assert d * m > 0;
    var q, r := x / (d * m), x % (d * m);
    var q', r' := r / d, r % d;
    assert x == (q * m + q') * d + r' by {
      assert x == q * (d * m) + r;
      assert q * (d * m) == (q * m) * d;
      assert r == q' * d + r';
      assert (q * m + q') * d == (q * m) * d + q' * d;
    }
    DivModUnique(x, d, q * m + q', r');
  }

  lemma QuotientBelow(r: nat, a: nat, b: nat)
    requires a > 0 && r < a * b
    ensures r / a < b
  {
    var q := r / a;
    assert r == q * a + r % a;
    MulSign(q - b + 1, a);
    assert (q - b + 1) * a == q * a - a * b + a;
  }

  lemma MiddleDigit(x: nat, a: nat, b: nat, q: nat, q': nat, r': nat)
    requires a > 0 && b > 0 && q' < b && r' < a && x == q * (a * b) + (q' * a + r')
    ensures x / a % b == q'
  {
    assert x == (q * b + q') * a + r' by {
      assert q * (a * b) == (q * b) * a;
      assert (q * b + q') * a == (q * b) * a + q' * a;
    }
    DivModUnique(x, a, q * b + q', r');
    DivModUnique(q * b + q', b, q, q');
  }

  lemma LowPart(x: nat, a: nat, b: nat, q: nat, r: nat)
    requires a > 0 && b > 0 && r < a * b && x == q * (a * b) + r
    ensures x / a % b == r / a < b
  {
    QuotientBelow(r, a, b);
    assert r == r / a * a + r % a;
    MiddleDigit(x, a, b, q, r / a, r % a);
  }

  // Bits above position a*b do not reach the window [a, a*b).
  lemma DivMod(x: nat, a: nat, b: nat, ab: nat)
    requires a > 0 && b > 0 && ab == a * b > 0
    ensures x / a % b == x % ab / a < b
  {
    assert x == x / ab * ab + x % ab;
    LowPart(x, a, b, x / ab, x % ab);
  }

  lemma DivDiv(x: nat, a: nat, b: nat)
    requires a > 0 && b > 0
    ensures a * b > 0 && x / (a * b) == x / a / b
  {
    assert a * b > 0;
    var q, r := x / a / b, x / a % b;
    var s := x % a;
    assert x == (q * b + r) * a + s;
    assert x == q * (a * b) + (r * a + s) by {
      assert (q * b + r) * a == (q * b) * a + r * a;
      assert (q * b) * a == q * (a * b);
    }
    assert r * a + s < a * b by {
      assert r * a <= (b - 1) * a;
      assert (b - 1) * a == a * b - a;
    }
    DivModUnique(x, a * b, q, r * a + s);
  }
}
