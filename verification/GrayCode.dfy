// Gray encoding: i XOR (i >> 1).
module GrayCode {
  import opened BinaryNumbers

  function Xor(a: nat, b: nat): nat
    decreases a + b
  {
    if a == 0 && b == 0 then 0 else 2 * Xor(a / 2, b / 2) + if a % 2 != b % 2 then 1 else 0
  }

  function And(a: nat, b: nat): nat {
    if a == 0 then 0 else 2 * And(a / 2, b / 2) + if a % 2 == 1 && b % 2 == 1 then 1 else 0
  }

  function GrayEncode(i: nat): nat {
    Xor(i, i / 2)
  }

  function Lsb(x: nat, n: nat): nat {
    And(x, Pow2(n) - 1)
  }

  function OnesIn(x: nat): nat {
    if x == 0 then 0 else OnesIn(x / 2) + x % 2
  }

  /** The lowest bit of the code tells whether the two lowest bits of i differ; the rest is the code of i / 2. */
  lemma GrayStep(i: nat)
    ensures GrayEncode(i) / 2 == GrayEncode(i / 2)
    ensures GrayEncode(i) % 2 == if i % 2 != i / 2 % 2 then 1 else 0
  {
  }

  lemma {:induction false} XorSelf(a: nat)
    ensures Xor(a, a) == 0
  {
    if a > 0 {
      XorSelf(a / 2);
    }
  }

  /** Codes of neighbours differ in exactly one bit. */
  lemma {:induction false} NeighboursDifferInOneBit(i: nat)
    ensures OnesIn(Xor(GrayEncode(i), GrayEncode(i + 1))) == 1
  {
    var a, b := GrayEncode(i), GrayEncode(i + 1);
    GrayStep(i);
    GrayStep(i + 1);
    if i % 2 == 0 {
      assert (i + 1) / 2 == i / 2;
      XorSelf(a / 2);
      assert Xor(a, b) == 1;
    } else {
      assert (i + 1) / 2 == i / 2 + 1;
      NeighboursDifferInOneBit(i / 2);
      assert Xor(a, b) == 2 * Xor(a / 2, b / 2);
    }
  }

  lemma {:induction false} GrayInjective(i: nat, j: nat)
    requires GrayEncode(i) == GrayEncode(j)
    ensures i == j
    decreases i + j
  {
    if i > 0 || j > 0 {
      GrayStep(i);
      GrayStep(j);
      GrayInjective(i / 2, j / 2);
    }
  }

  lemma {:induction false} GrayRange(i: nat, n: nat)
    ensures GrayEncode(i) < Pow2(n) <==> i < Pow2(n)
  {
    if n > 0 {
      GrayStep(i);
      GrayRange(i / 2, n - 1);
    } else {
      GrayZero(i);
    }
  }

  lemma {:induction false} GrayZero(i: nat)
    ensures GrayEncode(i) == 0 <==> i == 0
  {
    if i > 0 {
      GrayStep(i);
      GrayZero(i / 2);
    }
  }

  /** Every code below a power of two is taken, so the encoding permutes the numbers below it. */
  lemma {:induction false} GrayOnto(g: nat, n: nat) returns (i: nat)
    requires g < Pow2(n)
    ensures i < Pow2(n) && GrayEncode(i) == g
  {
    if n == 0 {
      i := 0;
    } else {
      var h := GrayOnto(g / 2, n - 1);
      i := 2 * h + if g % 2 == h % 2 then 0 else 1;
      GrayStep(i);
    }
  }

  lemma {:induction false} LsbIsRemainder(x: nat, n: nat)
    ensures Lsb(x, n) == x % Pow2(n)
    decreases n
  {
    if n == 0 {
      AndZero(x);
    } else {
      LsbIsRemainder(x / 2, n - 1);
      assert (Pow2(n) - 1) / 2 == Pow2(n - 1) - 1 && (Pow2(n) - 1) % 2 == 1;
      assert Lsb(x, n) == 2 * Lsb(x / 2, n - 1) + x % 2;
      RemainderStep(x, Pow2(n - 1));
    }
  }

  lemma {:induction false} AndZero(x: nat)
    ensures And(x, 0) == 0
  {
    if x > 0 {
      AndZero(x / 2);
    }
  }

  lemma RemainderStep(x: nat, p: nat)
    requires p > 0
    ensures x % (2 * p) == 2 * (x / 2 % p) + x % 2
  {
    var q, r := x / 2 / p, x / 2 % p;
    assert x == (2 * p) * q + (2 * r + x % 2) by {
      assert x / 2 == p * q + r;
    }
    DivModUnique(x, 2 * p, q, 2 * r + x % 2);
  }

  lemma DivModUnique(x: nat, d: nat, q: nat, r: nat)
    requires d > 0 && x == d * q + r && r < d
    ensures x % d == r
  {
    var k := x / d;
    assert x == d * k + x % d;
    if k < q {
      ScaledOrder(d, k + 1, q);
    } else if q < k {
      ScaledOrder(d, q + 1, k);
    }
  }

  lemma ScaledOrder(d: nat, a: nat, b: nat)
    requires a <= b
    ensures d * a <= d * b
  {
  }

  /** Keeping the n low bits loses nothing of the codes of the numbers below 2^n. */
  lemma LsbLosesNothing(i: nat, n: nat)
    requires i < Pow2(n)
    ensures Lsb(GrayEncode(i), n) == GrayEncode(i)
  {
    GrayRange(i, n);
    var g := GrayEncode(i);
    LsbIsRemainder(g, n);
    DivModUnique(g, Pow2(n), 0, g);
  }
}
