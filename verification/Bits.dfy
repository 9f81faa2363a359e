/** Bit strings, most significant bit first, and their values. */
module Bits {
  type byte = b: nat | b < 256
  type Bits = seq<bool>

  function Pow2(n: nat): (p: nat)
    ensures p >= 1
  {
    if n == 0 then 1 else 2 * Pow2(n - 1)
  }

  function Bit(x: nat): bool { x % 2 == 1 }

  /** The low n bits of v, most significant first. */
  function ToBits(v: nat, n: nat): (b: Bits)
    ensures |b| == n
    decreases n, v
  {
    if n == 0 then [] else ToBits(v / 2, n - 1) + [Bit(v)]
  }

  function FromBits(b: Bits): (v: nat)
    ensures v < Pow2(|b|)
  {
    if b == [] then 0 else 2 * FromBits(b[..|b| - 1]) + (if b[|b| - 1] then 1 else 0)
  }

  function BytesBits(s: seq<byte>): (b: Bits)
    ensures |b| == 8 * |s|
  {
    if s == [] then [] else ToBits(s[0], 8) + BytesBits(s[1..])
  }

  lemma {:induction false} Pow2Add(m: nat, n: nat)
    ensures Pow2(m + n) == Pow2(m) * Pow2(n)
  {
    if n > 0 {
      Pow2Add(m, n - 1);
      assert Pow2(m + n) == 2 * (Pow2(m) * Pow2(n - 1)) == Pow2(m) * (2 * Pow2(n - 1));
    }
  }

  lemma {:induction false} Pow2Mono(m: nat, n: nat)
    requires m <= n
    ensures Pow2(m) <= Pow2(n)
  {
    if m < n { Pow2Mono(m, n - 1); }
  }

  lemma Pow2Values()
    ensures Pow2(1) == 2 && Pow2(2) == 4 && Pow2(3) == 8 && Pow2(5) == 32 && Pow2(8) == 256
    ensures Pow2(15) == 32768 && Pow2(16) == 65536 && Pow2(17) == 131072
    ensures Pow2(20) == 1048576 && Pow2(21) == 2097152 && Pow2(24) == 16777216
    ensures Pow2(32) == 4294967296
  {
    assert Pow2(8) == 256;
    assert Pow2(16) == 65536 by { Pow2Add(8, 8); }
    assert Pow2(15) == 32768;
    assert Pow2(20) == 1048576 by { assert Pow2(4) == 16; Pow2Add(16, 4); }
    assert Pow2(24) == 16777216 by { Pow2Add(16, 8); }
    assert Pow2(32) == 4294967296 by { Pow2Add(16, 16); }
  }

  lemma {:induction false} FromToBits(v: nat, n: nat)
    ensures FromBits(ToBits(v, n)) == v % Pow2(n)
  {
    if n > 0 {
      FromToBits(v / 2, n - 1);
      var b := ToBits(v, n);
      assert b[..n - 1] == ToBits(v / 2, n - 1);
      HalfMod(v, Pow2(n - 1));
    }
  }

  lemma HalfMod(v: nat, p: nat)
    requires p > 0
    ensures v % (2 * p) == 2 * ((v / 2) % p) + v % 2
  {
    var q := v / 2 / p;
    var r := (v / 2) % p;
    assert v / 2 == q * p + r;
    assert v == 2 * (q * p + r) + v % 2 == q * (2 * p) + (2 * r + v % 2);
    DivModUnique(v, 2 * p, q, 2 * r + v % 2);
  }

  lemma MulLe(a: int, b: int, d: nat)
    requires a <= b
    ensures a * d <= b * d
  {
    assert (b - a) * d >= 0;
  }

  lemma DivModUnique(v: int, d: int, q: int, r: int)
    requires d > 0 && 0 <= r < d && v == q * d + r
    ensures v / d == q && v % d == r
  {
    var q' := v / d;
    if q' + 1 <= q {
      MulLe(q' + 1, q, d);
    } else if q + 1 <= q' {
      MulLe(q + 1, q', d);
    }
  }

  lemma {:induction false} ToFromBits(b: Bits)
    ensures ToBits(FromBits(b), |b|) == b
  {
    if b != [] {
      var c := b[..|b| - 1];
      ToFromBits(c);
      assert FromBits(b) / 2 == FromBits(c);
      assert b == c + [b[|b| - 1]];
    }
  }

  lemma {:induction false} FromBitsAppend(a: Bits, b: Bits)
    ensures FromBits(a + b) == FromBits(a) * Pow2(|b|) + FromBits(b)
  {
    if b == [] {
      assert a + b == a;
    } else {
      var c, last: nat := b[..|b| - 1], if b[|b| - 1] then 1 else 0;
      FromBitsAppend(a, c);
      assert FromBits(a + b) == 2 * FromBits(a + c) + last by {
        assert (a + b)[..|a + b| - 1] == a + c;
        assert (a + b)[|a + b| - 1] == b[|b| - 1];
      }
      DoubleMul(FromBits(a), Pow2(|c|));
    }
  }

  lemma DoubleMul(x: int, y: int)
    ensures 2 * (x * y) == x * (2 * y)
  {}

  /** v shifted right by n. */
  function Shr(v: nat, n: nat): nat
    decreases n, v
  {
    if n == 0 then v else Shr(v / 2, n - 1)
  }

  lemma {:induction false} ShrDiv(v: nat, n: nat)
    ensures Shr(v, n) == v / Pow2(n)
  {
    if n > 0 {
      ShrDiv(v / 2, n - 1);
      DivDiv(v, Pow2(n - 1));
    }
  }

  /** v shifted left by n. */
  function Shl(v: nat, n: nat): nat
    decreases n, v
  {
    if n == 0 then v else 2 * Shl(v, n - 1)
  }

  lemma {:induction false} ShlMul(v: nat, n: nat)
    ensures Shl(v, n) == v * Pow2(n)
  {
    if n > 0 {
      ShlMul(v, n - 1);
      DoubleMul(v, Pow2(n - 1));
    }
  }

  lemma {:induction false} ShlAdd(a: nat, b: nat, n: nat)
    ensures Shl(a + b, n) == Shl(a, n) + Shl(b, n)
  {
    if n > 0 { ShlAdd(a, b, n - 1); }
  }

  lemma {:induction false} ShlTwice(v: nat, k: nat)
    ensures Shl(2 * v, k) == Shl(v, k + 1)
  {
    if k > 0 { ShlTwice(v, k - 1); }
  }

  lemma {:induction false} ShlZero(k: nat)
    ensures Shl(0, k) == 0
  {
    if k > 0 { ShlZero(k - 1); }
  }

  lemma {:induction false} ShlOne(n: nat)
    ensures Shl(1, n) == Pow2(n)
  {
    if n > 0 { ShlOne(n - 1); }
  }

  lemma {:induction false} ShlPow2(n: nat, k: nat)
    ensures Shl(Pow2(n), k) == Pow2(n + k)
  {
    if k > 0 { ShlPow2(n, k - 1); }
  }

  lemma {:induction false} ShlLess(a: nat, b: nat, n: nat)
    requires a < b
    ensures Shl(a, n) < Shl(b, n)
  {
    if n > 0 { ShlLess(a, b, n - 1); }
  }

  lemma {:induction false} ShrGe(v: nat, x: nat, k: nat)
    requires v >= Shl(x, k)
    ensures Shr(v, k) >= x
  {
    if k > 0 { ShrGe(v / 2, x, k - 1); }
  }

  lemma {:induction false} ShrHalf(v: nat, k: nat)
    ensures Shr(v, k + 1) == Shr(v, k) / 2
    decreases k, v
  {
    if k > 0 { ShrHalf(v / 2, k - 1); }
  }

  lemma {:induction false} ShrGone(v: nat, k: nat, n: nat)
    requires v < Pow2(n) && k >= n
    ensures Shr(v, k) == 0
    decreases k, v
  {
    if n > 0 {
      ShrGone(v / 2, k - 1, n - 1);
    } else if k > 0 {
      ShrGone(v / 2, k - 1, 0);
    }
  }

  /** The low n bits of v: v & ((1 << n) - 1). */
  function Low(v: nat, n: nat): nat
    decreases n, v
  {
    if n == 0 then 0 else 2 * Low(v / 2, n - 1) + v % 2
  }

  lemma {:induction false} LowMod(v: nat, n: nat)
    ensures Low(v, n) == v % Pow2(n)
  {
    if n > 0 {
      LowMod(v / 2, n - 1);
      HalfMod(v, Pow2(n - 1));
    }
  }

  /** Splitting a value into its high and low bits. */
  lemma {:induction false} ToBitsSplit(v: nat, m: nat, n: nat)
    ensures ToBits(v, m + n) == ToBits(Shr(v, n), m) + ToBits(v, n)
  {
    if n == 0 {
      assert ToBits(v, m) + [] == ToBits(v, m);
    } else {
      ToBitsSplit(v / 2, m, n - 1);
      SplitStep(v, Shr(v, n), m, n);
    }
  }

  lemma ToBitsSplitAt(v: nat, n: nat, m: nat, k: nat)
    requires m + k == n
    ensures ToBits(v, n) == ToBits(Shr(v, k), m) + ToBits(v, k)
  {
    ToBitsSplit(v, m, k);
  }

  lemma {:induction false} SplitStep(v: nat, w: nat, m: nat, n: nat)
    requires n > 0
    requires ToBits(v / 2, m + (n - 1)) == ToBits(w, m) + ToBits(v / 2, n - 1)
    ensures ToBits(v, m + n) == ToBits(w, m) + ToBits(v, n)
  {}

  lemma DivDiv(v: nat, p: nat)
    requires p > 0
    ensures v / 2 / p == v / (2 * p)
  {
    var q := v / 2 / p;
    var r := (v / 2) % p;
    assert v / 2 == q * p + r;
    assert v == q * (2 * p) + (2 * r + v % 2);
    DivModUnique(v, 2 * p, q, 2 * r + v % 2);
  }

  lemma Assoc3(a: Bits, b: Bits, c: Bits)
    ensures a + (b + c) == a + b + c
  {}

  lemma SliceAppend(a: Bits, b: Bits, n: nat)
    requires n <= |a|
    ensures (a + b)[..n] == a[..n] && (a + b)[n..] == a[n..] + b
  {}

  lemma {:induction false} BytesBitsAppend(s: seq<byte>, t: seq<byte>)
    ensures BytesBits(s + t) == BytesBits(s) + BytesBits(t)
  {
    if s == [] {
      assert s + t == t;
    } else {
      BytesBitsAppend(s[1..], t);
      assert (s + t)[1..] == s[1..] + t;
      Assoc3(ToBits(s[0], 8), BytesBits(s[1..]), BytesBits(t));
    }
  }

  /** Bitwise or, bit by bit. */
  function Or(a: nat, b: nat): nat
    decreases a + b
  {
    if a + b == 0 then 0
    else 2 * Or(a / 2, b / 2) + (if Bit(a) || Bit(b) then 1 else 0)
  }

  /** Or of a number whose low n bits are clear with one below 2^n adds them. */
  lemma {:induction false} OrDisjoint(a: nat, b: nat, n: nat)
    requires a % Pow2(n) == 0 && b < Pow2(n)
    ensures Or(a, b) == a + b
    decreases n, a
  {
    if a + b == 0 {
    } else if n == 0 {
      assert b == 0;
      OrZero(a);
    } else {
      HalfMod(a, Pow2(n - 1));
      OrDisjoint(a / 2, b / 2, n - 1);
    }
  }

  lemma {:induction false} OrZero(a: nat)
    ensures Or(a, 0) == a
  {
    if a > 0 { OrZero(a / 2); }
  }
}
