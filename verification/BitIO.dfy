/** The 32-bit shift registers between bits and bytes: the encoder's writer and the decoder's reader. */
module BitIO {
  import opened Bits

  const WORD := 0x1_0000_0000

  /** The value of a register of w bits that holds bits b at its top end. */
  ghost function LeftJustified(b: Bits, w: nat): nat
    requires |b| <= w
  {
    Shl(FromBits(b), w - |b|)
  }

  /** Splitting a left-justified register into its top byte and the rest. */
  lemma TopByte(b: Bits, w: nat)
    requires 8 <= |b| <= w
    ensures LeftJustified(b, w) == FromBits(b[..8]) * Pow2(w - 8) + LeftJustified(b[8..], w - 8)
    ensures LeftJustified(b[8..], w - 8) < Pow2(w - 8)
    ensures LeftJustified(b[8..], w) == 256 * LeftJustified(b[8..], w - 8)
  {
    var hi, lo, k := FromBits(b[..8]), FromBits(b[8..]), w - |b|;
    ShlMul(FromBits(b), k);
    ShlMul(lo, k);
    ShlMul(lo, k + 8);
    assert FromBits(b) == hi * Pow2(|b| - 8) + lo by {
      assert b == b[..8] + b[8..];
      FromBitsAppend(b[..8], b[8..]);
    }
    Distribute(hi, Pow2(|b| - 8), lo, Pow2(k));
    Pow2Add(|b| - 8, k);
    assert |b[8..]| == |b| - 8 && w - 8 - (|b| - 8) == k;
    assert lo + 1 <= Pow2(|b| - 8);
    MulLe(lo + 1, Pow2(|b| - 8), Pow2(k));
    Distribute(1, lo, 1, Pow2(k));
    Pow2Add(8, k);
    Pow2Values();
    Assoc(lo, 256, Pow2(k));
  }

  lemma Distribute(x: int, y: int, z: int, p: int)
    ensures (x * y + z) * p == x * (y * p) + z * p
  {}

  lemma Assoc(x: int, y: int, z: int)
    ensures x * (y * z) == y * (x * z)
  {}

  lemma {:induction false} FromBitsBound(b: Bits)
    requires |b| <= 8
    ensures FromBits(b) < 256
  {
    Pow2Mono(|b|, 8);
    Pow2Values();
  }

  /** The byte moved out of the top of the register, and what is left. */
  lemma ByteOut(b: Bits, buff: nat)
    requires 8 <= |b| <= 32 && buff == LeftJustified(b, 32)
    ensures buff / 0x100_0000 == FromBits(b[..8]) < 256
    ensures (buff * 256) % WORD == LeftJustified(b[8..], 32)
    ensures BytesBits([FromBits(b[..8])]) == b[..8]
  {
    TopByte(b, 32);
    Pow2Values();
    var hi, rest := FromBits(b[..8]), LeftJustified(b[8..], 24);
    FromBitsBound(b[..8]);
    DivModUnique(buff, 0x100_0000, hi, rest);
    DivModUnique(buff * 256, WORD, hi, rest * 256);
    ToFromBits(b[..8]);
    var one: seq<byte> := [hi];
    assert one[1..] == [] && b[..8] + [] == b[..8];
  }

  /** The new bits land just below the live ones, where the register is clear. */
  lemma BitsIn(b: Bits, buff: nat, n: nat, v: nat)
    requires |b| + n <= 32 && v < Pow2(n) && buff == LeftJustified(b, 32)
    ensures Or(buff, Shl(v, 32 - |b| - n)) == LeftJustified(b + ToBits(v, n), 32)
  {
    var more, k := ToBits(v, n), 32 - |b| - n;
    var x, pn, pk := FromBits(b), Pow2(n), Pow2(k);
    assert FromBits(b + more) == x * pn + v by {
      FromToBits(v, n);
      ModSmall(v, pn);
      FromBitsAppend(b, more);
    }
    assert n + k == 32 - |b|;
    ShlMul(v, k);
    ShlMul(x, n + k);
    ShlMul(x * pn + v, k);
    assert Pow2(n + k) == pn * pk by { Pow2Add(n, k); }
    assert buff == x * (pn * pk);
    Distribute(x, pn, v, pk);
    assert LeftJustified(b + more, 32) == (x * pn + v) * pk;
    InRange(v, pn, pk);
    MulMod(x, Pow2(n + k));
    OrDisjoint(buff, v * pk, n + k);
  }

  lemma InRange(v: nat, p: nat, q: nat)
    requires v < p && q > 0
    ensures 0 <= v * q < p * q
  {
    MulLe(v + 1, p, q);
  }

  /** The encoder's bit buffer: bsBuff holds bsLive bits at its top end; zbits collects whole bytes. */
  class BitWriter {
    var bsBuff: nat
    var bsLive: nat
    var zbits: seq<byte>
    ghost var pending: Bits

    ghost predicate Valid()
      reads this
    {
      |pending| == bsLive <= 32 && bsBuff == LeftJustified(pending, 32)
    }

    /** Everything written since zbits was last emptied, in order. */
    ghost function Written(): Bits
      reads this
    {
      BytesBits(zbits) + pending
    }

    constructor ()
      ensures Valid() && zbits == [] && pending == []
    {
      bsBuff, bsLive, zbits, pending := 0, 0, [], [];
      ShlZero(32);
    }

    /** BZ2_bsInitWrite. */
    method InitWrite()
      modifies this
      ensures Valid() && pending == [] && zbits == old(zbits)
    {
      bsBuff, bsLive, pending := 0, 0, [];
      ShlZero(32);
    }

    /** One round of the byte-moving loops: the top byte of bsBuff goes to zbits. */
    method MoveByte()
      requires Valid() && bsLive >= 8
      modifies this
      ensures Valid() && bsLive == old(bsLive) - 8 && Written() == old(Written())
      ensures |zbits| == old(|zbits|) + 1
    {
      ByteOut(pending, bsBuff);
      ghost var out: byte := FromBits(pending[..8]);
      BytesBitsAppend(zbits, [out]);
      assert BytesBits(zbits) + pending == BytesBits(zbits) + pending[..8] + pending[8..];
      zbits := zbits + [bsBuff / 0x100_0000];
      bsBuff := (bsBuff * 256) % WORD;
      bsLive := bsLive - 8;
      pending := pending[8..];
    }

    /** bsNEEDW: make room by moving out all whole bytes. */
    method NeedW()
      requires Valid()
      modifies this
      ensures Valid() && bsLive < 8 && Written() == old(Written())
    {
      while bsLive >= 8
        invariant Valid() && Written() == old(Written())
      {
        MoveByte();
      }
    }

    /** bsW: append the n bits of v. */
    method W(n: nat, v: nat)
      requires Valid() && n <= 24 && v < Pow2(n)
      modifies this
      ensures Valid() && Written() == old(Written()) + ToBits(v, n)
    {
      NeedW();
      BitsIn(pending, bsBuff, n, v);
      Assoc3(BytesBits(zbits), pending, ToBits(v, n));
      var shifted := Shl(v, 32 - bsLive - n);
      bsBuff, bsLive, pending := Or(bsBuff, shifted), bsLive + n, pending + ToBits(v, n);
    }

    /** bsFinishWrite: pad with zero bits to a byte boundary and move everything to zbits. */
    method FinishWrite()
      requires Valid()
      modifies this
      ensures Valid() && pending == []
      ensures BytesBits(zbits) == PadToByte(old(Written()))
    {
      NeedW();
      PadTail(BytesBits(zbits), pending);
      if bsLive > 0 {
        // The last round moves a partial byte; the bits below it in bsBuff are zero.
        PadPending(pending, 32);
        pending, bsLive := pending + Zeros(8 - bsLive), 8;
        MoveByte();
      }
      assert BytesBits(zbits) + [] == BytesBits(zbits);
    }
  }

  lemma ModSmall(v: nat, p: nat)
    requires v < p
    ensures v % p == v
  {}

  lemma MulMod(x: nat, p: nat)
    requires p > 0
    ensures (x * p) % p == 0
  {
    DivModUnique(x * p, p, x, 0);
  }

  function Zeros(n: nat): (b: Bits)
    ensures |b| == n
  {
    seq(n, _ => false)
  }

  /** b followed by the zero bits that complete its last byte. */
  function PadToByte(b: Bits): (r: Bits)
    ensures |r| % 8 == 0
  {
    if |b| % 8 == 0 then b else b + Zeros(8 - |b| % 8)
  }

  lemma {:induction false} ZerosValue(n: nat)
    ensures FromBits(Zeros(n)) == 0
  {
    if n > 0 {
      assert Zeros(n)[..n - 1] == Zeros(n - 1);
      ZerosValue(n - 1);
    }
  }

  lemma PadPending(b: Bits, w: nat)
    requires |b| <= 8 <= w
    ensures LeftJustified(b + Zeros(8 - |b|), w) == LeftJustified(b, w)
  {
    var z := 8 - |b|;
    ZerosValue(z);
    FromBitsAppend(b, Zeros(z));
    ShlMul(FromBits(b), w - |b|);
    ShlMul(FromBits(b) * Pow2(z), w - 8);
    Pow2Add(z, w - 8);
    Distribute(FromBits(b), Pow2(z), 0, Pow2(w - 8));
    assert w - |b| == z + (w - 8);
  }

  lemma PadTail(a: Bits, b: Bits)
    requires |a| % 8 == 0 && |b| < 8
    ensures PadToByte(a + b) == if b == [] then a else a + (b + Zeros(8 - |b|))
  {
    assert |a + b| % 8 == |b|;
    if b == [] {
      assert a + b == a;
    } else {
      assert a + b + Zeros(8 - |b|) == a + (b + Zeros(8 - |b|));
    }
  }

  /** The decoder's bit buffer: the low bsLive bits of bsBuff are the bits not yet consumed. */
  class BitReader {
    var bsBuff: nat
    var bsLive: nat
    ghost var pending: Bits

    ghost predicate Valid()
      reads this
    {
      |pending| == bsLive <= 32 && bsBuff < WORD && Low(bsBuff, bsLive) == FromBits(pending)
    }

    constructor ()
      ensures Valid() && pending == []
    {
      bsBuff, bsLive, pending := 0, 0, [];
    }

    /** The refill step of GET_BITS. */
    method Load(b: byte)
      requires Valid() && bsLive <= 24
      modifies this
      ensures Valid() && pending == old(pending) + ToBits(b, 8)
    {
      ByteIn(bsBuff, pending, b);
      bsBuff := Or((bsBuff * 256) % WORD, b);
      bsLive := bsLive + 8;
      pending := pending + ToBits(b, 8);
    }

    /** The extraction step of GET_BITS, when enough bits are live. */
    method Take(n: nat) returns (v: nat)
      requires Valid() && n <= bsLive
      modifies this
      ensures Valid() && v == FromBits(old(pending)[..n]) && pending == old(pending)[n..]
    {
      ghost var hi, lo := pending[..n], pending[n..];
      assert pending == hi + lo;
      FromBitsAppend(hi, lo);
      TakeValue(bsBuff, FromBits(hi), FromBits(lo), n, bsLive - n);
      v := Low(Shr(bsBuff, bsLive - n), n);
      bsLive := bsLive - n;
      pending := lo;
    }
  }

  lemma Times256Mod(x: nat)
    ensures (x * 256) % WORD % 256 == 0
    ensures (x * 256) % WORD <= WORD - 256
  {
    var q, r := (x * 256) / WORD, (x * 256) % WORD;
    assert r == 256 * (x - q * 0x100_0000);
  }

  lemma OrByte(a: nat, b: byte)
    requires a % 256 == 0
    ensures Or(a, b) == a + b
  {
    Pow2Values();
    OrDisjoint(a, b, 8);
  }

  /** A byte shifted into the register extends the live bits. */
  lemma ByteIn(buff: nat, p: Bits, b: byte)
    requires |p| <= 24 && Low(buff, |p|) == FromBits(p)
    ensures Or((buff * 256) % WORD, b) < WORD
    ensures Low(Or((buff * 256) % WORD, b), |p| + 8) == FromBits(p + ToBits(b, 8))
  {
    OrSum(buff, b);
    ByteInValue(buff, p, Or((buff * 256) % WORD, b), b);
  }

  lemma OrSum(buff: nat, b: byte)
    ensures Or((buff * 256) % WORD, b) == (buff * 256) % WORD + b < WORD
  {
    Times256Mod(buff);
    OrByte((buff * 256) % WORD, b);
  }

  lemma ByteInValue(buff: nat, p: Bits, y: nat, b: byte)
    requires |p| <= 24 && Low(buff, |p|) == FromBits(p)
    requires y == (buff * 256) % WORD + b
    ensures Low(y, |p| + 8) == FromBits(p + ToBits(b, 8))
  {
    var n := |p| + 8;
    assert y % Pow2(n) == FromBits(p) * 256 + b by {
      LowMod(buff, |p|);
      LoadValue(buff, |p|, b);
    }
    LowMod(y, n);
    assert Pow2(8) == 256;
    AppendValue(p, b, 8);
  }

  lemma AppendValue(p: Bits, v: nat, n: nat)
    requires v < Pow2(n)
    ensures FromBits(p + ToBits(v, n)) == FromBits(p) * Pow2(n) + v
  {
    FromToBits(v, n);
    ModSmall(v, Pow2(n));
    FromBitsAppend(p, ToBits(v, n));
  }

  /** Shifting in a byte: high bits that fall off the register never belong to the live part. */
  lemma LoadValue(buff: nat, live: nat, b: byte)
    requires live <= 24
    ensures ((buff * 256) % WORD + b) % Pow2(live + 8) == (buff % Pow2(live)) * 256 + b
  {
    var p, s := Pow2(live), Pow2(24 - live);
    Pow2Values();
    Pow2Add(live, 8);
    Pow2Add(live + 8, 24 - live);
    LoadArith(buff, p, s, b);
  }

  lemma LoadArith(buff: nat, p: nat, s: nat, b: byte)
    requires p > 0 && WORD == (p * 256) * s
    ensures ((buff * 256) % WORD + b) % (p * 256) == (buff % p) * 256 + b
  {
    var q, r := buff / p, buff % p;
    assert buff == q * p + r;
    var w := (buff * 256) / WORD;
    Regroup(q, p, r, w, s, b);
    DivModUnique((buff * 256) % WORD + b, p * 256, q - w * s, r * 256 + b);
  }

  lemma Regroup(q: int, p: int, r: int, w: int, s: int, b: int)
    ensures (q * p + r) * 256 - w * (p * 256 * s) + b == (q - w * s) * (p * 256) + (r * 256 + b)
  {
    assert (q * p + r) * 256 == q * (p * 256) + r * 256;
    assert w * (p * 256 * s) == (w * s) * (p * 256);
    assert (q - w * s) * (p * 256) == q * (p * 256) - (w * s) * (p * 256);
  }

  lemma TakeValue(buff: nat, hi: nat, lo: nat, n: nat, k: nat)
    requires hi < Pow2(n) && lo < Pow2(k)
    requires Low(buff, n + k) == hi * Pow2(k) + lo
    ensures Low(Shr(buff, k), n) == hi
    ensures Low(buff, k) == lo
  {
    var a, c := Pow2(n), Pow2(k);
    assert buff % (a * c) == hi * c + lo by {
      LowMod(buff, n + k);
      Pow2Add(n, k);
    }
    TakeArith(buff, hi, lo, a, c);
    LowMod(buff, k);
    ShrDiv(buff, k);
    LowMod(Shr(buff, k), n);
  }

  lemma TakeArith(buff: nat, hi: nat, lo: nat, a: nat, c: nat)
    requires hi < a && lo < c && a * c > 0 && buff % (a * c) == hi * c + lo
    ensures (buff / c) % a == hi && buff % c == lo
  {
    var q := buff / (a * c);
    assert buff == q * (a * c) + (hi * c + lo);
    Factor(q, a, c, hi);
    DivModUnique(buff, c, q * a + hi, lo);
    DivModUnique(q * a + hi, a, q, hi);
  }

  lemma Factor(q: int, a: int, c: int, hi: int)
    ensures q * (a * c) + hi * c == (q * a + hi) * c
  {}
}
