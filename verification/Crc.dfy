/** The CRC-32 that guards blocks and the whole stream, most significant bit first, polynomial 0x04c11db7. */
module Crc {
  import opened Bits

  type word = bv32

  const POLYNOMIAL: word := 0x04c11db7

  /** The register after one more zero bit. */
  function Shifted(x: word): word {
    if Top(x) then Xor(Up(x), POLYNOMIAL) else Up(x)
  }

  predicate Top(x: word) {
    x & 0x8000_0000 != 0
  }

  function Up(x: word): word {
    x << 1
  }

  function Xor(a: word, b: word): word {
    a ^ b
  }

  /** The remainder of x after k more zero bits. */
  function Remainder(x: word, k: nat): word
    decreases k, x
  {
    if k == 0 then x else Remainder(Shifted(x), k - 1)
  }

  /** An entry of the table. */

  function Entry(i: word): word {
    Remainder(High(i), 8)
  }

  function High(i: word): word {
    i << 24
  }

  /** BZ_UPDATE_CRC. */
  function Update(crc: word, ch: byte): word {
    (crc << 8) ^ Entry((crc >> 24) ^ (ch as word))
  }

  /** The running CRC after s, from BZ_INITIALISE_CRC. */
  function Running(s: seq<byte>): word {
    if s == [] then 0xffff_ffff else Update(Running(s[..|s| - 1]), s[|s| - 1])
  }

  /** BZ_FINALISE_CRC. */
  function Finalise(crc: word): word {
    !crc
  }

  function BlockCrc(s: seq<byte>): word {
    Finalise(Running(s))
  }

  /** The stream CRC after one more block. */
  function Combine(combined: word, block: word): word {
    ((combined << 1) | (combined >> 31)) ^ block
  }

  lemma RunningSnoc(s: seq<byte>, x: byte)
    ensures Running(s + [x]) == Update(Running(s), x)
  {
    assert (s + [x])[..|s|] == s;
  }

  // ---------- the table and the division it stands for ----------

  /** One bit divided into the register: the polynomial is subtracted when that bit and the highest differ. */
  function Divide(crc: word, bit: bool): word {
    if Top(crc) != bit then Xor(Up(crc), POLYNOMIAL) else Up(crc)
  }

  /** The eight bits of a byte, most significant first. */
  function DivideByte(crc: word, c: word): word {
    var r := Divide(Divide(Divide(Divide(crc, c & 0x80 != 0), c & 0x40 != 0), c & 0x20 != 0), c & 0x10 != 0);
    Divide(Divide(Divide(Divide(r, c & 0x08 != 0), c & 0x04 != 0), c & 0x02 != 0), c & 0x01 != 0)
  }

  lemma UpXor(a: word, b: word)
    ensures Up(Xor(a, b)) == Xor(Up(a), Up(b))
  {}

  lemma TopXor(a: word, b: word)
    ensures Top(Xor(a, b)) <==> Top(a) != Top(b)
  {}

  lemma XorAssoc(a: word, b: word, c: word)
    ensures Xor(a, Xor(b, c)) == Xor(Xor(a, b), c)
  {
    Associates(a, b, c);
  }

  lemma Associates(a: word, b: word, c: word)
    ensures a ^ (b ^ c) == (a ^ b) ^ c
  {}

  lemma XorComm(a: word, b: word)
    ensures Xor(a, b) == Xor(b, a)
  {}

  lemma XorSelf(a: word)
    ensures Xor(a, a) == 0 && Xor(a, 0) == a
  {}

  lemma XorSwap(a: word, b: word, p: word)
    ensures Xor(Xor(a, p), b) == Xor(Xor(a, b), p)
  {
    hide Xor;
    XorAssoc(a, p, b);
    XorComm(p, b);
    XorAssoc(a, b, p);
  }

  lemma XorTwice(a: word, b: word, p: word)
    ensures Xor(Xor(a, p), Xor(b, p)) == Xor(a, b)
  {
    hide Xor;
    XorAssoc(Xor(a, p), b, p);
    XorSwap(a, b, p);
    XorAssoc(Xor(a, b), p, p);
    XorSelf(p);
    XorSelf(Xor(a, b));
  }

  lemma ShiftedXor(a: word, b: word)
    ensures Shifted(Xor(a, b)) == Xor(Shifted(a), Shifted(b))
  {
    hide Up, Top, Xor;
    UpXor(a, b);
    TopXor(a, b);
    XorTwice(Up(a), Up(b), POLYNOMIAL);
    XorSwap(Up(a), Up(b), POLYNOMIAL);
    XorAssoc(Up(a), Up(b), POLYNOMIAL);
  }

  lemma {:induction false} RemainderXor(a: word, b: word, k: nat)
    ensures Remainder(Xor(a, b), k) == Xor(Remainder(a, k), Remainder(b, k))
    decreases k
  {
    hide Shifted, Xor;
    if k > 0 {
      ShiftedXor(a, b);
      RemainderXor(Shifted(a), Shifted(b), k - 1);
    }
  }

  /** The highest bit of y is divided in, and the rest of y moves up. */
  lemma OneBit(r: word, y: word)
    ensures Shifted(Xor(r, y)) == Xor(Divide(r, Top(y)), Up(y))
  {
    hide Up, Top, Xor;
    UpXor(r, y);
    TopXor(r, y);
    XorSwap(Up(r), Up(y), POLYNOMIAL);
  }

  // ---------- the table ----------

  lemma {:induction false} StepMore(x: word, k: nat)
    ensures Remainder(x, k + 1) == Shifted(Remainder(x, k))
    decreases k
  {
    hide Shifted;
    if k > 0 { StepMore(Shifted(x), k - 1); }
  }

  /** The eight steps of an entry. */
  lemma Unrolled(x: word)
    ensures Remainder(x, 8) == Shifted(Shifted(Shifted(Shifted(Shifted(Shifted(Shifted(Shifted(x))))))))
  {
    hide Shifted;
    assert Remainder(x, 0) == x;
    StepMore(x, 0);
    StepMore(x, 1);
    StepMore(x, 2);
    StepMore(x, 3);
    StepMore(x, 4);
    StepMore(x, 5);
    StepMore(x, 6);
    StepMore(x, 7);
    hide Remainder;
  }

  lemma HighXor(a: word, b: word)
    ensures High(Xor(a, b)) == Xor(High(a), High(b))
  {}

  /** The table is linear, so that its entries at the powers of two determine it. */
  lemma EntryXor(a: word, b: word)
    ensures Entry(Xor(a, b)) == Xor(Entry(a), Entry(b))
  {
    hide Remainder, High, Xor;
    HighXor(a, b);
    RemainderXor(High(a), High(b), 8);
  }

  lemma EntryValues()
    ensures Entry(1) == 0x04c11db7 && Entry(2) == 0x09823b6e && Entry(4) == 0x130476dc && Entry(8) == 0x2608edb8
    ensures Entry(16) == 0x4c11db70 && Entry(32) == 0x9823b6e0 && Entry(64) == 0x34867077 && Entry(128) == 0x690ce0ee
  {
    hide Remainder;
    Unrolled(High(1));
    Unrolled(High(2));
    Unrolled(High(4));
    Unrolled(High(8));
    Unrolled(High(16));
    Unrolled(High(32));
    Unrolled(High(64));
    Unrolled(High(128));
  }

  // ---------- a byte at a time is bit by bit ----------

  /** The eight bits of c are at the top in turn, and then it is gone. */
  lemma BitsInTurn(c: word)
    ensures var y := High(c);
            && (Top(y) <==> c & 0x80 != 0) && (Top(Up(y)) <==> c & 0x40 != 0) && (Top(Up(Up(y))) <==> c & 0x20 != 0)
            && (Top(Up(Up(Up(y)))) <==> c & 0x10 != 0) && (Top(Up(Up(Up(Up(y))))) <==> c & 0x08 != 0)
            && (Top(Up(Up(Up(Up(Up(y)))))) <==> c & 0x04 != 0) && (Top(Up(Up(Up(Up(Up(Up(y))))))) <==> c & 0x02 != 0)
            && (Top(Up(Up(Up(Up(Up(Up(Up(y)))))))) <==> c & 0x01 != 0)
            && Up(Up(Up(Up(Up(Up(Up(Up(y)))))))) == 0
  {}

  lemma BytesDivided(crc: word, c: word)
    ensures Remainder(Xor(crc, High(c)), 8) == DivideByte(crc, c)
  {
    hide Remainder, Shifted, Xor, High, Top, Up, Divide;
    var y := High(c);
    BitsInTurn(c);
    Unrolled(Xor(crc, y));
    var r1 := Divide(crc, c & 0x80 != 0);
    OneBit(crc, y);
    var r2 := Divide(r1, c & 0x40 != 0);
    OneBit(r1, Up(y));
    var r3 := Divide(r2, c & 0x20 != 0);
    OneBit(r2, Up(Up(y)));
    var r4 := Divide(r3, c & 0x10 != 0);
    OneBit(r3, Up(Up(Up(y))));
    var r5 := Divide(r4, c & 0x08 != 0);
    OneBit(r4, Up(Up(Up(Up(y)))));
    var r6 := Divide(r5, c & 0x04 != 0);
    OneBit(r5, Up(Up(Up(Up(Up(y))))));
    var r7 := Divide(r6, c & 0x02 != 0);
    OneBit(r6, Up(Up(Up(Up(Up(Up(y)))))));
    var r8 := Divide(r7, c & 0x01 != 0);
    OneBit(r7, Up(Up(Up(Up(Up(Up(Up(y))))))));
    XorSelf(r8);
  }

  /** The lower three bytes only move up. */
  lemma LowTops(crc: word)
    ensures var z := crc & 0xff_ffff;
            && !Top(z) && !Top(Up(z)) && !Top(Up(Up(z))) && !Top(Up(Up(Up(z)))) && !Top(Up(Up(Up(Up(z)))))
            && !Top(Up(Up(Up(Up(Up(z)))))) && !Top(Up(Up(Up(Up(Up(Up(z))))))) && !Top(Up(Up(Up(Up(Up(Up(Up(z))))))))
            && Up(Up(Up(Up(Up(Up(Up(Up(z)))))))) == crc << 8
  {}

  lemma LowMoves(crc: word)
    ensures Remainder(crc & 0xff_ffff, 8) == crc << 8
  {
    hide Remainder, Top, Up;
    LowTops(crc);
    Unrolled(crc & 0xff_ffff);
  }

  lemma HalvesOf(crc: word)
    ensures Xor(crc & 0xff_ffff, High(crc >> 24)) == crc
  {}

  lemma Parted(crc: word, c: word)
    ensures Xor(crc, High(c)) == Xor(crc & 0xff_ffff, High(Xor(crc >> 24, c)))
  {
    hide Xor, High;
    HalvesOf(crc);
    HighXor(crc >> 24, c);
    XorAssoc(crc & 0xff_ffff, High(crc >> 24), High(c));
  }

  lemma UpdateIs(crc: word, ch: byte)
    ensures Update(crc, ch) == Xor(crc << 8, Entry(Xor(crc >> 24, ch as word)))
  {
    hide Entry;
  }

  /** Looking up the table is dividing in the bits of the byte one by one. */
  lemma UpdateDivides(crc: word, ch: byte)
    ensures Update(crc, ch) == DivideByte(crc, ch as word)
  {
    hide Update, DivideByte, Remainder, Xor, High;
    var c := ch as word;
    UpdateIs(crc, ch);
    BytesDivided(crc, c);
    Parted(crc, c);
    RemainderXor(crc & 0xff_ffff, High(Xor(crc >> 24, c)), 8);
    LowMoves(crc);
  }
}
