/**
 BZ2_compressBlock: a block of bytes sorted, coded, and written as a stream block, with header and trailer where due.
*/
module BlockCompressor {
  import opened Bits
  import opened BitIO
  import opened Crc
  import opened Occurrences
  import opened Rotations
  import opened InverseBwt
  import opened MoveToFront
  import opened RunLength
  import opened Huffman
  import opened OutputBounds
  import opened StreamFormat
  import opened BlockSort
  import opened HeaderBits
  import opened MtfEncoder
  import opened TableChoice
  import opened BlockWriter

  // ---------- the bytes before and after the symbols ----------

  /** bsPutUChar. */
  method PutUChar(w: BitWriter, c: byte)
    requires w.Valid()
    modifies w
    ensures w.Valid() && w.Written() == old(w.Written()) + BytesBits([c])
  {
    Pow2Values();
    OneByteBits(c);
    w.W(8, c);
  }

  lemma OneByteBits(c: byte)
    ensures BytesBits([c]) == ToBits(c, 8)
  {
    assert [c][1..] == [];
  }

  method PutBytes(w: BitWriter, s: seq<byte>)
    requires w.Valid()
    modifies w
    ensures w.Valid() && w.Written() == old(w.Written()) + BytesBits(s)
  {
    hide BitWriter.Written, BitWriter.Valid, BytesBits;
    ghost var base := w.Written();
    NoBytes(base);
    for i := 0 to |s|
      invariant w.Valid() && w.Written() == base + BytesBits(s[..i])
    {
      BytesSnoc(base, s[..i], s[i]);
      assert s[..i + 1] == s[..i] + [s[i]];
      PutUChar(w, s[i]);
    }
    assert s[..|s|] == s;
  }

  lemma NoBytes(base: Bits)
    ensures base + BytesBits([]) == base
  {}

  lemma BytesSnoc(base: Bits, s: seq<byte>, c: byte)
    ensures base + BytesBits(s + [c]) == base + BytesBits(s) + BytesBits([c])
  {
    BytesBitsAppend(s, [c]);
    Assoc3(base, BytesBits(s), BytesBits([c]));
  }

  /** bsPutUInt32. */
  method PutUInt32(w: BitWriter, u: nat)
    requires w.Valid() && u < 0x1_0000_0000
    modifies w
    ensures w.Valid() && w.Written() == old(w.Written()) + BytesBits(U32Bytes(u))
  {
    hide BitWriter.Written, BitWriter.Valid, BytesBits;
    PutBytes(w, U32Bytes(u));
  }

  /** numZ = 0. */
  method DropBytes(w: BitWriter)
    requires w.Valid()
    modifies w
    ensures w.Valid() && w.zbits == [] && w.pending == old(w.pending) && w.Written() == w.pending
  {
    w.zbits := [];
  }

  lemma U32Size(u: nat)
    ensures |BytesBits(U32Bytes(u))| == 32
  {}

  lemma PendingShort(w: BitWriter)
    requires w.Valid()
    ensures |w.pending| <= 32
  {}

  lemma WrittenIs(w: BitWriter)
    requires w.zbits == []
    ensures w.Written() == w.pending
  {}

  /** The stream header. */
  method StartStream(w: BitWriter, level: nat)
    requires w.Valid() && w.zbits == [] && 1 <= level <= 9
    modifies w
    ensures w.Valid() && w.Written() == BytesBits(HeaderBytes(level))
  {
    hide BytesBits;
    w.InitWrite();
    PutBytes(w, [0x42, 0x5a, 0x68, 0x30 + level]);
    assert HeaderBytes(level) == [0x42, 0x5a, 0x68, 0x30 + level];
    assert [] + BytesBits(HeaderBytes(level)) == BytesBits(HeaderBytes(level));
  }

  /** The stream trailer, padded to a whole byte. */
  method EndStream(w: BitWriter, combined: word)
    requires w.Valid()
    modifies w
    ensures w.Valid() && w.pending == []
    ensures BytesBits(w.zbits)
            == PadToByte(old(w.Written()) + (BytesBits(END_MAGIC) + BytesBits(U32Bytes(combined as nat))))
  {
    hide BytesBits, U32Bytes, PadToByte, BitWriter.Written, BitWriter.Valid;
    ghost var base := w.Written();
    PutBytes(w, END_MAGIC);
    PutUInt32(w, combined as nat);
    Assoc3(base, BytesBits(END_MAGIC), BytesBits(U32Bytes(combined as nat)));
    w.FinishWrite();
  }

  lemma RunningIs(b: seq<byte>)
    ensures BlockCrc(UnRle(b)) == Finalise(Running(UnRle(b)))
  {}

  // ---------- what is written for a block ----------

  /** Choices that are good for the receiver make a good block. */
  lemma BlockIsGood(block: seq<byte>, ptr: seq<nat>, origPtr: nat, sels: seq<byte>, lens: seq<seq<nat>>, level: nat)
    requires 0 < |block| <= 100000 * level && 1 <= level <= 9 && Complete(block)
    requires IsSorted(block, ptr) && origPtr < |block| && |ptr| == |block| && ptr[origPtr] == 0
    requires GoodChoices(lens, sels, Symbols(block, ptr), |Used(InUse(block, 256))| + 2)
    ensures GoodBlock(BlockCode(block, ptr, origPtr, sels, lens), level)
  {
    hide Le, Used, InUse, Symbols, GoodLens, RleFold;
  }

  /** Each of the block's tables is fitted to the symbols that are sent with it. */
  ghost predicate WellFitted(c: BlockCode) {
    && (forall i :: 0 <= i < |c.ptr| ==> c.ptr[i] < |c.block|)
    && FittedChoices(c.lens, c.sels, Symbols(c.block, c.ptr), |Used(InUse(c.block, 256))| + 2)
  }

  lemma BlockIsFitted(block: seq<byte>, ptr: seq<nat>, origPtr: nat, sels: seq<byte>, lens: seq<seq<nat>>)
    requires forall i :: 0 <= i < |ptr| ==> ptr[i] < |block|
    requires FittedChoices(lens, sels, Symbols(block, ptr), |Used(InUse(block, 256))| + 2)
    ensures WellFitted(BlockCode(block, ptr, origPtr, sels, lens))
  {
    hide FittedChoices, Symbols, Used, InUse;
  }

  lemma SymbolFacts(block: seq<byte>, ptr: seq<nat>)
    requires block != [] && |block| <= LARGEST_BLOCK && forall i :: 0 <= i < |ptr| ==> ptr[i] < |block|
    requires |ptr| == |block|
    ensures var syms, n := Symbols(block, ptr), |Used(InUse(block, 256))| + 2;
            && InAlphabet(syms, n) && syms != [] && syms[|syms| - 1] == n - 1 && 3 <= n <= 258
            && Symbols(block, ptr) == MtfCode(Used(InUse(block, 256)), LastColumn(block, ptr))
  {
    hide Used, InUse, LastColumn, EncFold, Digits;
    var used, col := Used(InUse(block, 256)), LastColumn(block, ptr);
    SomeUsed(block, InUse(block, 256));
    EncBounds(used, col);
    DigitsBound(EncFold(used, col).zPend);
  }

  /** Everything of EState that serves one block after another: its storage, its bytes so far, and the bit writer. */
  class BlockState {
    const level: nat
    /** Which half of a word comes first in memory. */
    const order: nat
    const sort: SortArrays
    const tables: CodingTables
    const w: BitWriter
    const unseqToSeq: array<nat>
    const mtfFreq: array<nat>
    const inUse: array<bool>
    var nblock: nat
    ghost const repr: set<object>

    function Limit(): nat { 100000 * level }

    ghost predicate Apart() {
      && 1 <= level <= 9 && order <= 1 && sort.Apart(Limit()) && tables.Apart() && tables.Listed()
      && unseqToSeq.Length == 256 && mtfFreq.Length == 258 && inUse.Length == 256
      && sort.repr !! tables.repr && sort.repr !! {w, inUse, unseqToSeq, mtfFreq, this}
      && tables.repr !! {w, inUse, unseqToSeq, mtfFreq, this}
      && unseqToSeq != mtfFreq && (inUse as object) != (unseqToSeq as object)
      && (inUse as object) != (mtfFreq as object)
      && (w as object) != (inUse as object) && (w as object) != (unseqToSeq as object)
      && (w as object) != (mtfFreq as object) && (w as object) != (this as object)
      && (inUse as object) != this && (unseqToSeq as object) != this && (mtfFreq as object) != this
      && repr == sort.repr + tables.repr + {w, inUse, unseqToSeq, mtfFreq, this}
    }

    ghost function Block(): seq<byte>
      requires nblock <= sort.arr2.Length
      reads this, sort.arr2
    {
      sort.arr2[..nblock]
    }

    ghost predicate Valid()
      reads this, repr
    {
      && Apart() && sort.bhtab in repr && w in repr && inUse in repr && sort.arr2 in repr
      && Words(sort.bhtab[..]) && w.Valid() && nblock <= Limit() && inUse[..] == InUse(Block(), 256)
    }

    constructor (level: nat, order: nat)
      requires 1 <= level <= 9 && order <= 1
      ensures Valid() && nblock == 0 && this.level == level && w.Written() == [] && w.zbits == []
      ensures fresh(repr)
    {
      hide CodingTables.Apart, CodingTables.Listed, Words, InUse, BitWriter.Valid, BytesBits;
      var s := new SortArrays(100000 * level);
      var t := new CodingTables();
      var b := new BitWriter();
      var u, f, m := new nat[256], new nat[258], new bool[256](_ => false);
      this.level, this.order, sort, tables, w, unseqToSeq, mtfFreq, inUse, nblock := level, order, s, t, b, u, f, m, 0;
      repr := s.repr + t.repr + {b, u, f, m, this};
      new;
      InUseNone(256);
      assert sort.arr2[..0] == [];
    }

    /** block[nblock] = ch; nblock++. */
    method Put(ch: byte)
      requires Apart() && nblock < Limit()
      modifies this`nblock, sort.arr2
      ensures nblock == old(nblock) + 1 && Block() == old(Block()) + [ch]
    {
      sort.arr2[nblock] := ch;
      nblock := nblock + 1;
      assert sort.arr2[..nblock] == old(sort.arr2[..nblock]) + [ch];
    }

    /** k times block[nblock] = ch; nblock++. */
    method PutTimes(ch: byte, k: nat)
      requires Apart() && nblock + k <= Limit()
      modifies this`nblock, sort.arr2
      ensures nblock == old(nblock) + k && Block() == old(Block()) + Repeat(ch, k)
    {
      hide Apart;
      SortSizes();
      for i := 0 to k
        invariant nblock == old(nblock) + i && Block() == old(Block()) + Repeat(ch, i)
      {
        assert old(Block()) + Repeat(ch, i) + [ch] == old(Block()) + Repeat(ch, i + 1);
        Put(ch);
      }
    }

    /** add_pair_to_block, the part that writes the block: a run of len bytes ch. */
    method AddPair(ch: byte, len: nat)
      requires Valid() && 1 <= len <= 255 && nblock + 5 <= Limit()
      modifies this`nblock, sort.arr2, inUse
      ensures Valid() && Block() == old(Block()) + Pair(ch, len)
      ensures nblock == old(nblock) + |Pair(ch, len)| <= old(nblock) + 5
    {
      hide InUse, Apart, Words, Repeat;
      SortSizes();
      ghost var b := Block();
      PairIs(ch, len);
      inUse[ch] := true;
      if len <= 3 {
        PutTimes(ch, len);
      } else {
        inUse[len - 4] := true;
        PutTimes(ch, 4);
        Put(len - 4);
        assert b + Repeat(ch, 4) + [len - 4] == b + (Repeat(ch, 4) + [len - 4]);
      }
      InUsePair(b, ch, len);
    }

    /** Sorts, codes and writes the block, behind its magic, CRC, randomised bit and origin pointer. */
    method EncodeBlock(workFactor: int, crc: word) returns (ghost c: BlockCode)
      requires Valid() && 0 < nblock && Complete(Block()) && crc == BlockCrc(UnRle(Block()))
      modifies repr
      ensures Valid() && nblock == old(nblock) && Block() == old(Block()) && inUse[..] == old(inUse[..])
      ensures GoodBlock(c, level) && WellFitted(c) && c.block == Block()
      ensures w.Written() == old(w.Written()) + BlockBits(c, level)
    {
      hide *;
      EncodeReady();
      ObjectsApart();
      BlockApart();
      BlockIs();
      assert MAX_ALPHA_SIZE == 258 by { AlphaSize(); }
      ghost var base, b := w.Written(), Block();
      var origPtr := sort.BlockSort(nblock, workFactor);
      ghost var ptr := sort.arr1[..nblock];
      var block := sort.arr2[..nblock];
      var used := inUse[..];
      PtrBounds(block, ptr);
      WriteHead(crc, origPtr);
      ghost var mid := w.Written();
      var nInUse, nMTF := GenerateMtfValues(sort.arr1, order, block, used, unseqToSeq, mtfFreq, ptr);
      SymbolFacts(block, ptr);
      var mtfv := Halves(sort.arr1[..], order)[..nMTF];
      CountsAt(mtfFreq[..], mtfv, nInUse + 2);
      ghost var lens, sels;
      lens, sels := SendMtfValues(w, tables, mtfv, mtfFreq, used, nInUse + 2);
      c := BlockCode(block, ptr, origPtr, sels, lens);
      BlockIsGood(block, ptr, origPtr, sels, lens, level);
      BlockIsFitted(block, ptr, origPtr, sels, lens);
      CrcIs(c);
      BlockBitsAre(c, level, base, crc, used);
      ValidFrom();
    }

    /** What users of the storage may rely on. */
    lemma Ready()
      requires Valid()
      ensures Apart() && this in repr && w in repr && inUse in repr && sort.arr2 in repr && nblock <= sort.arr2.Length
      ensures (sort.arr2 as object) != w && (inUse as object) != w && (w as object) != this
              && (sort.arr2 as object) != this
      ensures 1 <= level <= 9
    {
      hide InUse, Words;
      EncodeReady();
      ObjectsApart();
      BlockApart();
    }

    lemma BlockIs()
      requires nblock <= sort.arr2.Length
      ensures Block() == sort.arr2[..nblock]
    {}

    lemma ValidFrom()
      requires Apart() && Words(sort.bhtab[..]) && w.Valid() && nblock <= Limit() && nblock <= sort.arr2.Length
      requires inUse[..] == InUse(sort.arr2[..nblock], 256)
      ensures Valid() && Block() == sort.arr2[..nblock]
    {
      hide InUse, Words;
      ObjectsApart();
    }

    /** The block part of prepare_new_block. */
    method NewBlock()
      requires Valid()
      modifies repr
      ensures Valid() && nblock == 0 && Block() == [] && w.zbits == [] && w.pending == old(w.pending)
    {
      hide *;
      EncodeReady();
      ObjectsApart();
      BlockApart();
      nblock := 0;
      DropBytes(w);
      for i := 0 to 256
        invariant w.Valid() && w.zbits == [] && w.pending == old(w.pending) && nblock == 0
        invariant sort.bhtab[..] == old(sort.bhtab[..])
        invariant forall k :: 0 <= k < i ==> !inUse[k]
      {
        inUse[i] := false;
      }
      InUseNone(256);
      assert sort.arr2[..nblock] == [];
      ValidFrom();
    }

    /** The bits a block adds: the header before the first, the block itself if it has bytes. */
    ghost function Added(c: BlockCode, first: bool): Bits
      requires 1 <= level <= 9
    {
      (if first then BytesBits(HeaderBytes(level)) else [])
      + (if c.block != [] && GoodBlock(c, level) then BlockBits(c, level) else [])
    }

    /** BZ2_compressBlock. */
    method CompressBlock(first: bool, last: bool, workFactor: int, running: word, combined: word)
      returns (ghost c: BlockCode, combined': word)
      requires Valid() && Complete(Block()) && running == Running(UnRle(Block())) && w.zbits == []
               && (first ==> w.pending == [])
      modifies repr
      ensures Valid() && c.block == Block() == old(Block()) && (Block() != [] ==> GoodBlock(c, level) && WellFitted(c))
      ensures combined' == if Block() == [] then combined else Combine(combined, CrcOf(c))
      ensures !last ==> w.Written() == old(w.pending) + Added(c, first)
      ensures last ==> w.pending == []
                       && BytesBits(w.zbits) == PadToByte(old(w.pending) + Added(c, first)
                                                          + (BytesBits(END_MAGIC)
                                                             + BytesBits(U32Bytes(combined' as nat))))
      ensures nblock + |w.zbits| <= 4 * (100000 * level + OVERSHOOT)
    {
      hide *;
      EncodeReady();
      ObjectsApart();
      BlockApart();
      BlockIs();
      ghost var base := w.pending;
      PendingShort(w);
      WrittenIs(w);
      RunningIs(Block());
      combined' := combined;
      if nblock > 0 {
        combined' := Combine(combined, Finalise(running));
      }
      c := BlockCode(Block(), [], 0, [], []);
      if first { StartStream(w, level); }
      ghost var mid := w.Written();
      ValidFrom();
      if nblock > 0 {
        c := EncodeBlock(workFactor, Finalise(running));
      }
      AddedIs(c, first, base);
      CrcIs(c);
      RunningIs(c.block);
      if last {
        EncodeReady();
        BlockIs();
        EndStream(w, combined');
        ValidFrom();
      }
      OutputEnds(c, first, last, base, combined');
    }

    /** The bytes made fit behind the block in arr2. */
    lemma OutputEnds(c: BlockCode, first: bool, last: bool, base: Bits, combined: word)
      requires 1 <= level <= 9 && |base| <= 32 && nblock <= 100000 * level && |c.block| == nblock
      requires c.block != [] ==> GoodBlock(c, level)
      requires !last ==> w.Written() == base + Added(c, first)
      requires last ==> BytesBits(w.zbits)
                        == PadToByte(base + Added(c, first)
                                     + (BytesBits(END_MAGIC) + BytesBits(U32Bytes(combined as nat))))
      ensures nblock + |w.zbits| <= 4 * (100000 * level + OVERSHOOT)
    {
      hide BytesBits, BlockBits, GoodBlock, U32Bytes;
      assert |BytesBits(HeaderBytes(level))| == 32;
      assert |BytesBits(END_MAGIC)| == 48;
      U32Size(combined as nat);
      if c.block != [] { OutputFits(c, level, w.zbits, base); }
    }

    lemma AddedIs(c: BlockCode, first: bool, base: Bits)
      requires 1 <= level <= 9 && (first ==> base == []) && (c.block != [] ==> GoodBlock(c, level))
      ensures var m := if first then BytesBits(HeaderBytes(level)) else base;
              base + Added(c, first) == if c.block == [] then m else m + BlockBits(c, level)
    {
      hide BytesBits, BlockBits, GoodBlock;
      var h, k := BytesBits(HeaderBytes(level)), if c.block != [] then BlockBits(c, level) else [];
      assert base + ((if first then h else []) + k) == (if first then h else base) + k;
    }

    /** Block magic, block CRC, the randomised bit, always clear, and the origin pointer. */
    method WriteHead(crc: word, origPtr: nat)
      requires w.Valid() && origPtr < 0x100_0000
      modifies w
      ensures w.Valid()
      ensures w.Written()
              == old(w.Written())
              + (BytesBits(BLOCK_MAGIC) + (BytesBits(U32Bytes(crc as nat)) + ([false] + ToBits(origPtr, 24))))
    {
      assert Pow2(24) == 0x100_0000 by { Pow2Values(); }
      hide *;
      ghost var base := w.Written();
      PutBytes(w, BLOCK_MAGIC);
      PutUInt32(w, crc as nat);
      SendBit(w, false);
      w.W(24, origPtr);
      Assoc5(base, BytesBits(BLOCK_MAGIC), BytesBits(U32Bytes(crc as nat)), [false], ToBits(origPtr, 24));
    }

    /** What the steps of EncodeBlock need to know of the storage. */
    lemma EncodeReady()
      requires Valid()
      ensures Apart() && sort.Valid(nblock) && Words(sort.bhtab[..]) && w.Valid() && tables.Apart() && order <= 1
              && 1 <= level <= 9
      ensures nblock <= Limit() == 100000 * level <= LARGEST_BLOCK && LARGEST_BLOCK == 900000 && MOST_SYMBOLS == 900001
      ensures nblock <= sort.arr1.Length && nblock <= sort.arr2.Length
      ensures unseqToSeq.Length == 256 && mtfFreq.Length == 258 && inUse.Length == 256
              && inUse[..] == InUse(Block(), 256)
    {
      hide InUse, Words;
    }

    lemma ObjectsApart()
      requires Apart()
      ensures sort.arr1 != unseqToSeq && sort.arr1 != mtfFreq && unseqToSeq != mtfFreq
      ensures mtfFreq !in tables.len && mtfFreq !in tables.rfreq && mtfFreq != tables.cost
      ensures sort.arr1 in repr && sort.arr2 in repr && sort.quadrant in repr && sort.ftab in repr && sort.bhtab in repr
      ensures this in repr && inUse in repr && w in repr && unseqToSeq in repr && mtfFreq in repr
              && tables.lenPack in repr && tables.cost in repr
      ensures tables.selector in repr && tables.selectorMtf in repr
      ensures (forall r :: r in tables.len ==> r in repr) && (forall r :: r in tables.code ==> r in repr)
              && (forall r :: r in tables.rfreq ==> r in repr)
    {
      assert forall r :: r in tables.len ==> r in tables.repr;
    }

    /** The block, the bytes in use and the sort's words are apart from what the coder writes. */
    lemma BlockApart()
      requires Apart()
      ensures forall o: object :: o in {sort.arr2, sort.bhtab} ==>
                o !in tables.repr && o != w && o != unseqToSeq && o != mtfFreq && o != sort.arr1 && o != this
                && o != inUse
      ensures (inUse as object) !in tables.repr && (inUse as object) !in sort.repr && (inUse as object) != w
              && (inUse as object) != unseqToSeq && (inUse as object) != mtfFreq && (inUse as object) != this
      ensures (w as object) !in tables.repr && (w as object) !in sort.repr && (w as object) != unseqToSeq
              && (w as object) != mtfFreq && (w as object) != this
      ensures (this as object) !in tables.repr && (this as object) !in sort.repr && (this as object) != unseqToSeq
              && (this as object) != mtfFreq
      ensures sort.repr == {sort.arr1, sort.arr2, sort.quadrant, sort.ftab, sort.bhtab}
      ensures (sort.arr1 as object) !in tables.repr && (sort.arr1 as object) != w
      ensures (mtfFreq as object) != w && (mtfFreq as object) !in sort.repr && (mtfFreq as object) !in tables.repr
      ensures forall r :: r in tables.len || r in tables.code || r in tables.rfreq ==> r in tables.repr
      ensures tables.lenPack in tables.repr && tables.cost in tables.repr && tables.selector in tables.repr
              && tables.selectorMtf in tables.repr
    {}

    lemma SortSizes()
      requires Apart()
      ensures sort.arr2 in repr && sort.bhtab in repr && w in repr && inUse in repr && inUse.Length == 256
      ensures (sort.arr2 as object) != (inUse as object) && (sort.arr2 as object) != (sort.bhtab as object)
              && (sort.arr2 as object) != (w as object)
      ensures (sort.bhtab as object) != (inUse as object) && (sort.arr2 as object) != (this as object)
              && Limit() <= sort.arr2.Length
    {}
  }

  lemma PairIs(ch: byte, len: nat)
    requires 1 <= len <= 255
    ensures Pair(ch, len) == if len == 1 then [ch] else if len == 2 then [ch, ch] else if len == 3 then [ch, ch, ch]
                             else [ch, ch, ch, ch, len - 4]
    ensures Pair(ch, len) == if len <= 3 then Repeat(ch, len) else Repeat(ch, 4) + [len - 4]
  {
    assert Repeat(ch, 1) == [ch];
    assert Repeat(ch, 2) == [ch, ch];
    assert Repeat(ch, 3) == [ch, ch, ch];
    assert Repeat(ch, 4) == [ch, ch, ch, ch];
  }

  lemma InUsePair(b: seq<byte>, ch: byte, len: nat)
    requires 1 <= len <= 255
    ensures InUse(b + Pair(ch, len), 256) == if len <= 3 then InUse(b, 256)[ch := true]
            else InUse(b, 256)[ch := true][len - 4 := true]
  {
    forall x: nat | x < 256
      ensures x in b + Pair(ch, len) <==> x in b || x == ch || (len > 3 && x == len - 4)
    {
      PairIs(ch, len);
    }
    forall x: nat | x < 256
      ensures InUse(b + Pair(ch, len), 256)[x] <==> InUse(b, 256)[x] || x == ch || (len > 3 && x == len - 4)
    {
      InUseAt(b + Pair(ch, len), 256, x);
      InUseAt(b, 256, x);
    }
  }

  lemma {:induction false} InUseNone(n: nat)
    ensures forall i :: 0 <= i < n ==> !InUse([], n)[i]
  {
    if n > 0 { InUseNone(n - 1); }
  }

  lemma AlphaSize()
    ensures MAX_ALPHA_SIZE == 258
  {}

  lemma CrcIs(c: BlockCode)
    ensures CrcOf(c) == BlockCrc(UnRle(c.block))
  {}

  lemma PtrBounds(b: seq<byte>, ptr: seq<nat>)
    requires IsSorted(b, ptr)
    ensures |ptr| == |b| && forall i :: 0 <= i < |ptr| ==> ptr[i] < |b|
  {
    hide Le;
  }

  lemma CountsAt(freq: seq<nat>, syms: seq<nat>, n: nat)
    requires Counts(freq, syms, n)
    ensures n <= |freq| && forall v :: 0 <= v < n ==> freq[v] == Count(syms, v)
  {
    hide Count;
  }

  /** The pieces written are the bits of the block. */
  lemma BlockBitsAre(c: BlockCode, level: nat, base: Bits, crc: word, used: seq<bool>)
    requires GoodBlock(c, level) && crc == CrcOf(c) && used == InUse(c.block, 256)
    ensures |c.lens| <= N_GROUPS && SymbolsFit(c.lens, c.sels, Symbols(c.block, c.ptr))
            && forall t :: 0 <= t < |c.lens| ==> c.lens[t] != []
    ensures base + (BytesBits(BLOCK_MAGIC) + (BytesBits(U32Bytes(crc as nat)) + ([false] + ToBits(c.origPtr, 24))))
                 + EntropyBits(used, Symbols(c.block, c.ptr), c.sels, c.lens)
         == base + BlockBits(c, level)
  {
    hide Symbols, SymbolsFit, EntropyBits, BytesBits, ToBits, CrcOf, InUse;
    SymbolsInAlphabet(c, level);
    Assoc3(base, HeadBits(c), EntropyBits(used, Symbols(c.block, c.ptr), c.sels, c.lens));
  }
}
