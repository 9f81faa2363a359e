/** How many bits a block can take, and why its bytes never pass the end of the memory they share with the block. */
module OutputBounds {
  import opened Bits
  import opened BitIO
  import opened MoveToFront
  import opened Rotations
  import opened InverseBwt
  import opened RunLength
  import opened Huffman
  import opened StreamFormat

  /** Words of arr2 beyond the block: BZ_N_OVERSHOOT. */
  const OVERSHOOT := 34
  /** Bits of a block that do not grow with its length, at most. */
  const FIXED_BITS := 160000

  lemma {:induction false} DigitsCount(z: nat)
    ensures |Digits(z)| <= z
  {
    if z > 0 { DigitsCount((z - 1) / 2); }
  }

  /** Never more symbols than bytes, runs included. */
  lemma {:induction false} EncCount(list: seq<byte>, col: seq<byte>)
    ensures |EncFold(list, col).out| + EncFold(list, col).zPend <= |col|
  {
    if col != [] {
      EncCount(list, col[..|col| - 1]);
      DigitsCount(EncFold(list, col[..|col| - 1]).zPend);
    }
  }

  lemma SymbolsCount(block: seq<byte>, ptr: seq<nat>)
    requires forall i :: 0 <= i < |ptr| ==> ptr[i] < |block|
    ensures |Symbols(block, ptr)| <= |ptr| + 1
  {
    var used, col := Used(InUse(block, 256)), LastColumn(block, ptr);
    EncCount(used, col);
    DigitsCount(EncFold(used, col).zPend);
  }

  lemma {:induction false} SymBitsCount(lens: seq<seq<nat>>, sels: seq<byte>, g: nat, pos: nat, syms: seq<nat>)
    requires SymbolsFit(lens, sels, syms) && g <= |sels| && (g == 0 ==> pos == 0)
    requires forall t :: 0 <= t < |lens| ==> LensIn(lens[t], 1, ENC_MAX_LEN)
    ensures |SymBits(lens, sels, g, pos, syms)| <= 17 * |syms|
    decreases |syms|, if pos == 0 then 1 else 0
  {
    if syms != [] {
      if pos == 0 {
        if g < |sels| { SymBitsCount(lens, sels, g + 1, G_SIZE, syms); }
      } else {
        SymBitsCount(lens, sels, g, pos - 1, syms[1..]);
      }
    }
  }

  lemma {:induction false} MovesCount(curr: nat, x: nat)
    ensures |Moves(curr, x)| == 2 * (if curr < x then x - curr else curr - x)
    decreases if curr < x then x - curr else curr - x
  {
    if curr < x { MovesCount(curr + 1, x); } else if curr > x { MovesCount(curr - 1, x); }
  }

  lemma {:induction false} DeltasCount(curr: nat, lens: seq<nat>)
    requires 1 <= curr <= ENC_MAX_LEN && LensIn(lens, 1, ENC_MAX_LEN)
    ensures |Deltas(curr, lens)| <= 33 * |lens|
    decreases |lens|
  {
    if lens != [] {
      MovesCount(curr, lens[0]);
      DeltasCount(lens[0], lens[1..]);
    }
  }

  lemma {:induction false} TablesCount(lens: seq<seq<nat>>, n: nat)
    requires 1 <= n <= 258 && forall t :: 0 <= t < |lens| ==> |lens[t]| == n && LensIn(lens[t], 1, ENC_MAX_LEN)
    ensures |TablesBits(lens)| <= 8519 * |lens|
  {
    if lens != [] {
      DeltasCount(lens[0][0], lens[0]);
      TablesCount(lens[1..], n);
    }
  }

  lemma {:induction false} UnaryCount(j: nat)
    ensures |Unary(j)| == j + 1
  {
    if j > 0 { UnaryCount(j - 1); }
  }

  lemma {:induction false} SelectorsCount(pos: seq<byte>, sels: seq<byte>)
    ensures |UnaryBits(SelMtf(pos, sels))| <= |pos| * |sels|
    decreases |sels|
  {
    if sels != [] {
      var j := IndexOf(pos, sels[0]);
      assert |pos| * |sels| == |pos| + |pos| * |sels[1..]|;
      assert |pos| * |sels[1..]| >= 0;
      if j < |pos| {
        UnaryCount(j);
        SelectorsCount(Front(pos, j), sels[1..]);
        var js := SelMtf(Front(pos, j), sels[1..]);
        assert ([j] + js)[1..] == js;
      }
    }
  }

  lemma {:induction false} GroupBitsCount(u: seq<bool>, i: nat)
    requires |u| == 256 && i <= 16
    ensures |GroupBits(u, i)| <= 16 * (16 - i)
    decreases 16 - i
  {
    if i < 16 { GroupBitsCount(u, i + 1); }
  }

  lemma SelectorBitsCount(nGroups: nat, sels: seq<byte>)
    requires nGroups <= N_GROUPS && |sels| <= MAX_SELECTORS
    ensures |SelectorBits(nGroups, sels)| <= 18 + 6 * MAX_SELECTORS
  {
    SelectorsCount(Identity(nGroups), sels);
    MulLe(nGroups, 6, |sels|);
  }

  lemma EntropyCount(u: seq<bool>, syms: seq<nat>, sels: seq<byte>, lens: seq<seq<nat>>, n: nat)
    requires |u| == 256 && |lens| <= N_GROUPS && SymbolsFit(lens, sels, syms) && |sels| <= MAX_SELECTORS
             && 1 <= n <= 258
    requires forall t :: 0 <= t < |lens| ==> GoodLens(lens[t], n)
    requires forall t :: 0 <= t < |lens| ==> lens[t] != []
    ensures |EntropyBits(u, syms, sels, lens)| <= 17 * |syms| + 159516
  {
    hide GroupFlags, GroupBits, SelectorBits, TablesBits, SymBits, SymbolsFit, LensIn, Kraft;
    SymBitsCount(lens, sels, 0, 0, syms);
    TablesCount(lens, n);
    SelectorBitsCount(|lens|, sels);
    GroupBitsCount(u, 0);
  }

  /** The bits of a block: seventeen a byte, and what does not grow. */
  lemma BlockBitsCount(c: BlockCode, level: nat)
    requires GoodBlock(c, level)
    ensures |BlockBits(c, level)| <= 17 * |c.block| + FIXED_BITS - 300
  {
    hide EntropyBits, Symbols, InUse, Used, BytesBits, ToBits, IsSorted, Complete, SymbolsFit, GoodLens, U32Bytes,
         CrcOf;
    SymbolsInAlphabet(c, level);
    PtrInBlock(c.block, c.ptr);
    SymbolsCount(c.block, c.ptr);
    UsedSize(InUse(c.block, 256));
    EntropyCount(InUse(c.block, 256), Symbols(c.block, c.ptr), c.sels, c.lens, |Used(InUse(c.block, 256))| + 2);
    HeadCount(c);
  }

  lemma PtrInBlock(b: seq<byte>, ptr: seq<nat>)
    requires IsSorted(b, ptr)
    ensures |ptr| == |b| && forall i :: 0 <= i < |ptr| ==> ptr[i] < |b|
  {
    hide Le;
  }

  lemma HeadCount(c: BlockCode)
    ensures |HeadBits(c)| == 105
  {}

  /**
   zbits begins right after the block in arr2: made of the bits left over, a stream header, any good block, the trailer
   and its padding, its bytes never reach the end of that memory.
  */
  lemma OutputFits(c: BlockCode, level: nat, zbits: seq<byte>, pending: Bits)
    requires GoodBlock(c, level) && |pending| <= 32
    requires 8 * |zbits| <= |pending| + 32 + |BlockBits(c, level)| + 80 + 7
    ensures |c.block| + |zbits| <= 4 * (100000 * level + OVERSHOOT)
  {
    BlockBitsCount(c, level);
    hide BlockBits;
  }
}
