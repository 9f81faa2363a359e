/** The bits of a compressed stream: what the encoder sends for a block, given its choices of order and tables. */
module StreamFormat {
  import opened Bits
  import opened BitIO
  import opened Rotations
  import opened InverseBwt
  import opened RunLength
  import opened Crc
  import opened MoveToFront
  import opened Huffman

  const G_SIZE := 50
  const N_GROUPS := 6
  const MAX_SELECTORS := 18002
  /** The longest code the encoder makes. */
  const ENC_MAX_LEN := 17

  /** A block after run-length coding, and the encoder's choices for it. */
  datatype BlockCode = BlockCode(block: seq<byte>, ptr: seq<nat>, origPtr: nat, sels: seq<byte>, lens: seq<seq<nat>>)

  // ---------- the bytes in use ----------

  /** Which bytes occur in the block. */
  function InUse(b: seq<byte>, n: nat): (u: seq<bool>)
    ensures |u| == n
  {
    if n == 0 then [] else InUse(b, n - 1) + [n <= 256 && (n - 1) in b]
  }

  /** The bytes marked in u, in order: the initial move-to-front list. */
  function Used(u: seq<bool>): seq<byte> {
    if u == [] then []
    else Used(u[..|u| - 1]) + if u[|u| - 1] && |u| <= 256 then [|u| - 1] else []
  }

  /** The sixteen flags of group i. */
  function Group(u: seq<bool>, i: nat): seq<bool>
    requires |u| == 256 && i < 16
  {
    u[16 * i..16 * i + 16]
  }

  /** Flags of the first k groups. */
  function GroupFlags(u: seq<bool>, k: nat): (f: Bits)
    requires |u| == 256 && k <= 16
    ensures |f| == k
  {
    if k == 0 then [] else GroupFlags(u, k - 1) + [true in Group(u, k - 1)]
  }

  /** The flags of the used groups from group i on. */
  function GroupBits(u: seq<bool>, i: nat): Bits
    requires |u| == 256 && i <= 16
    decreases 16 - i
  {
    if i == 16 then [] else (if true in Group(u, i) then Group(u, i) else []) + GroupBits(u, i + 1)
  }

  lemma {:induction false} InUseAt(b: seq<byte>, n: nat, x: nat)
    requires x < n <= 256
    ensures InUse(b, n)[x] <==> x in b
  {
    if x < n - 1 { InUseAt(b, n - 1, x); }
  }

  lemma {:induction false} UsedHas(u: seq<bool>, x: byte)
    requires |u| <= 256 && x < |u| && u[x]
    ensures x in Used(u)
  {
    if x < |u| - 1 { UsedHas(u[..|u| - 1], x); }
  }

  /** The list holds only bytes marked, in increasing order. */
  lemma {:induction false} UsedOrdered(u: seq<bool>)
    ensures forall k :: 0 <= k < |Used(u)| ==> Used(u)[k] < |u| && u[Used(u)[k]]
    ensures forall i, j :: 0 <= i < j < |Used(u)| ==> Used(u)[i] < Used(u)[j]
  {
    if u != [] { UsedOrdered(u[..|u| - 1]); }
  }

  lemma {:induction false} UsedSize(u: seq<bool>)
    ensures |Used(u)| <= |u|
  {
    if u != [] { UsedSize(u[..|u| - 1]); }
  }

  lemma BlockBytesUsed(b: seq<byte>, x: byte)
    requires x in b
    ensures x in Used(InUse(b, 256))
  {
    InUseAt(b, 256, x);
    UsedHas(InUse(b, 256), x);
  }

  lemma ColumnBytesUsed(b: seq<byte>, ptr: seq<nat>)
    requires forall i :: 0 <= i < |ptr| ==> ptr[i] < |b|
    ensures forall k :: 0 <= k < |LastColumn(b, ptr)| ==> LastColumn(b, ptr)[k] in Used(InUse(b, 256))
  {
    var col := LastColumn(b, ptr);
    forall k | 0 <= k < |col|
      ensures col[k] in Used(InUse(b, 256))
    {
      BlockBytesUsed(b, b[Prev(|b|, ptr[k])]);
    }
  }

  // ---------- selectors ----------

  /** Move-to-front positions of the selectors. */
  function SelMtf(pos: seq<byte>, sels: seq<byte>): seq<nat>
    decreases |sels|
  {
    if sels == [] then []
    else
      var j := IndexOf(pos, sels[0]);
      if j == |pos| then [] else [j] + SelMtf(Front(pos, j), sels[1..])
  }

  function Unary(j: nat): Bits {
    if j == 0 then [false] else [true] + Unary(j - 1)
  }

  function UnaryBits(js: seq<nat>): Bits {
    if js == [] then [] else Unary(js[0]) + UnaryBits(js[1..])
  }

  /** 0, 1, ..., n - 1. */
  function Identity(n: nat): (p: seq<byte>)
    requires n <= 256
    ensures |p| == n
  {
    if n == 0 then [] else Identity(n - 1) + [n - 1]
  }

  // ---------- code tables ----------

  /** Moves of the current length to x: 10 is up, 11 is down. */
  function Moves(curr: nat, x: nat): Bits
    decreases if curr < x then x - curr else curr - x
  {
    if curr < x then [true, false] + Moves(curr + 1, x)
    else if curr > x then [true, true] + Moves(curr - 1, x)
    else []
  }

  function Deltas(curr: nat, lens: seq<nat>): Bits
    decreases |lens|
  {
    if lens == [] then [] else Moves(curr, lens[0]) + ([false] + Deltas(lens[0], lens[1..]))
  }

  function TableBits(lens: seq<nat>): Bits
    requires lens != []
  {
    ToBits(lens[0], 5) + Deltas(lens[0], lens)
  }

  function TablesBits(lens: seq<seq<nat>>): Bits
    requires forall t :: 0 <= t < |lens| ==> lens[t] != []
  {
    if lens == [] then [] else TableBits(lens[0]) + TablesBits(lens[1..])
  }

  // ---------- symbols ----------

  function CodeBits(lens: seq<nat>, sym: nat): Bits
    requires sym < |lens|
  {
    ToBits(Code(lens, MinLen(lens), sym), lens[sym])
  }

  ghost predicate SymbolsFit(lens: seq<seq<nat>>, sels: seq<byte>, syms: seq<nat>) {
    && (forall k :: 0 <= k < |sels| ==> sels[k] < |lens|)
    && (forall t, k :: 0 <= t < |lens| && 0 <= k < |syms| ==> syms[k] < |lens[t]|)
  }

  /**
   The symbols, coded with the tables their groups of fifty select; g groups are open, pos symbols are left in the
   last.
  */
  ghost function SymBits(lens: seq<seq<nat>>, sels: seq<byte>, g: nat, pos: nat, syms: seq<nat>): Bits
    requires SymbolsFit(lens, sels, syms) && g <= |sels| && (g == 0 ==> pos == 0)
    decreases |syms|, if pos == 0 then 1 else 0
  {
    if syms == [] then []
    else if pos == 0 then (if g == |sels| then [] else SymBits(lens, sels, g + 1, G_SIZE, syms))
    else CodeBits(lens[sels[g - 1]], syms[0]) + SymBits(lens, sels, g, pos - 1, syms[1..])
  }

  // ---------- blocks and streams ----------

  const STREAM_MAGIC: seq<byte> := [0x42, 0x5a, 0x68]
  const BLOCK_MAGIC: seq<byte> := [0x31, 0x41, 0x59, 0x26, 0x53, 0x59]
  const END_MAGIC: seq<byte> := [0x17, 0x72, 0x45, 0x38, 0x50, 0x90]

  function Symbols(block: seq<byte>, ptr: seq<nat>): seq<nat>
    requires forall i :: 0 <= i < |ptr| ==> ptr[i] < |block|
  {
    MtfCode(Used(InUse(block, 256)), LastColumn(block, ptr))
  }

  /** A length table the encoder may send: alphabet size, lengths 1 to 17, and no more codes than fit. */
  ghost predicate GoodLens(lens: seq<nat>, alphaSize: nat) {
    |lens| == alphaSize && LensIn(lens, 1, ENC_MAX_LEN) && Kraft(lens, LONGEST) <= Pow2(LONGEST)
  }

  /** What compressBlock guarantees of its choices. */
  ghost predicate GoodBlock(c: BlockCode, level: nat) {
    && 0 < |c.block| <= 100000 * level && 1 <= level <= 9
    && Complete(c.block)
    && IsSorted(c.block, c.ptr) && c.origPtr < |c.block| && c.ptr[c.origPtr] == 0
    && 2 <= |c.lens| <= N_GROUPS
    && (forall t :: 0 <= t < |c.lens| ==> GoodLens(c.lens[t], |Used(InUse(c.block, 256))| + 2))
    && (forall k :: 0 <= k < |c.sels| ==> c.sels[k] < |c.lens|)
    && 1 <= |c.sels| <= MAX_SELECTORS
    && |Symbols(c.block, c.ptr)| <= G_SIZE * |c.sels|
  }

  /** The stored CRC of a block: that of the bytes it expands to. */
  function CrcOf(c: BlockCode): word {
    BlockCrc(UnRle(c.block))
  }

  /** bsPutUInt32: four bytes, most significant first. */
  function U32Bytes(u: nat): seq<byte> {
    [u / 0x100_0000 % 256, u / 0x1_0000 % 256, u / 0x100 % 256, u % 256]
  }

  function MappingBits(u: seq<bool>): Bits
    requires |u| == 256
  {
    GroupFlags(u, 16) + GroupBits(u, 0)
  }

  function SelectorBits(nGroups: nat, sels: seq<byte>): Bits
    requires nGroups <= N_GROUPS
  {
    ToBits(nGroups, 3) + ToBits(|sels|, 15) + UnaryBits(SelMtf(Identity(nGroups), sels))
  }

  /** What sendMTFValues writes. */
  ghost function EntropyBits(u: seq<bool>, syms: seq<nat>, sels: seq<byte>, lens: seq<seq<nat>>): Bits
    requires |u| == 256 && |lens| <= N_GROUPS && SymbolsFit(lens, sels, syms)
    requires forall t :: 0 <= t < |lens| ==> lens[t] != []
  {
    MappingBits(u) + (SelectorBits(|lens|, sels) + (TablesBits(lens) + SymBits(lens, sels, 0, 0, syms)))
  }

  /** The fixed-size front part of a block: magic, CRC, randomised bit, origin pointer. */
  function HeadBits(c: BlockCode): Bits {
    BytesBits(BLOCK_MAGIC) + (BytesBits(U32Bytes(CrcOf(c) as nat)) + ([false] + ToBits(c.origPtr, 24)))
  }

  /** All symbols of a good block lie in the alphabet of each of its tables. */
  lemma SymbolsInAlphabet(c: BlockCode, level: nat)
    requires GoodBlock(c, level)
    ensures SymbolsFit(c.lens, c.sels, Symbols(c.block, c.ptr))
    ensures forall t :: 0 <= t < |c.lens| ==> c.lens[t] != []
  {
    var used, col := Used(InUse(c.block, 256)), LastColumn(c.block, c.ptr);
    assert forall t :: 0 <= t < |c.lens| ==> |c.lens[t]| == |used| + 2;
    hide GoodBlock, GoodLens, Complete, IsSorted, InUse, Used, LastColumn;
    EncBounds(used, col);
    DigitsBound(EncFold(used, col).zPend);
  }

  ghost function BlockBits(c: BlockCode, level: nat): Bits
    requires GoodBlock(c, level)
  {
    SymbolsInAlphabet(c, level);
    HeadBits(c) + EntropyBits(InUse(c.block, 256), Symbols(c.block, c.ptr), c.sels, c.lens)
  }

  ghost predicate GoodBlocks(blocks: seq<BlockCode>, level: nat) {
    forall k :: 0 <= k < |blocks| ==> GoodBlock(blocks[k], level)
  }

  ghost function BlocksBits(blocks: seq<BlockCode>, level: nat): Bits
    requires GoodBlocks(blocks, level)
  {
    if blocks == [] then []
    else BlocksBits(blocks[..|blocks| - 1], level) + BlockBits(blocks[|blocks| - 1], level)
  }

  /** The stream CRC. */
  function CombinedCrc(blocks: seq<BlockCode>): word {
    if blocks == [] then 0
    else Combine(CombinedCrc(blocks[..|blocks| - 1]), CrcOf(blocks[|blocks| - 1]))
  }

  /** The data the blocks stand for. */
  function Data(blocks: seq<BlockCode>): seq<byte> {
    if blocks == [] then [] else Data(blocks[..|blocks| - 1]) + UnRle(blocks[|blocks| - 1].block)
  }

  function HeaderBytes(level: nat): seq<byte>
    requires 1 <= level <= 9
  {
    STREAM_MAGIC + [0x30 + level]
  }

  function TrailerBits(blocks: seq<BlockCode>): Bits {
    BytesBits(END_MAGIC) + BytesBits(U32Bytes(CombinedCrc(blocks) as nat))
  }

  ghost function StreamBits(blocks: seq<BlockCode>, level: nat): Bits
    requires 1 <= level <= 9 && GoodBlocks(blocks, level)
  {
    BytesBits(HeaderBytes(level)) + (BlocksBits(blocks, level) + TrailerBits(blocks))
  }

  /** e is a complete compressed stream for data: some good choice of blocks whose bits, padded, are e. */
  ghost predicate IsEncoding(e: seq<byte>, data: seq<byte>, blocks: seq<BlockCode>, level: nat) {
    && 1 <= level <= 9 && GoodBlocks(blocks, level) && data == Data(blocks)
    && BytesBits(e) == PadToByte(StreamBits(blocks, level))
  }
}
