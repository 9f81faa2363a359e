/** The streaming hash tree: a stack of subtree roots of decreasing size, and the roots of full blocks. */
module MerkleTree {
  import opened Bits
  import opened MerkleHash

  /** A subtree on the stack: its root, and the bytes it covers (counting each piece as 1024). */
  datatype Block = Block(hash: Digest, size: nat)

  // ---------- block sizes ----------

  /** 1024-byte pieces per leaf: 1 up to 1024 bytes, 2^k for 1024 * 2^k, and 0 for sizes no subtree can fill exactly. */
  function GroupSize(blockSize: nat): nat {
    if blockSize <= BASE_BLOCK_SIZE then 1
    else if blockSize % 2 == 1 || blockSize / 2 < BASE_BLOCK_SIZE then 0
    else 2 * GroupSize(blockSize / 2)
  }

  lemma {:induction false} GroupSizeIs(b: nat)
    ensures b >= BASE_BLOCK_SIZE && GroupSize(b) > 0 ==> IsPow2(GroupSize(b)) && b == BASE_BLOCK_SIZE * GroupSize(b)
    ensures GroupSize(b) > 0 ==> IsPow2(GroupSize(b))
  {
    if b > BASE_BLOCK_SIZE && b / 2 >= BASE_BLOCK_SIZE { GroupSizeIs(b / 2); }
  }

  lemma {:induction false} GroupSizeOf(p: nat)
    requires IsPow2(p)
    ensures GroupSize(BASE_BLOCK_SIZE * p) == p
  {
    if p > 1 { GroupSizeOf(p / 2); }
  }

  /** calcBlocks: the leaves of a file, at least one. */
  function CalcBlocks(fileSize: nat, blockSize: nat): (n: nat)
    requires blockSize > 0
    ensures n >= 1
  {
    var n := (fileSize + blockSize - 1) / blockSize;
    if n > 1 then n else 1
  }

  /** CalcBlocks by its bounds: n blocks hold the file, and n - 1 do not, unless n is 1. */
  lemma CalcBlocksIs(size: nat, b: nat, n: nat)
    requires b > 0 && n >= 1 && size <= b * n && (n == 1 || b * (n - 1) < size)
    ensures CalcBlocks(size, b) == n
  {
    if size == 0 {
      DivModUnique(b - 1, b, 0, b - 1);
      if n > 1 { MulLe(0, n - 1, b); }
    } else {
      var r := size + b - 1 - n * b;
      LastBlock(size, b, n);
      DivModUnique(size + b - 1, b, n, r);
    }
  }

  lemma LastBlock(size: nat, b: nat, n: nat)
    requires b > 0 && n >= 1 && 0 < size <= b * n && (n == 1 || b * (n - 1) < size)
    ensures 0 <= size + b - 1 - n * b < b
  {
    assert b * (n - 1) == b * n - b;
  }

  lemma CalcBlocksBounds(size: nat, b: nat)
    requires b > 0
    ensures var n := CalcBlocks(size, b); size <= b * n && (n == 1 || b * (n - 1) < size)
  {
    var m := (size + b - 1) / b;
    var r := (size + b - 1) % b;
    assert size + b - 1 == b * m + r;
    assert b * (m - 1) == b * m - b;
    if m <= 1 { MulLe(m, 1, b); }
  }

  /** calcBlockSize: the smallest 1024 * 2^k with which 2^(maxLevels - 1) leaves cover the file. */
  method CalcBlockSize(fileSize: nat, maxLevels: nat) returns (tmp: nat)
    requires maxLevels >= 1
    ensures IsPow2(GroupSize(tmp)) && tmp == BASE_BLOCK_SIZE * GroupSize(tmp)
    ensures CalcBlocks(fileSize, tmp) <= Pow2(maxLevels - 1)
    ensures tmp > BASE_BLOCK_SIZE ==> Pow2(maxLevels - 1) * (tmp / 2) < fileSize
  {
    tmp := BASE_BLOCK_SIZE;
    var maxHashes := Pow2(maxLevels - 1);
    ghost var p := 1;
    while maxHashes * tmp < fileSize
      invariant tmp == BASE_BLOCK_SIZE * p && IsPow2(p)
      invariant tmp > BASE_BLOCK_SIZE ==> maxHashes * (tmp / 2) < fileSize
      decreases fileSize - maxHashes * tmp
    {
      Doubled(maxHashes, tmp);
      tmp := tmp * 2;
      p := p * 2;
    }
    GroupSizeOf(p);
    CalcBlocksAtMost(fileSize, tmp, maxHashes);
  }

  lemma Doubled(m: nat, t: nat)
    requires m > 0 && t > 0
    ensures m * (t * 2) == 2 * (m * t) && m * t > 0
  {}

  lemma CalcBlocksAtMost(size: nat, b: nat, n: nat)
    requires b > 0 && n >= 1 && n * b >= size
    ensures CalcBlocks(size, b) <= n
  {
    CalcBlocksBounds(size, b);
    var m := CalcBlocks(size, b);
    if m > n { MulLe(n, m - 1, b); }
  }

  // ---------- the stack ----------

  /** The stack covers vs: each block is the root of the next stretch of a power of two of hashes. */
  ghost predicate Covers(h: Hasher, blocks: seq<Block>, vs: seq<Digest>) {
    if blocks == [] then vs == []
    else
      var b := blocks[|blocks| - 1];
      var p := b.size / BASE_BLOCK_SIZE;
      && b.size % BASE_BLOCK_SIZE == 0 && p <= |vs| && IsPow2(p)
      && b.hash == TreeRoot(h, vs[|vs| - p..])
      && Covers(h, blocks[..|blocks| - 1], vs[..|vs| - p])
  }

  predicate Decreasing(blocks: seq<Block>) {
    forall i, j :: 0 <= i < j < |blocks| ==> blocks[i].size > blocks[j].size
  }

  /** No block has reached the size of a leaf (g pieces; none can when g is 0). */
  predicate Below(blocks: seq<Block>, g: nat) {
    forall i :: 0 <= i < |blocks| && g > 0 ==> blocks[i].size < BASE_BLOCK_SIZE * g
  }

  lemma CoversPush(h: Hasher, blocks: seq<Block>, vs: seq<Digest>, b: Block, ws: seq<Digest>)
    requires Covers(h, blocks, vs) && b.size == BASE_BLOCK_SIZE * |ws| && IsPow2(|ws|) && b.hash == TreeRoot(h, ws)
    ensures Covers(h, blocks + [b], vs + ws)
  {
    assert (blocks + [b])[..|blocks|] == blocks;
    assert (vs + ws)[|vs|..] == ws && (vs + ws)[..|vs|] == vs;
  }

  /** What the two blocks at the top stand for. */
  lemma TopTwo(h: Hasher, blocks: seq<Block>, vs: seq<Digest>) returns (z: seq<Digest>, x: seq<Digest>, y: seq<Digest>)
    requires Covers(h, blocks, vs) && |blocks| >= 2
    ensures vs == z + x + y && Covers(h, blocks[..|blocks| - 2], z) && IsPow2(|x|) && IsPow2(|y|)
    ensures blocks[|blocks| - 2] == Block(TreeRoot(h, x), BASE_BLOCK_SIZE * |x|)
    ensures blocks[|blocks| - 1] == Block(TreeRoot(h, y), BASE_BLOCK_SIZE * |y|)
  {
    hide TreeRoot;
    var n := |blocks|;
    var a, b := blocks[n - 2], blocks[n - 1];
    var p := b.size / BASE_BLOCK_SIZE;
    var low := vs[..|vs| - p];
    assert blocks[..n - 1][..n - 2] == blocks[..n - 2];
    var q := a.size / BASE_BLOCK_SIZE;
    x, y, z := low[|low| - q..], vs[|vs| - p..], low[..|low| - q];
  }

  lemma JoinTwo(h: Hasher, low: seq<Block>, z: seq<Digest>, x: seq<Digest>, y: seq<Digest>, made: Block)
    requires Covers(h, low, z) && IsPow2(|x|) && |x| == |y|
    requires made == Block(Combine(h, TreeRoot(h, x), TreeRoot(h, y)), 2 * (BASE_BLOCK_SIZE * |x|))
    ensures Covers(h, low + [made], z + x + y) && made.hash == TreeRoot(h, x + y) && |x| > 0
  {
    hide TreeRoot, Covers, IsPow2, Combine;
    DoublePow2(|x|);
    JoinRoots(h, x, y);
    CoversPush(h, low, z, made, x + y);
    AssocDigests(z, x, y);
  }

  /** Two equal blocks at the top join into one. */
  lemma CoversJoin(h: Hasher, blocks: seq<Block>, vs: seq<Digest>, made: Block)
    requires Covers(h, blocks, vs) && |blocks| >= 2 && blocks[|blocks| - 2].size == blocks[|blocks| - 1].size
    requires made == Block(Combine(h, blocks[|blocks| - 2].hash, blocks[|blocks| - 1].hash),
                           2 * blocks[|blocks| - 1].size)
    ensures Covers(h, blocks[..|blocks| - 2] + [made], vs)
    ensures |blocks| == 2 ==> vs != [] && made.hash == TreeRoot(h, vs) && BASE_BLOCK_SIZE * |vs| == made.size
  {
    var z, x, y := TopTwo(h, blocks, vs);
    hide TreeRoot, Covers, IsPow2, Combine;
    JoinTwo(h, blocks[..|blocks| - 2], z, x, y, made);
    if |blocks| == 2 {
      CoversNone(h, blocks[..0], z, x);
    }
  }

  lemma AssocDigests(z: seq<Digest>, x: seq<Digest>, y: seq<Digest>)
    ensures z + x + y == z + (x + y)
  {}

  lemma DoublePow2(m: nat)
    requires IsPow2(m)
    ensures IsPow2(2 * m) && m >= 1
  {
    assert 2 * m / 2 == m;
  }

  lemma CoversNone(h: Hasher, blocks: seq<Block>, z: seq<Digest>, w: seq<Digest>)
    requires Covers(h, blocks, z) && blocks == []
    ensures z + w == w
  {}

  /** A stack of decreasing blocks covers less than twice its first. */
  lemma {:induction false} CoversLess(h: Hasher, blocks: seq<Block>, vs: seq<Digest>)
    requires Covers(h, blocks, vs) && Decreasing(blocks) && blocks != []
    ensures BASE_BLOCK_SIZE * |vs| + blocks[|blocks| - 1].size <= 2 * blocks[0].size
    ensures blocks[0].size % BASE_BLOCK_SIZE == 0 && IsPow2(blocks[0].size / BASE_BLOCK_SIZE)
            && blocks[|blocks| - 1].size > 0
  {
    var n := |blocks|;
    var p := blocks[n - 1].size / BASE_BLOCK_SIZE;
    var rest, low := blocks[..n - 1], vs[..|vs| - p];
    if n > 1 {
      CoversLess(h, rest, low);
      assert Covers(h, rest[..n - 2], low[..|low| - rest[n - 2].size / BASE_BLOCK_SIZE]);
      Pow2Apart(p, rest[n - 2].size / BASE_BLOCK_SIZE);
    } else {
      assert low == [];
    }
  }

  /** Leaves and stack stand for the hashes vs, after leaves pre that were there before. */
  ghost predicate Rep(h: Hasher, leaves: seq<Digest>, blocks: seq<Block>, pre: seq<Digest>, vs: seq<Digest>, g: nat) {
    && leaves == pre + Groups(h, vs, g) && Covers(h, blocks, Rest(vs, g)) && Decreasing(blocks) && Below(blocks, g)
  }

  /** In the middle of reduceBlocks: the stack covers r, unless r has just become a leaf. */
  ghost predicate Reducing(h: Hasher, leaves: seq<Digest>, blocks: seq<Block>, before: seq<Digest>, r: seq<Digest>,
                           g: nat) {
    if leaves == before then
      && Covers(h, blocks, r) && blocks != [] && Decreasing(blocks[..|blocks| - 1]) && Below(blocks, g)
      && (|blocks| >= 2 ==> blocks[|blocks| - 1].size <= blocks[|blocks| - 2].size)
    else r != [] && |r| == g && leaves == before + [TreeRoot(h, r)] && blocks == []
  }

  lemma OnePieceRoot(h: Hasher, v: Digest)
    ensures TreeRoot(h, [v]) == v && IsPow2(1)
  {}

  lemma PushReduces(h: Hasher, leaves: seq<Digest>, blocks: seq<Block>, r: seq<Digest>, v: Digest, g: nat)
    requires Covers(h, blocks, r) && Decreasing(blocks) && Below(blocks, g) && g != 1
    ensures Reducing(h, leaves, blocks + [Block(v, BASE_BLOCK_SIZE)], leaves, r + [v], g)
  {
    hide TreeRoot, IsPow2, Covers;
    var n, b := |blocks|, Block(v, BASE_BLOCK_SIZE);
    OnePieceRoot(h, v);
    CoversPush(h, blocks, r, b, [v]);
    assert (blocks + [b])[..n] == blocks;
    if n > 0 {
      TopIs(h, blocks, r);
      assert blocks[n - 1].size >= BASE_BLOCK_SIZE;
    }
  }

  /** One round of reduceBlocks that joins two blocks into a larger one. */
  lemma JoinReduces(h: Hasher, leaves: seq<Digest>, blocks: seq<Block>, r: seq<Digest>, blockSize: nat)
    requires Reducing(h, leaves, blocks, leaves, r, GroupSize(blockSize)) && blockSize > BASE_BLOCK_SIZE
    requires |blocks| >= 2 && blocks[|blocks| - 2].size == blocks[|blocks| - 1].size
             && blocks[|blocks| - 1].size * 2 != blockSize
    ensures var n := |blocks|;
            var a := blocks[n - 2];
            Reducing(h, leaves, blocks[..n - 2] + [Block(Combine(h, a.hash, blocks[n - 1].hash), a.size * 2)], leaves,
                     r, GroupSize(blockSize))
  {
    hide TreeRoot;
    var n, g := |blocks|, GroupSize(blockSize);
    var a := blocks[n - 2];
    var p := a.size / BASE_BLOCK_SIZE;
    CoversJoin(h, blocks, r, Block(Combine(h, a.hash, blocks[n - 1].hash), 2 * a.size));
    GroupSizeIs(blockSize);
    TopIs(h, blocks, r);
    if g > 0 { Pow2Apart(p, g); }
    var made := blocks[..n - 2] + [Block(Combine(h, a.hash, blocks[n - 1].hash), a.size * 2)];
    assert made[..n - 2] == blocks[..n - 2];
    if n >= 3 {
      SecondIs(h, blocks, r);
      Pow2Apart(p, blocks[n - 3].size / BASE_BLOCK_SIZE);
    }
  }

  lemma TopIs(h: Hasher, blocks: seq<Block>, r: seq<Digest>)
    requires Covers(h, blocks, r) && blocks != []
    ensures var s := blocks[|blocks| - 1].size;
            s % BASE_BLOCK_SIZE == 0 && IsPow2(s / BASE_BLOCK_SIZE) && s >= BASE_BLOCK_SIZE
  {}

  lemma SecondIs(h: Hasher, blocks: seq<Block>, r: seq<Digest>)
    requires Covers(h, blocks, r) && |blocks| >= 3
    ensures var s := blocks[|blocks| - 3].size; s % BASE_BLOCK_SIZE == 0 && IsPow2(s / BASE_BLOCK_SIZE)
  {
    var n := |blocks|;
    var low := r[..|r| - blocks[n - 1].size / BASE_BLOCK_SIZE];
    var two := blocks[..n - 1];
    assert Covers(h, two, low);
    TopIs(h, two[..n - 2], low[..|low| - two[n - 2].size / BASE_BLOCK_SIZE]);
  }

  /** The round that completes a leaf empties the stack. */
  lemma LeafReduces(h: Hasher, leaves: seq<Digest>, blocks: seq<Block>, r: seq<Digest>, blockSize: nat)
    requires Reducing(h, leaves, blocks, leaves, r, GroupSize(blockSize)) && blockSize > BASE_BLOCK_SIZE
    requires |blocks| >= 2 && blocks[|blocks| - 2].size == blocks[|blocks| - 1].size
             && blocks[|blocks| - 1].size * 2 == blockSize
    ensures |blocks| == 2
    ensures Reducing(h, leaves + [Combine(h, blocks[0].hash, blocks[1].hash)], [], leaves, r, GroupSize(blockSize))
  {
    var n, g := |blocks|, GroupSize(blockSize);
    TopIs(h, blocks, r);
    GroupSizeOf(2 * (blocks[n - 1].size / BASE_BLOCK_SIZE));
    if n >= 3 {
      SecondIs(h, blocks, r);
      Pow2Apart(blocks[n - 1].size / BASE_BLOCK_SIZE, blocks[n - 3].size / BASE_BLOCK_SIZE);
      assert false;
    }
    CoversJoin(h, blocks, r, Block(Combine(h, blocks[0].hash, blocks[1].hash), 2 * blocks[1].size));
  }

  /** When nothing is left to join. */
  lemma ReducedRep(h: Hasher, leaves: seq<Digest>, blocks: seq<Block>, pre: seq<Digest>, vs: seq<Digest>, v: Digest,
                   g: nat)
    requires Reducing(h, leaves, blocks, pre + Groups(h, vs, g), Rest(vs, g) + [v], g) && (g > 0 ==> IsPow2(g))
    requires |blocks| >= 2 ==> blocks[|blocks| - 2].size != blocks[|blocks| - 1].size
    ensures Rep(h, leaves, blocks, pre, vs + [v], g)
  {
    hide TreeRoot;
    var r := Rest(vs, g) + [v];
    GroupsSnoc(h, vs, v, g);
    if leaves == pre + Groups(h, vs, g) {
      StrictlyDown(blocks);
      CoversLess(h, blocks, r);
      if g > 0 { Pow2Apart(blocks[0].size / BASE_BLOCK_SIZE, g); }
      assert |r| != g;
    } else {
      assert pre + Groups(h, vs, g) + [TreeRoot(h, r)] == pre + (Groups(h, vs, g) + [TreeRoot(h, r)]);
    }
  }

  lemma StrictlyDown(blocks: seq<Block>)
    requires blocks != [] && Decreasing(blocks[..|blocks| - 1])
    requires |blocks| >= 2 ==> blocks[|blocks| - 1].size < blocks[|blocks| - 2].size
    ensures Decreasing(blocks)
  {
    forall i, j | 0 <= i < j < |blocks|
      ensures blocks[i].size > blocks[j].size
    {
      var n := |blocks|;
      if j < n - 1 {
        assert blocks[..n - 1][i].size > blocks[..n - 1][j].size;
      } else if i < n - 2 {
        assert blocks[..n - 1][i].size > blocks[..n - 1][n - 2].size;
      }
    }
  }

  // ---------- finishing ----------

  /** In the middle of finalize: all but the last block still cover z, and the last is the root of the rest, y. */
  ghost predicate Folding(h: Hasher, blocks: seq<Block>, z: seq<Digest>, y: seq<Digest>) {
    && blocks != [] && y != []
    && Covers(h, blocks[..|blocks| - 1], z) && Decreasing(blocks[..|blocks| - 1])
    && blocks[|blocks| - 1].hash == TreeRoot(h, y)
    && (|blocks| >= 2 ==> BASE_BLOCK_SIZE * |y| <= blocks[|blocks| - 2].size)
  }

  /** What the block at the top stands for. */
  lemma TopOne(h: Hasher, blocks: seq<Block>, vs: seq<Digest>) returns (z: seq<Digest>, x: seq<Digest>)
    requires Covers(h, blocks, vs) && blocks != []
    ensures vs == z + x && Covers(h, blocks[..|blocks| - 1], z) && IsPow2(|x|) && |x| > 0
    ensures blocks[|blocks| - 1] == Block(TreeRoot(h, x), BASE_BLOCK_SIZE * |x|)
  {
    hide TreeRoot;
    var p := blocks[|blocks| - 1].size / BASE_BLOCK_SIZE;
    z, x := vs[..|vs| - p], vs[|vs| - p..];
  }

  lemma FoldStart(h: Hasher, blocks: seq<Block>, vs: seq<Digest>) returns (z: seq<Digest>, y: seq<Digest>)
    requires Covers(h, blocks, vs) && Decreasing(blocks) && blocks != []
    ensures Folding(h, blocks, z, y) && z + y == vs
  {
    z, y := TopOne(h, blocks, vs);
    hide TreeRoot, Covers, IsPow2;
  }

  lemma FoldStep(h: Hasher, blocks: seq<Block>, z: seq<Digest>, y: seq<Digest>, made: Block)
    returns (z': seq<Digest>, y': seq<Digest>)
    requires Folding(h, blocks, z, y) && |blocks| >= 2
    requires made.hash == Combine(h, blocks[|blocks| - 2].hash, blocks[|blocks| - 1].hash)
    ensures Folding(h, blocks[..|blocks| - 2] + [made], z', y') && z' + y' == z + y
  {
    hide TreeRoot, Covers, IsPow2, Combine, Split;
    var n := |blocks|;
    var up, low := blocks[..n - 1], blocks[..n - 2];
    LowerBlocks(blocks, made);
    var x;
    z', x := TopOne(h, up, z);
    y' := x + y;
    AssocDigests(z', x, y);
    if n >= 3 { PrevLarger(h, up, z); }
    JoinRoots(h, x, y);
    DecreasingLess(up);
  }

  lemma LowerBlocks(blocks: seq<Block>, made: Block)
    requires |blocks| >= 2
    ensures blocks[..|blocks| - 1][..|blocks| - 2] == blocks[..|blocks| - 2]
    ensures (blocks[..|blocks| - 2] + [made])[..|blocks| - 2] == blocks[..|blocks| - 2]
  {}

  lemma DecreasingLess(blocks: seq<Block>)
    requires Decreasing(blocks) && blocks != []
    ensures Decreasing(blocks[..|blocks| - 1])
  {}

  lemma PrevLarger(h: Hasher, blocks: seq<Block>, vs: seq<Digest>)
    requires Covers(h, blocks, vs) && Decreasing(blocks) && |blocks| >= 2
    ensures 2 * blocks[|blocks| - 1].size <= blocks[|blocks| - 2].size
  {
    var z, x, y := TopTwo(h, blocks, vs);
    Pow2Apart(|y|, |x|);
  }

  /** The last block of all is the root of everything the stack covered. */
  lemma FoldDone(h: Hasher, blocks: seq<Block>, z: seq<Digest>, y: seq<Digest>)
    requires Folding(h, blocks, z, y) && |blocks| == 1
    ensures z + y == y != [] && blocks[0].hash == TreeRoot(h, y)
  {
    assert blocks[..0] == [];
  }

  // ---------- the tree over leaves, by byte ranges ----------

  /** The range of bytes splits where the list of leaves does. */
  lemma SplitBytes(length: nat, b: nat, p: nat)
    requires b > 0 && IsPow2(p) && b * p < length <= 2 * (b * p)
    ensures var n := CalcBlocks(length, b);
            n >= 2 && Split(n) == p && CalcBlocks(b * p, b) == p && CalcBlocks(length - b * p, b) == n - p
  {
    var n := CalcBlocks(length, b);
    CalcBlocksBounds(length, b);
    hide CalcBlocks, Split;
    BlocksBetween(b, p, n, length);
    SplitIs(n, p);
    hide IsPow2;
    Factors(b, p, n);
    CalcBlocksIs(b * p, b, p);
    CalcBlocksIs(length - b * p, b, n - p);
  }

  lemma StartSplits(start: nat, b: nat, p: nat)
    requires b > 0 && start % b == 0
    ensures (start + b * p) % b == 0 && (start + b * p) / b == start / b + p
  {
    var s := start / b;
    assert start == s * b;
    assert start + b * p == (s + p) * b;
    DivModUnique(start + b * p, b, s + p, 0);
  }

  lemma BlocksBetween(b: nat, p: nat, n: nat, length: nat)
    requires b > 0 && n >= 1 && p >= 1 && b * p < length <= 2 * (b * p) && length <= b * n
             && (n == 1 || b * (n - 1) < length)
    ensures p < n <= 2 * p
  {
    if n <= p { MulLe(n, p, b); }
    if n > 2 * p { MulLe(2 * p, n - 1, b); }
  }

  lemma Factors(b: nat, p: nat, n: nat)
    requires p >= 1 && n >= p
    ensures b * (n - p) == b * n - b * p && b * (n - p - 1) == b * (n - 1) - b * p && b * (p - 1) == b * p - b
  {}

  lemma SlicesOf(leaves: seq<Digest>, s: nat, n: nat, p: nat)
    requires s + n <= |leaves| && p <= n
    ensures leaves[s..s + n][..p] == leaves[s..s + p] && leaves[s..s + n][p..] == leaves[s + p..s + n]
  {}

  lemma RootSplits(h: Hasher, leaves: seq<Digest>, s: nat, n: nat, p: nat)
    requires s + n <= |leaves| && n >= 2 && p == Split(n)
    ensures TreeRoot(h, leaves[s..s + n])
            == Combine(h, TreeRoot(h, leaves[s..s + p]), TreeRoot(h, leaves[s + p..s + n]))
  {
    SlicesOf(leaves, s, n, p);
  }

  class MerkleTree {
    const h: Hasher
    var blocks: seq<Block>
    var leaves: seq<Digest>
    var root: Digest
    var fileSize: nat
    var blockSize: nat
    /** The leaves there before the first update, and the pieces hashed since. */
    ghost var pre: seq<Digest>
    ghost var fed: seq<seq<byte>>

    ghost predicate Inv()
      reads this
    {
      Rep(h, leaves, blocks, pre, LeafHashes(h, fed), GroupSize(blockSize))
    }

    constructor (h: Hasher, blockSize: nat, zero: Digest)
      ensures Inv() && this.h == h && this.blockSize == blockSize && fileSize == 0 && leaves == [] && blocks == []
              && pre == [] && fed == []
    {
      this.h, this.blockSize, fileSize := h, blockSize, 0;
      blocks, leaves, root, pre, fed := [], [], zero, [], [];
    }

    /** Loads the leaves of the blocks before start, as the checking stream does. */
    method Load(start: nat, before: seq<Digest>)
      requires Inv() && leaves == [] && blocks == [] && fed == []
      modifies this`leaves, this`pre, this`fileSize
      ensures Inv() && leaves == pre == before && fileSize == start
    {
      leaves, pre, fileSize := before, before, start;
    }

    /** reduceBlocks, after the hash v of one more piece has been pushed. */
    method ReduceBlocks(ghost vs: seq<Digest>, ghost v: Digest)
      requires blockSize > BASE_BLOCK_SIZE
      requires Reducing(h, leaves, blocks, leaves, Rest(vs, GroupSize(blockSize)) + [v], GroupSize(blockSize))
      requires leaves == pre + Groups(h, vs, GroupSize(blockSize))
      modifies this`blocks, this`leaves
      ensures Rep(h, leaves, blocks, pre, vs + [v], GroupSize(blockSize))
    {
      hide *;
      assert BASE_BLOCK_SIZE == 1024 by { BaseIs(); }
      ghost var before, r, g := leaves, Rest(vs, GroupSize(blockSize)) + [v], GroupSize(blockSize);
      while |blocks| > 1
        invariant Reducing(h, leaves, blocks, before, r, g)
        decreases |blocks|
      {
        NotYetLeaf(h, leaves, blocks, before, r, g);
        var a, b := blocks[|blocks| - 2], blocks[|blocks| - 1];
        if a.size == b.size {
          if a.size * 2 == blockSize {
            LeafReduces(h, leaves, blocks, r, blockSize);
            leaves := leaves + [Combine(h, a.hash, b.hash)];
            blocks := blocks[..|blocks| - 2];
            assert blocks == [];
          } else {
            JoinReduces(h, leaves, blocks, r, blockSize);
            blocks := blocks[..|blocks| - 2] + [Block(Combine(h, a.hash, b.hash), a.size * 2)];
          }
        } else {
          break;
        }
      }
      GroupSizeIs(blockSize);
      ReducedRep(h, leaves, blocks, pre, vs, v, g);
    }

    /** One piece of up to 1024 bytes. */
    method Feed(chunk: seq<byte>)
      requires Inv()
      modifies this`blocks, this`leaves, this`fed
      ensures Inv() && fed == old(fed) + [chunk]
    {
      hide TreeRoot, Covers, IsPow2, Split, Groups, Rest, Reducing;
      ghost var vs, v, g := LeafHashes(h, fed), LeafHash(h, chunk), GroupSize(blockSize);
      OneLeaf(h, fed, chunk);
      if BASE_BLOCK_SIZE < blockSize {
        NotOne(blockSize);
        PushReduces(h, leaves, blocks, Rest(vs, g), v, g);
        blocks := blocks + [Block(LeafHash(h, chunk), BASE_BLOCK_SIZE)];
        ReduceBlocks(vs, v);
      } else {
        OneRep(h, leaves, blocks, pre, vs, v);
        leaves := leaves + [LeafHash(h, chunk)];
      }
      fed := fed + [chunk];
    }

    /** update. */
    method Update(data: seq<byte>)
      requires Inv()
      modifies this`blocks, this`leaves, this`fed, this`fileSize
      ensures Inv()
      ensures if data == [] && !old(leaves == [] && blocks == []) then fed == old(fed) && fileSize == old(fileSize)
              && leaves == old(leaves)
              else fed == old(fed) + Chunks(data) && fileSize == old(fileSize) + |data|
    {
      if data == [] && !(leaves == [] && blocks == []) { return; }
      hide *;
      assert BASE_BLOCK_SIZE == 1024 by { BaseIs(); }
      var i, again := 0, true;
      assert data[0..] == data;
      while again
        invariant Inv() && i <= |data| && fileSize == old(fileSize)
        invariant again ==> (i < |data| || i == 0) && fed + Chunks(data[i..]) == old(fed) + Chunks(data)
        invariant !again ==> fed == old(fed) + Chunks(data)
        decreases |data| - i + if again then 1 else 0
      {
        var n := if BASE_BLOCK_SIZE < |data| - i then BASE_BLOCK_SIZE else |data| - i;
        FirstChunk(fed, data, i, n);
        Feed(data[i..i + n]);
        i := i + n;
        again := i < |data|;
      }
      fileSize := fileSize + |data|;
    }

    /** calcRoot. */
    method CalcRoot()
      requires blockSize > 0 && CalcBlocks(fileSize, blockSize) <= |leaves|
      modifies this`root
      ensures root == TreeRoot(h, leaves[..CalcBlocks(fileSize, blockSize)])
    {
      hide TreeRoot, CalcBlocks;
      root := GetHash(0, fileSize);
      assert 0 / blockSize == 0 by { DivModUnique(0, blockSize, 0, 0); }
    }

    /** The loop of getHash that finds the size of the left subtree. */
    method SplitPoint(length: nat) returns (l: nat, ghost p: nat)
      requires 0 < blockSize < length
      ensures l == blockSize * p && IsPow2(p) && l < length <= 2 * l
    {
      hide *;
      l := blockSize;
      p := 1;
      PowerOne();
      while l * 2 < length
        invariant l == blockSize * p && IsPow2(p) && 0 < l < length
        decreases length - l
      {
        DoublePow2(p);
        l := l * 2;
        p := 2 * p;
      }
    }

    /** getHash: the root over the leaves of a range of bytes. */
    method GetHash(start: nat, length: nat) returns (v: Digest)
      requires blockSize > 0 && start % blockSize == 0 && start / blockSize + CalcBlocks(length, blockSize) <= |leaves|
      ensures v == TreeRoot(h, leaves[start / blockSize..start / blockSize + CalcBlocks(length, blockSize)])
      decreases length
    {
      hide *;
      if length <= blockSize {
        OneBlock(h, leaves, start / blockSize, length, blockSize);
        v := leaves[start / blockSize];
      } else {
        var l;
        ghost var p;
        l, p := SplitPoint(length);
        SplitBytes(length, blockSize, p);
        StartSplits(start, blockSize, p);
        RootSplits(h, leaves, start / blockSize, CalcBlocks(length, blockSize), p);
        var a := GetHash(start, l);
        var b := GetHash(start + l, length - l);
        v := Combine(h, a, b);
      }
    }

    /** finalize. */
    method Finalize()
      requires Inv() && blockSize > 0
      requires var vs := LeafHashes(h, if leaves == [] && blocks == [] then [[]] else fed);
               CalcBlocks(fileSize, blockSize) <= |pre| + |AllGroups(h, vs, GroupSize(blockSize))|
      modifies this`blocks, this`leaves, this`fed, this`root, this`fileSize
      ensures fileSize == old(fileSize) && fed == if old(leaves == [] && blocks == []) then [[]] else old(fed)
      ensures leaves == pre + AllGroups(h, LeafHashes(h, fed), GroupSize(blockSize))
      ensures CalcBlocks(fileSize, blockSize) <= |leaves|
              && root == TreeRoot(h, leaves[..CalcBlocks(fileSize, blockSize)])
    {
      hide TreeRoot, Covers, Groups, Rest, CalcBlocks, Split, LeafHashes, LeafHash, GroupSize;
      if leaves == [] && blocks == [] {
        NothingFed(h, leaves, blocks, pre, LeafHashes(h, fed), GroupSize(blockSize));
        assert fed == [];
        Update([]);
        assert fed == [[]];
      }
      FoldBlocks(Rest(LeafHashes(h, fed), GroupSize(blockSize)));
      if blocks != [] { leaves := leaves + [blocks[0].hash]; }
      CalcRoot();
    }

    /** The loop of finalize: from the top down, everything on the stack becomes one subtree. */
    method FoldBlocks(ghost r: seq<Digest>)
      requires Covers(h, blocks, r) && Decreasing(blocks)
      modifies this`blocks
      ensures if r == [] then blocks == [] else |blocks| == 1 && blocks[0].hash == TreeRoot(h, r)
    {
      hide TreeRoot, Folding, Combine, Decreasing;
      if |blocks| == 0 { return; }
      ghost var z, y;
      z, y := FoldStart(h, blocks, r);
      while |blocks| > 1
        invariant blocks != [] && Folding(h, blocks, z, y) && z + y == r
        decreases |blocks|
      {
        var a, b := blocks[|blocks| - 2], blocks[|blocks| - 1];
        var made := a.(hash := Combine(h, a.hash, b.hash));
        z, y := FoldStep(h, blocks, z, y, made);
        blocks := blocks[..|blocks| - 2] + [made];
      }
      FoldDone(h, blocks, z, y);
    }
  }

  lemma NothingFed(h: Hasher, leaves: seq<Digest>, blocks: seq<Block>, pre: seq<Digest>, vs: seq<Digest>, g: nat)
    requires Rep(h, leaves, blocks, pre, vs, g) && leaves == [] && blocks == []
    ensures vs == []
  {}

  lemma BaseIs()
    ensures BASE_BLOCK_SIZE == 1024
  {}

  lemma PowerOne()
    ensures IsPow2(1)
  {}

  lemma NotYetLeaf(h: Hasher, leaves: seq<Digest>, blocks: seq<Block>, before: seq<Digest>, r: seq<Digest>, g: nat)
    requires Reducing(h, leaves, blocks, before, r, g) && blocks != []
    ensures leaves == before
  {}

  lemma NotOne(b: nat)
    requires b > BASE_BLOCK_SIZE
    ensures GroupSize(b) != 1
  {}

  lemma OneLeaf(h: Hasher, fed: seq<seq<byte>>, chunk: seq<byte>)
    ensures LeafHashes(h, fed + [chunk]) == LeafHashes(h, fed) + [LeafHash(h, chunk)]
  {
    LeafHashesAppend(h, fed, [chunk]);
    assert LeafHashes(h, [chunk]) == [LeafHash(h, chunk)];
  }

  /** With blocks of a piece, each hash is a leaf and the stack stays empty. */
  lemma OneRep(h: Hasher, leaves: seq<Digest>, blocks: seq<Block>, pre: seq<Digest>, vs: seq<Digest>, v: Digest)
    requires Rep(h, leaves, blocks, pre, vs, 1)
    ensures blocks == [] && Rep(h, leaves + [v], blocks, pre, vs + [v], 1)
  {
    GroupsSnoc(h, vs, v, 1);
    assert [] + [v] == [v];
    assert TreeRoot(h, [v]) == v;
  }

  lemma AssocChunks(a: seq<seq<byte>>, b: seq<seq<byte>>, c: seq<seq<byte>>)
    ensures a + (b + c) == a + b + c
  {}

  lemma FirstChunk(fed: seq<seq<byte>>, data: seq<byte>, i: nat, n: nat)
    requires i <= |data| && n == if BASE_BLOCK_SIZE < |data| - i then BASE_BLOCK_SIZE else |data| - i
    ensures fed + Chunks(data[i..]) == fed + [data[i..i + n]] + if i + n < |data| then Chunks(data[i + n..]) else []
  {
    var d := data[i..];
    assert d[..n] == data[i..i + n];
    assert d[n..] == data[i + n..];
    var more := if i + n < |data| then Chunks(data[i + n..]) else [];
    if i + n == |data| { assert d == data[i..i + n] && Chunks(d) == [d]; }
    assert Chunks(d) == [data[i..i + n]] + more;
    AssocChunks(fed, [data[i..i + n]], more);
  }

  lemma OneBlock(h: Hasher, leaves: seq<Digest>, s: nat, length: nat, b: nat)
    requires b > 0 && length <= b
    ensures CalcBlocks(length, b) == 1 && (s < |leaves| ==> TreeRoot(h, leaves[s..s + 1]) == leaves[s])
  {
    CalcBlocksIs(length, b, 1);
  }
}
