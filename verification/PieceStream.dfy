/** The pieces of data arriving in any chunks: full ones, and the tail still waiting. */
module PieceStream {
  import opened Bits
  import opened MerkleHash
  import opened MerkleTree
  import opened MerkleRoots

  /** The full pieces of the data. */
  function FullPieces(data: seq<byte>): seq<seq<byte>>
    decreases |data|
  {
    if |data| < BASE_BLOCK_SIZE then [] else [data[..BASE_BLOCK_SIZE]] + FullPieces(data[BASE_BLOCK_SIZE..])
  }

  /** What is after them. */
  function Tail(data: seq<byte>): (t: seq<byte>)
    ensures |t| < BASE_BLOCK_SIZE && |t| <= |data|
    decreases |data|
  {
    if |data| < BASE_BLOCK_SIZE then data else Tail(data[BASE_BLOCK_SIZE..])
  }

  lemma {:induction false} PiecesAppend(a: seq<byte>, x: seq<byte>)
    ensures FullPieces(a + x) == FullPieces(a) + FullPieces(Tail(a) + x)
    ensures Tail(a + x) == Tail(Tail(a) + x)
    decreases |a|
  {
    if |a| >= BASE_BLOCK_SIZE {
      assert (a + x)[..BASE_BLOCK_SIZE] == a[..BASE_BLOCK_SIZE];
      assert (a + x)[BASE_BLOCK_SIZE..] == a[BASE_BLOCK_SIZE..] + x;
      PiecesAppend(a[BASE_BLOCK_SIZE..], x);
    }
  }

  /** The pieces of all the data: the full ones, and the tail if it holds anything or there is nothing else. */
  lemma {:induction false} ChunksAre(data: seq<byte>)
    ensures Chunks(data) == if Tail(data) == [] && data != [] then FullPieces(data) else FullPieces(data) + [Tail(data)]
    decreases |data|
  {
    if |data| > BASE_BLOCK_SIZE {
      ChunksAre(data[BASE_BLOCK_SIZE..]);
    } else if |data| == BASE_BLOCK_SIZE {
      assert data[..BASE_BLOCK_SIZE] == data && data[BASE_BLOCK_SIZE..] == [];
      assert FullPieces(data[BASE_BLOCK_SIZE..]) == [];
    }
  }

  /** Whole pieces leave nothing over. */
  lemma {:induction false} WholePieces(data: seq<byte>)
    requires |data| % BASE_BLOCK_SIZE == 0
    ensures Tail(data) == [] && (data != [] ==> Chunks(data) == FullPieces(data))
    decreases |data|
  {
    if |data| >= BASE_BLOCK_SIZE { WholePieces(data[BASE_BLOCK_SIZE..]); }
    ChunksAre(data);
  }

  lemma ShortPieces(data: seq<byte>)
    requires |data| < BASE_BLOCK_SIZE
    ensures FullPieces(data) == [] && Tail(data) == data
  {}

  /** The full pieces of a prefix are a prefix of the pieces. */
  lemma PiecesPrefix(x: seq<byte>, y: seq<byte>)
    ensures FullPieces(x) <= Chunks(x + y)
  {
    PiecesAppend(x, y);
    ChunksAre(x + y);
  }

  lemma {:induction false} LeafHashesPrefix(h: Hasher, a: seq<seq<byte>>, b: seq<seq<byte>>)
    requires a <= b
    ensures LeafHashes(h, a) <= LeafHashes(h, b)
  {
    assert b == a + b[|a|..];
    LeafHashesAppend(h, a, b[|a|..]);
  }

  /** The full groups of a prefix are a prefix of all groups. */
  lemma {:induction false} GroupsPrefix(h: Hasher, a: seq<Digest>, b: seq<Digest>, g: nat)
    requires a <= b
    ensures Groups(h, a, g) <= AllGroups(h, b, g)
    decreases |a|
  {
    if g > 0 && |a| >= g {
      hide TreeRoot;
      assert a[..g] == b[..g] && a[g..] <= b[g..];
      GroupsPrefix(h, a[g..], b[g..], g);
      AllGroupsStep(h, b, g);
    }
  }

  /** The file's leaves from start on are those of the bytes from start on; start is n blocks. */
  lemma LeavesFrom(h: Hasher, file: seq<byte>, blockSize: nat, start: nat, n: nat)
    requires Fits(blockSize, |file|) && start == blockSize * n && start <= |file|
    ensures n <= |FileLeaves(h, file, blockSize)|
    ensures start < |file| || start == 0 ==>
              FileLeaves(h, file, blockSize)
              == FileLeaves(h, file, blockSize)[..n] + FileLeaves(h, file[start..], blockSize)
    ensures start == |file| > 0 ==> n == |FileLeaves(h, file, blockSize)|
  {
    hide *;
    FitsPositive(blockSize, |file|);
    if start == 0 {
      ZeroFactor(blockSize, n);
      assert file[0..] == file;
    } else if start == |file| {
      FileLeavesCount(h, file, blockSize);
      Positive(blockSize, n);
      Minus(blockSize, n);
      CalcBlocksIs(start, blockSize, n);
    } else {
      Positive(blockSize, n);
      FitsLarge(blockSize, |file|);
      LeavesSplit(h, file, blockSize, n);
    }
  }

  lemma FitsPositive(b: nat, size: nat)
    requires Fits(b, size)
    ensures b > 0
  {}

  lemma ZeroFactor(b: nat, n: nat)
    requires b > 0 && b * n == 0
    ensures n == 0
  {}

  lemma Positive(b: nat, n: nat)
    requires b * n > 0
    ensures n >= 1 && b >= 1 && b * n >= b
  {
    MulLe(1, n, b);
  }

  lemma FitsLarge(b: nat, size: nat)
    requires Fits(b, size) && b < size
    ensures b >= BASE_BLOCK_SIZE && GroupSize(b) > 0
  {}

  lemma Minus(b: nat, n: nat)
    requires n >= 1
    ensures b * (n - 1) == b * n - b
  {}

  lemma LeavesSplit(h: Hasher, file: seq<byte>, blockSize: nat, n: nat)
    requires BASE_BLOCK_SIZE <= blockSize && GroupSize(blockSize) > 0 && n >= 1 && blockSize * n < |file|
    ensures |FileLeaves(h, file, blockSize)| >= n
    ensures FileLeaves(h, file, blockSize)
            == FileLeaves(h, file, blockSize)[..n] + FileLeaves(h, file[blockSize * n..], blockSize)
  {
    var g := GroupSize(blockSize);
    GroupSizeIs(blockSize);
    var m := g * n;
    Regrouped(blockSize, g, n);
    ChunksSplit(file, m);
    var a, b := Chunks(file[..blockSize * n]), Chunks(file[blockSize * n..]);
    hide *;
    LeafHashesAppend(h, a, b);
    var x, y := LeafHashes(h, a), LeafHashes(h, b);
    AllGroupsAppend(h, x, y, g);
    AllGroupsCount(h, x, g);
    CountMultiple(n, g);
    FirstPart(AllGroups(h, x, g), AllGroups(h, y, g));
    LeavesAre(h, file, blockSize);
    LeavesAre(h, file[blockSize * n..], blockSize);
  }

  lemma Regrouped(b: nat, g: nat, n: nat)
    requires b == BASE_BLOCK_SIZE * g && g > 0 && n >= 1
    ensures b * n == 1024 * (g * n) && g * n > 0 && (g * n) % g == 0
  {
    MulLe(1, n, g);
    DivModUnique(g * n, g, n, 0);
  }

  lemma FirstPart(x: seq<Digest>, y: seq<Digest>)
    ensures x + y == (x + y)[..|x|] + y
  {}

  lemma {:induction false} CountMultiple(n: nat, g: nat)
    requires g > 0
    ensures GroupCount(g * n, g) == n
  {
    if n > 0 {
      assert g * n == g * (n - 1) + g;
      MulLe(0, n - 1, g);
      CountMultiple(n - 1, g);
    }
  }
}
