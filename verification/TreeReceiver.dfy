/** Receiving a tree: leaves arrive as bytes in pieces of any size, and the block size is inferred from their number. */
module TreeReceiver {
  import opened Bits
  import opened MerkleHash
  import opened MerkleTree
  import opened MerkleRoots

  /** The bytes of a list of hash values. */
  function Flatten(leaves: seq<Digest>): (b: seq<byte>)
    ensures |b| == BYTES * |leaves|
  {
    if leaves == [] then [] else Flatten(leaves[..|leaves| - 1]) + leaves[|leaves| - 1]
  }

  lemma {:induction false} FlattenUnique(a: seq<Digest>, b: seq<Digest>)
    requires Flatten(a) == Flatten(b)
    ensures a == b
    decreases |a|
  {
    assert |a| == |b|;
    if a != [] {
      var n := |a|;
      var x, y := Flatten(a[..n - 1]), Flatten(b[..n - 1]);
      assert Flatten(a)[..BYTES * (n - 1)] == x && Flatten(b)[..BYTES * (n - 1)] == y;
      assert Flatten(a)[BYTES * (n - 1)..] == a[n - 1] && Flatten(b)[BYTES * (n - 1)..] == b[n - 1];
      FlattenUnique(a[..n - 1], b[..n - 1]);
      assert a == a[..n - 1] + [a[n - 1]] && b == b[..n - 1] + [b[n - 1]];
    }
  }

  lemma FlattenMore(leaves: seq<Digest>, d: Digest)
    ensures Flatten(leaves + [d]) == Flatten(leaves) + d
  {
    assert (leaves + [d])[..|leaves|] == leaves;
  }

  class MerkleTreeOutputStream {
    const tree: MerkleTree
    const buf: array<byte>
    var bufPos: nat
    /** All bytes written. */
    ghost var received: seq<byte>

    ghost predicate Inv()
      reads this, tree, buf
    {
      buf.Length == BYTES && bufPos < BYTES && received == Flatten(tree.leaves) + buf[..bufPos]
    }

    constructor (tree: MerkleTree)
      requires tree.leaves == []
      ensures Inv() && this.tree == tree && received == [] && fresh(buf)
    {
      this.tree, buf, bufPos, received := tree, new byte[BYTES], 0, [];
      new;
      assert buf[..0] == [] && Flatten([]) == [];
    }

    /** memcpy into the buffer. */
    method Copy(b: seq<byte>, pos: nat, bytes: nat)
      requires buf.Length == BYTES && bufPos + bytes <= BYTES && pos + bytes <= |b|
      modifies this`bufPos, buf
      ensures bufPos == old(bufPos) + bytes && buf[..bufPos] == old(buf[..bufPos]) + b[pos..pos + bytes]
    {
      for i := 0 to bytes
        invariant bufPos == old(bufPos)
        invariant buf[..bufPos + i] == old(buf[..bufPos]) + b[pos..pos + i]
      {
        buf[bufPos + i] := b[pos + i];
        assert b[pos..pos + i + 1] == b[pos..pos + i] + [b[pos + i]];
        assert buf[..bufPos + (i + 1)] == buf[..bufPos + i] + [b[pos + i]];
      }
      bufPos := bufPos + bytes;
    }

    /** One round of write: a whole hash value straight into the tree, or as much as the buffer takes. */
    method Step(b: seq<byte>, pos: nat) returns (next: nat)
      requires Inv() && pos < |b|
      modifies this`bufPos, this`received, buf, tree`leaves
      ensures Inv() && pos < next <= |b| && received == old(received) + b[pos..next]
    {
      hide Flatten;
      assert BYTES == 24;
      var left := |b| - pos;
      if bufPos == 0 && left >= BYTES {
        next := pos + BYTES;
        assert buf[..bufPos] == [];
        FlattenMore(tree.leaves, b[pos..next]);
        tree.leaves := tree.leaves + [b[pos..next]];
      } else {
        var bytes := if BYTES - bufPos < left then BYTES - bufPos else left;
        next := pos + bytes;
        Copy(b, pos, bytes);
        if bufPos == BYTES { EmptyBuffer(); }
      }
      received := received + b[pos..next];
    }

    /** The full buffer becomes a leaf. */
    method EmptyBuffer()
      requires buf.Length == bufPos == BYTES
      modifies this`bufPos, tree`leaves
      ensures bufPos == 0 && Flatten(tree.leaves) + buf[..bufPos] == old(Flatten(tree.leaves) + buf[..bufPos])
    {
      FlattenMore(tree.leaves, buf[..]);
      assert buf[..BYTES] == buf[..];
      tree.leaves := tree.leaves + [buf[..]];
      bufPos := 0;
      assert buf[..bufPos] == [];
    }

    /** write. */
    method Write(b: seq<byte>) returns (n: nat)
      requires Inv()
      modifies this`bufPos, this`received, buf, tree`leaves
      ensures Inv() && received == old(received) + b && n == |b|
    {
      hide Inv;
      var pos := 0;
      assert b[..0] == [];
      while pos < |b|
        invariant Inv() && pos <= |b| && received == old(received) + b[..pos]
      {
        ghost var was := pos;
        pos := Step(b, pos);
        assert b[..pos] == b[..was] + b[was..pos];
      }
      assert b[..|b|] == b;
      n := |b|;
    }

    /** Once the bytes written are those of a list of leaves, the tree has exactly that list. */
    lemma AllReceived(leaves: seq<Digest>)
      requires Inv() && received == Flatten(leaves)
      ensures tree.leaves == leaves && bufPos == 0
    {
      assert |received| == BYTES * |tree.leaves| + bufPos;
      assert buf[..0] == [];
      FlattenUnique(tree.leaves, leaves);
    }
  }

  /** The loop of endData comes to an end exactly when there is a leaf, or nothing to cover. */
  lemma InferenceEnds(leaves: nat, fileSize: nat)
    ensures (exists k: nat :: Covers(k, leaves, fileSize)) <==> leaves > 0 || fileSize == 0
  {
    if leaves > 0 {
      PowerAbove(fileSize);
      MulLe(1, leaves, BASE_BLOCK_SIZE * Pow2(fileSize));
      assert Covers(fileSize, leaves, fileSize);
    } else if fileSize == 0 {
      assert Covers(0, leaves, fileSize);
    }
  }

  /** The block size reached after k rounds of the loop ends it. */
  ghost predicate Covers(k: nat, leaves: nat, fileSize: nat) {
    fileSize <= (BASE_BLOCK_SIZE * Pow2(k)) * leaves
  }

  lemma {:induction false} PowerAbove(n: nat)
    ensures n < Pow2(n)
  {
    if n > 0 { PowerAbove(n - 1); }
  }

  /** The first part of endData: the smallest 1024 * 2^k with which the leaves cover the file. */
  method InferBlockSize(leaves: nat, fileSize: nat) returns (bl: nat)
    requires leaves > 0 || fileSize == 0
    ensures bl >= BASE_BLOCK_SIZE && GroupSize(bl) > 0 && fileSize <= bl * leaves
    ensures bl == BASE_BLOCK_SIZE || (bl / 2) * leaves < fileSize
    ensures forall q: nat :: IsPow2(q) && fileSize <= (BASE_BLOCK_SIZE * q) * leaves ==> bl <= BASE_BLOCK_SIZE * q
  {
    hide *;
    assert BASE_BLOCK_SIZE == 1024 by { BaseIs(); }
    bl := 1024;
    ghost var p := 1;
    PowerOne();
    HalfOf(p, bl, leaves, fileSize);
    while bl * leaves < fileSize
      invariant bl == BASE_BLOCK_SIZE * p && IsPow2(p) && HalfTooSmall(p, leaves, fileSize)
      decreases fileSize - bl * leaves
    {
      DoublePow2(p);
      Doubled(leaves, bl);
      HalfOf(2 * p, bl * 2, leaves, fileSize);
      bl := bl * 2;
      p := 2 * p;
    }
    GroupSizeOf(p);
    HalfOf(p, bl, leaves, fileSize);
    DoublePow2(p);
    forall q: nat | IsPow2(q) && fileSize <= (BASE_BLOCK_SIZE * q) * leaves
      ensures bl <= BASE_BLOCK_SIZE * q
    {
      SmallestPower(p, q, leaves, fileSize);
    }
  }

  /** 1024 * p / 2 would not do. */
  ghost predicate HalfTooSmall(p: nat, leaves: nat, fileSize: nat) {
    p == 1 || (BASE_BLOCK_SIZE * (p / 2)) * leaves < fileSize
  }

  lemma HalfOf(p: nat, bl: nat, leaves: nat, fileSize: nat)
    requires IsPow2(p) && bl == BASE_BLOCK_SIZE * p
    ensures HalfTooSmall(p, leaves, fileSize) <==> bl == BASE_BLOCK_SIZE || (bl / 2) * leaves < fileSize
    ensures p > 1 ==> bl / 2 == BASE_BLOCK_SIZE * (p / 2)
  {
    HalfIs(p);
  }

  lemma HalfIs(p: nat)
    requires IsPow2(p)
    ensures p > 0 && (p > 1 ==> BASE_BLOCK_SIZE * p / 2 == BASE_BLOCK_SIZE * (p / 2))
  {}

  lemma SmallestPower(p: nat, q: nat, leaves: nat, fileSize: nat)
    requires IsPow2(p) && IsPow2(q) && HalfTooSmall(p, leaves, fileSize)
    requires fileSize <= (BASE_BLOCK_SIZE * q) * leaves
    ensures p <= q
  {
    if q < p {
      Pow2Apart(q, p);
      MulLe(BASE_BLOCK_SIZE * q, BASE_BLOCK_SIZE * (p / 2), leaves);
    }
  }

  /** The inferred size is that of the sender, unless the file fits in one block of the inferred size. */
  lemma InferredSize(data: nat, blockSize: nat, bl: nat, leaves: nat)
    requires blockSize >= BASE_BLOCK_SIZE && GroupSize(blockSize) > 0 && leaves == CalcBlocks(data, blockSize)
    requires bl >= BASE_BLOCK_SIZE && GroupSize(bl) > 0 && data <= bl * leaves
             && (bl == BASE_BLOCK_SIZE || (bl / 2) * leaves < data)
    ensures bl == blockSize || (leaves == 1 && data <= bl)
  {
    CalcBlocksBounds(data, blockSize);
    GroupSizeIs(blockSize);
    GroupSizeIs(bl);
    var p, q := GroupSize(bl), GroupSize(blockSize);
    if leaves >= 2 {
      if p < q {
        Pow2Apart(p, q);
        SmallerFails(bl, blockSize, leaves, data);
      } else if q < p {
        Pow2Apart(q, p);
        MulLe(blockSize, bl / 2, leaves);
        assert false;
      }
    }
  }

  lemma SmallerFails(bl: nat, blockSize: nat, leaves: nat, data: nat)
    requires 2 * bl <= blockSize && leaves >= 2 && blockSize * (leaves - 1) < data
    ensures bl * leaves < data
  {
    MulLe(2 * bl, blockSize, leaves - 1);
    assert 2 * bl * (leaves - 1) == bl * leaves + bl * (leaves - 2);
    assert bl * (leaves - 2) >= 0;
  }

  /** endData for a received tree: its root, with the inferred block size, must be the one asked for. */
  method EndData(tree: MerkleTree, tth: Digest) returns (valid: bool)
    requires tree.leaves != []
    modifies tree`blockSize, tree`root
    ensures tree.blockSize > 0 && CalcBlocks(tree.fileSize, tree.blockSize) <= |tree.leaves|
    ensures valid <==> tth == TreeRoot(tree.h, tree.leaves[..CalcBlocks(tree.fileSize, tree.blockSize)])
    ensures forall data: seq<byte>, b: nat ::
              b >= BASE_BLOCK_SIZE && GroupSize(b) > 0 && tree.leaves == FileLeaves(tree.h, data, b)
              && tree.fileSize == |data| ==>
                (valid <==> tth == FileRoot(tree.h, data)) && (tree.blockSize == b || |tree.leaves| == 1)
  {
    hide TreeRoot, FileRoot, FileLeaves, GroupSize, CalcBlocks, IsPow2;
    var bl := InferBlockSize(|tree.leaves|, tree.fileSize);
    tree.blockSize := bl;
    CalcBlocksAtMost(tree.fileSize, bl, |tree.leaves|);
    tree.CalcRoot();
    valid := tth == tree.root;
    forall data: seq<byte>, b: nat | b >= BASE_BLOCK_SIZE && GroupSize(b) > 0
           && tree.leaves == FileLeaves(tree.h, data, b) && tree.fileSize == |data|
      ensures (valid <==> tth == FileRoot(tree.h, data)) && (tree.blockSize == b || |tree.leaves| == 1)
    {
      ReceivedRoot(tree.h, data, b, bl);
    }
  }

  /** With the inferred size, the leaves a file has for the true one give the root of the file. */
  lemma ReceivedRoot(h: Hasher, data: seq<byte>, b: nat, bl: nat)
    requires b >= BASE_BLOCK_SIZE && GroupSize(b) > 0
    requires var n := |FileLeaves(h, data, b)|;
             bl >= BASE_BLOCK_SIZE && GroupSize(bl) > 0 && |data| <= bl * n
             && (bl == BASE_BLOCK_SIZE || (bl / 2) * n < |data|)
    ensures var l := FileLeaves(h, data, b);
            && l != [] && CalcBlocks(|data|, bl) <= |l| && TreeRoot(h, l[..CalcBlocks(|data|, bl)]) == FileRoot(h, data)
            && (bl == b || |l| == 1)
  {
    hide TreeRoot, FileRoot, FileLeaves, CalcBlocks, GroupSize;
    var l := FileLeaves(h, data, b);
    FitsIs(b, |data|);
    FileLeavesCount(h, data, b);
    RootFromLeaves(h, data, b);
    InferredSize(|data|, b, bl, |l|);
    if bl != b { CalcBlocksIs(|data|, bl, 1); }
    assert l[..|l|] == l;
  }

  lemma FitsIs(b: nat, size: nat)
    requires b >= BASE_BLOCK_SIZE && GroupSize(b) > 0
    ensures Fits(b, size)
  {}
}
