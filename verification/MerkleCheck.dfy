/**
 A download checked against the tree of its file: leaves are compared as they complete, before the bytes are passed
 on.
*/
module MerkleCheck {
  import opened Bits
  import opened MerkleHash
  import opened MerkleTree
  import opened MerkleRoots
  import opened PieceStream

  /**
   What finalize hashes at the end of a stream: the pieces of what was given, or one empty piece when there is nothing
   at all.
  */
  function LastPieces(given: seq<byte>, alone: bool): seq<seq<byte>> {
    if given != [] then Chunks(given) else if alone then [[]] else []
  }

  class MerkleCheckOutputStream {
    /** The copy of the tree to check against. */
    const realLeaves: seq<Digest>
    const realRoot: Digest
    const realSize: nat
    const cur: MerkleTree
    const buf: array<byte>
    var bufPos: nat
    var verified: nat
    /** Everything passed on to the wrapped stream. */
    var sink: seq<byte>
    /** Where the data starts in the file, and everything written here. */
    ghost const start: nat
    ghost var given: seq<byte>

    /** The tree of what was given so far, and the tail waiting in the buffer. */
    ghost predicate Inv()
      reads this, cur, buf
    {
      && buf.Length == BASE_BLOCK_SIZE && bufPos < BASE_BLOCK_SIZE && buf[..bufPos] == Tail(given)
      && cur.Inv() && cur.fed == FullPieces(given) && cur.fileSize + bufPos == start + |given| && cur.blockSize > 0
    }

    /** The leaves verified are those of the real tree. */
    ghost predicate Checked()
      reads this, cur
    {
      verified <= |cur.leaves| && verified <= |realLeaves| && cur.leaves[..verified] == realLeaves[..verified]
    }

    /** The leaves completed by what was given. */
    ghost function Completed(): seq<Digest>
      reads this, cur
    {
      cur.pre + Groups(cur.h, LeafHashes(cur.h, FullPieces(given)), GroupSize(cur.blockSize))
    }

    constructor (tree: MerkleTree, start: nat, zero: Digest)
      requires tree.blockSize > 0 && start % tree.blockSize == 0
      ensures Inv() && Checked() && fresh(cur) && fresh(buf) && given == [] && sink == [] && this.start == start
      ensures realLeaves == tree.leaves && realRoot == tree.root && realSize == tree.fileSize
      ensures cur.h == tree.h && cur.blockSize == tree.blockSize
      ensures cur.pre == if start / tree.blockSize > |tree.leaves| then [] else tree.leaves[..start / tree.blockSize]
    {
      realLeaves, realRoot, realSize := tree.leaves, tree.root, tree.fileSize;
      cur := new MerkleTree(tree.h, tree.blockSize, zero);
      buf, bufPos, verified, sink, given, this.start := new byte[1024], 0, 0, [], [], start;
      new;
      var nBlocks := start / tree.blockSize;
      cur.Load(start, if nBlocks > |realLeaves| then [] else realLeaves[..nBlocks]);
      assert buf[..0] == [];
    }

    /** memcpy into the buffer. */
    method Copy(b: seq<byte>, pos: nat, bytes: nat)
      requires buf.Length == BASE_BLOCK_SIZE && bufPos + bytes <= BASE_BLOCK_SIZE && pos + bytes <= |b|
      modifies this`bufPos, buf
      ensures bufPos == old(bufPos) + bytes && buf[..bufPos] == old(buf[..bufPos]) + b[pos..pos + bytes]
    {
      for i := 0 to bytes
        invariant bufPos == old(bufPos)
        invariant buf[..bufPos + i] == old(buf[..bufPos]) + b[pos..pos + i]
      {
        buf[bufPos + i] := b[pos + i];
        assert b[pos..pos + i + 1] == b[pos..pos + i] + [b[pos + i]];
        assert buf[..bufPos + (i + 1)] == buf[..bufPos + i] + [b[pos + i]];
      }
      bufPos := bufPos + bytes;
    }

    /** The first half of commitBytes: what fits goes into the buffer, and a full buffer into the tree. */
    method TopUp(b: seq<byte>) returns (pos: nat)
      requires Inv() && bufPos != 0
      modifies this`bufPos, this`given, buf, cur`blocks, cur`leaves, cur`fed, cur`fileSize
      ensures Inv() && pos <= |b| && given == old(given) + b[..pos] && (pos < |b| ==> bufPos == 0)
    {
      hide Rep, Chunks, LeafHashes, MerkleTree.Inv;
      var bytes := if BASE_BLOCK_SIZE - bufPos < |b| then BASE_BLOCK_SIZE - bufPos else |b|;
      pos := bytes;
      PiecesAppend(given, b[..bytes]);
      Copy(b, 0, bytes);
      given := given + b[..bytes];
      if bufPos == BASE_BLOCK_SIZE {
        OnePiece(buf[..]);
        assert buf[..bufPos] == buf[..];
        cur.Update(buf[..]);
        bufPos := 0;
        assert buf[..0] == [];
      } else {
        ShortPieces(buf[..bufPos]);
      }
    }

    /** commitBytes. */
    method CommitBytes(b: seq<byte>)
      requires Inv()
      modifies this`bufPos, this`given, buf, cur`blocks, cur`leaves, cur`fed, cur`fileSize
      ensures Inv() && given == old(given) + b
    {
      hide Rep, Chunks, LeafHashes, MerkleTree.Inv, Tail, FullPieces;
      var pos := 0;
      assert b[..0] == [];
      if bufPos != 0 { pos := TopUp(b); }
      assert old(given) + b[..pos] + b[pos..] == old(given) + b;
      if pos < |b| { CommitRest(b[pos..]); } else { assert b[pos..] == []; }
    }

    /** The second half, with an empty buffer: whole pieces go to the tree, the rest into the buffer. */
    method CommitRest(b: seq<byte>)
      requires Inv() && bufPos == 0 && b != []
      modifies this`bufPos, this`given, buf, cur`blocks, cur`leaves, cur`fed, cur`fileSize
      ensures Inv() && given == old(given) + b
    {
      hide Rep, Chunks, LeafHashes, MerkleTree.Inv, Tail, FullPieces;
      var left := |b|;
      var part := left - left % BASE_BLOCK_SIZE;
      assert buf[..0] == [] && [] + b == b;
      PiecesAppend(given, b);
      SplitPieces(b, part);
      if part > 0 {
        cur.Update(b[..part]);
      }
      Copy(b, part, left - part);
      given := given + b;
      assert b[part..part + (left - part)] == b[part..];
    }

    /** checkTrees; false is the exception. */
    method CheckTrees() returns (ok: bool)
      requires Checked()
      modifies this`verified
      ensures Checked() && (ok <==> cur.leaves <= realLeaves) && (ok ==> verified == |cur.leaves|)
    {
      while |cur.leaves| > verified
        invariant Checked()
        decreases |cur.leaves| - verified
      {
        if |cur.leaves| > |realLeaves| || cur.leaves[verified] != realLeaves[verified] {
          return false;
        }
        assert cur.leaves[..verified + 1] == cur.leaves[..verified] + [cur.leaves[verified]];
        verified := verified + 1;
      }
      assert cur.leaves[..verified] == cur.leaves;
      return true;
    }

    /** write: the bytes are passed on only when every leaf they complete is the real one. */
    method Write(b: seq<byte>) returns (ok: bool)
      requires Inv() && Checked()
      modifies this`bufPos, this`given, this`verified, this`sink, buf, cur`blocks, cur`leaves, cur`fed, cur`fileSize
      ensures Inv() && Checked() && given == old(given) + b && sink == if ok then old(sink) + b else old(sink)
      ensures cur.leaves == Completed() && (ok <==> Completed() <= realLeaves) && (ok ==> verified == |Completed()|)
    {
      hide GroupSize, Groups, Rest, LeafHashes, Covers, Decreasing, Below, FullPieces, Tail;
      ghost var before := cur.leaves;
      CommitBytes(b);
      CompletedGrow(cur.h, cur.pre, old(given), b, GroupSize(cur.blockSize));
      assert before <= cur.leaves;
      ok := CheckTrees();
      if ok { sink := sink + b; }
    }

    /** flush: the last leaf, and with all leaves there the root, or else the leaves one by one. */
    method Flush() returns (ok: bool)
      requires Inv() && Checked()
      requires (cur.blockSize >= BASE_BLOCK_SIZE && GroupSize(cur.blockSize) > 0) || start + |given| <= cur.blockSize
      requires start <= cur.blockSize * |cur.pre|
      modifies this`bufPos, this`verified, buf, cur`blocks, cur`leaves, cur`fed, cur`fileSize, cur`root
      ensures cur.leaves
              == cur.pre
              + AllGroups(cur.h, LeafHashes(cur.h, LastPieces(given, cur.pre == [])), GroupSize(cur.blockSize))
      ensures cur.leaves != [] && CalcBlocks(start + |given|, cur.blockSize) <= |cur.leaves|
      ensures ok <==> if |cur.leaves|
              == |realLeaves| then TreeRoot(cur.h, cur.leaves[..CalcBlocks(start + |given|, cur.blockSize)]) == realRoot
                      else cur.leaves <= realLeaves
      ensures given == old(given) && sink == old(sink)
    {
      hide *;
      Facts();
      BaseIs();
      CompletedLast(cur.h, cur.pre, given, GroupSize(cur.blockSize));
      LastLeaves(cur.h, cur.pre, given, start, cur.blockSize);
      LastFed(given);
      ghost var before, last := cur.leaves, LastPieces(given, cur.pre == []);
      if bufPos != 0 {
        ShortChunk(buf[..bufPos]);
        cur.Update(buf[..bufPos]);
      }
      bufPos := 0;
      EmptyIff(cur);
      cur.Finalize();
      assert cur.fed == last;
      KeepChecked(before);
      if |cur.leaves| == |realLeaves| {
        ok := cur.root == realRoot;
      } else {
        ok := CheckTrees();
        SameLength(cur.leaves, realLeaves);
      }
    }

    /** What Inv and Checked say, and what the leaves are. */
    lemma Facts()
      requires Inv() && Checked()
      ensures buf.Length == BASE_BLOCK_SIZE && bufPos < BASE_BLOCK_SIZE && buf[..bufPos] == Tail(given)
      ensures cur.Inv() && cur.fed == FullPieces(given) && cur.fileSize + bufPos == start + |given| && cur.blockSize > 0
      ensures cur.leaves == cur.pre + Groups(cur.h, LeafHashes(cur.h, FullPieces(given)), GroupSize(cur.blockSize))
      ensures verified <= |cur.leaves| && verified <= |realLeaves| && cur.leaves[..verified] == realLeaves[..verified]
    {
      hide Groups, Rest, LeafHashes, Covers, GroupSize, FullPieces, Tail;
    }

    lemma KeepChecked(before: seq<Digest>)
      requires verified <= |before| && verified <= |realLeaves| && before[..verified] == realLeaves[..verified]
               && before <= cur.leaves
      ensures Checked()
    {}
  }

  lemma SameLength(a: seq<Digest>, b: seq<Digest>)
    ensures a <= b && |a| == |b| ==> a == b
  {}

  lemma OnePiece(d: seq<byte>)
    requires |d| == BASE_BLOCK_SIZE
    ensures Chunks(d) == [d] && FullPieces(d) == [d] && Tail(d) == []
  {
    WholePieces(d);
    assert d != [];
  }

  lemma ShortChunk(d: seq<byte>)
    requires |d| < BASE_BLOCK_SIZE
    ensures Chunks(d) == [d]
  {}

  lemma SplitPieces(b: seq<byte>, part: nat)
    requires part == |b| - |b| % BASE_BLOCK_SIZE
    ensures FullPieces(b) == (if part > 0 then Chunks(b[..part]) else []) && Tail(b) == b[part..]
  {
    assert b == b[..part] + b[part..];
    assert part % BASE_BLOCK_SIZE == 0;
    WholePieces(b[..part]);
    PiecesAppend(b[..part], b[part..]);
    ShortPieces(b[part..]);
    assert [] + b[part..] == b[part..];
    if part == 0 { assert b[part..] == b; }
  }

  lemma {:induction false} GroupsGrow(h: Hasher, a: seq<Digest>, b: seq<Digest>, g: nat)
    requires a <= b
    ensures Groups(h, a, g) <= Groups(h, b, g)
    decreases |a|
  {
    if g > 0 && |a| >= g {
      hide TreeRoot;
      assert a[..g] == b[..g] && a[g..] <= b[g..];
      GroupsGrow(h, a[g..], b[g..], g);
    }
  }

  lemma CompletedGrow(h: Hasher, pre: seq<Digest>, given: seq<byte>, b: seq<byte>, g: nat)
    ensures pre + Groups(h, LeafHashes(h, FullPieces(given)), g) <= pre
            + Groups(h, LeafHashes(h, FullPieces(given + b)), g)
  {
    hide Groups;
    PiecesAppend(given, b);
    LeafHashesPrefix(h, FullPieces(given), FullPieces(given + b));
    GroupsGrow(h, LeafHashes(h, FullPieces(given)), LeafHashes(h, FullPieces(given + b)), g);
  }

  /** The full pieces and the tail are the pieces at the end. */
  lemma LastFed(given: seq<byte>)
    ensures (if Tail(given) == [] then FullPieces(given) else FullPieces(given) + [Tail(given)])
            == LastPieces(given, false)
    ensures given == [] ==> Tail(given) == [] && FullPieces(given) == []
    ensures given != [] ==> LastPieces(given, false) != [] && LastPieces(given, true) == LastPieces(given, false)
    ensures LastPieces([], true) == [[]] && LastPieces([], false) == []
  {
    ChunksAre(given);
  }

  lemma CompletedLast(h: Hasher, pre: seq<Digest>, given: seq<byte>, g: nat)
    ensures pre + Groups(h, LeafHashes(h, FullPieces(given)), g) <= pre
            + AllGroups(h, LeafHashes(h, LastPieces(given, pre == [])), g)
  {
    hide Groups, AllGroups;
    var last := LastPieces(given, pre == []);
    ChunksAre(given);
    assert FullPieces(given) <= last;
    LeafHashesPrefix(h, FullPieces(given), last);
    GroupsPrefix(h, LeafHashes(h, FullPieces(given)), LeafHashes(h, last), g);
  }

  /** The leaves at the end cover the bytes. */
  lemma LastLeaves(h: Hasher, pre: seq<Digest>, given: seq<byte>, start: nat, blockSize: nat)
    requires blockSize > 0
             && ((blockSize >= BASE_BLOCK_SIZE && GroupSize(blockSize) > 0) || start + |given| <= blockSize)
    requires start <= blockSize * |pre|
    ensures var all := pre + AllGroups(h, LeafHashes(h, LastPieces(given, pre == [])), GroupSize(blockSize));
            all != [] && CalcBlocks(start + |given|, blockSize) <= |all|
  {
    var last := LastPieces(given, pre == []);
    var vs := LeafHashes(h, last);
    hide *;
    LastIs(h, given, pre == [], GroupSize(blockSize));
    if start + |given| <= blockSize {
      CalcBlocksIs(start + |given|, blockSize, 1);
    } else if given == [] {
      CalcBlocksAtMost(start, blockSize, |pre|);
    } else {
      var n := GivenBlocks(h, given, blockSize);
      SumBlocks(start, |given|, blockSize, |pre|, n);
      CalcBlocksAtMost(start + |given|, blockSize, |pre| + n);
    }
  }

  lemma LastIs(h: Hasher, given: seq<byte>, alone: bool, g: nat)
    ensures given != [] ==> LastPieces(given, alone) == Chunks(given)
    ensures given != [] || alone ==> AllGroups(h, LeafHashes(h, LastPieces(given, alone)), g) != []
  {
    if given != [] || alone { SomeGroup(h, LeafHashes(h, LastPieces(given, alone)), g); }
  }

  lemma SumBlocks(s: nat, t: nat, b: nat, m: nat, n: nat)
    requires s <= b * m && t <= b * n
    ensures s + t <= b * (m + n)
  {}

  lemma GivenBlocks(h: Hasher, given: seq<byte>, blockSize: nat) returns (n: nat)
    requires blockSize >= BASE_BLOCK_SIZE && GroupSize(blockSize) > 0 && given != []
    ensures n == |AllGroups(h, LeafHashes(h, Chunks(given)), GroupSize(blockSize))| && |given| <= blockSize * n && n > 0
  {
    FileLeavesCount(h, given, blockSize);
    LeavesAre(h, given, blockSize);
    n := CalcBlocks(|given|, blockSize);
    CalcBlocksBounds(|given|, blockSize);
  }

  lemma EmptyIff(tree: MerkleTree)
    requires tree.Inv()
    ensures tree.leaves == [] && tree.blocks == [] <==> tree.pre == [] && tree.fed == []
  {
    hide TreeRoot, GroupSize;
    if tree.leaves == [] && tree.blocks == [] {
      NothingFed(tree.h, tree.leaves, tree.blocks, tree.pre, LeafHashes(tree.h, tree.fed), GroupSize(tree.blockSize));
    }
  }
}
