/**
 Hashing a file piece by piece gives the root of its tree: which ways of splitting it into updates do, for which block
 sizes.
*/
module MerkleRoots {
  import opened Bits
  import opened MerkleHash
  import opened MerkleTree

  function Concat(updates: seq<seq<byte>>): seq<byte> {
    if updates == [] then [] else Concat(updates[..|updates| - 1]) + updates[|updates| - 1]
  }

  /** The pieces hashed by a run of updates: an empty update counts only when nothing has been hashed. */
  function Fed(updates: seq<seq<byte>>): seq<seq<byte>> {
    if updates == [] then []
    else
      var before, last := Fed(updates[..|updates| - 1]), updates[|updates| - 1];
      if last == [] && before != [] then before else before + Chunks(last)
  }

  /** With finalize, which makes sure there is at least one piece. */
  function FedAll(updates: seq<seq<byte>>): seq<seq<byte>> {
    if Fed(updates) == [] then [[]] else Fed(updates)
  }

  // ---------- which splits are proper ----------

  /** Every update before a non-empty one is a multiple of 1024 bytes, and the first is not empty unless all are. */
  predicate Proper(updates: seq<seq<byte>>) {
    (forall i :: 0 <= i < |updates| ==> updates[i] == [])
    || (updates[0] != [] && forall i, j :: 0 <= i < j < |updates| && updates[j] != [] ==>
          |updates[i]| % BASE_BLOCK_SIZE == 0)
  }

  predicate AllFull(c: seq<seq<byte>>) {
    forall k :: 0 <= k < |c| ==> |c[k]| == BASE_BLOCK_SIZE
  }

  /** Full pieces, except that the last may be short, and only be empty when alone. */
  predicate WellCut(c: seq<seq<byte>>) {
    forall k :: 0 <= k < |c| ==> if k < |c| - 1 then |c[k]| == BASE_BLOCK_SIZE else 0 < |c[k]| || |c| == 1
  }

  lemma {:induction false} ChunksWellCut(data: seq<byte>)
    ensures WellCut(Chunks(data)) && (data != [] ==> Chunks(data)[|Chunks(data)| - 1] != [])
    ensures AllFull(Chunks(data)) <==> data != [] && |data| % BASE_BLOCK_SIZE == 0
    decreases |data|
  {
    if |data| > BASE_BLOCK_SIZE {
      var d := data[BASE_BLOCK_SIZE..];
      ChunksWellCut(d);
      var c := Chunks(data);
      assert c[1..] == Chunks(d);
      assert forall k :: 1 <= k < |c| ==> c[k] == Chunks(d)[k - 1];
      assert AllFull(c) <==> AllFull(Chunks(d)) by {
        if AllFull(c) { assert forall k :: 0 <= k < |Chunks(d)| ==> Chunks(d)[k] == c[k + 1]; }
      }
    }
  }

  lemma {:induction false} ConcatFull(updates: seq<seq<byte>>)
    requires forall i :: 0 <= i < |updates| ==> |updates[i]| % BASE_BLOCK_SIZE == 0
    ensures |Concat(updates)| % BASE_BLOCK_SIZE == 0
  {
    if updates != [] { ConcatFull(updates[..|updates| - 1]); }
  }

  lemma {:induction false} ConcatStarts(updates: seq<seq<byte>>)
    requires updates != [] && updates[0] != []
    ensures Concat(updates) != []
  {
    if |updates| > 1 { ConcatStarts(updates[..|updates| - 1]); }
  }

  lemma {:induction false} ConcatNone(updates: seq<seq<byte>>)
    requires forall i :: 0 <= i < |updates| ==> updates[i] == []
    ensures Concat(updates) == [] && Fed(updates) == if updates == [] then [] else [[]]
  {
    if updates != [] { ConcatNone(updates[..|updates| - 1]); }
  }

  lemma ChunksJoin(a: seq<byte>, x: seq<byte>)
    requires a != [] && |a| % BASE_BLOCK_SIZE == 0 && x != []
    ensures Chunks(a + x) == Chunks(a) + Chunks(x)
  {
    ChunksSplit(a + x, |a| / BASE_BLOCK_SIZE);
    assert (a + x)[..|a|] == a && (a + x)[|a|..] == x;
  }

  lemma {:induction false} ProperCuts(updates: seq<seq<byte>>)
    requires Proper(updates) && updates != [] && updates[0] != []
    ensures Fed(updates) == Chunks(Concat(updates))
  {
    var n := |updates|;
    var u, x := updates[..n - 1], updates[n - 1];
    if n == 1 {
      assert Concat(u) == [] && Fed(u) == [] && [] + x == x;
    } else {
      assert Proper(u);
      ProperCuts(u);
      if x == [] {
        assert Concat(u) + x == Concat(u);
      } else {
        ConcatFull(u);
        ConcatStarts(u);
        ChunksJoin(Concat(u), x);
      }
    }
  }

  lemma {:induction false} FullCuts(updates: seq<seq<byte>>)
    requires AllFull(Fed(updates))
    ensures forall i :: 0 <= i < |updates| ==> |updates[i]| % BASE_BLOCK_SIZE == 0
    ensures updates != [] ==> updates[0] != []
  {
    if updates != [] {
      var n := |updates|;
      var u, x := updates[..n - 1], updates[n - 1];
      ChunksWellCut(x);
      if x == [] && Fed(u) != [] {
        FullCuts(u);
      } else {
        assert forall k :: 0 <= k < |Fed(u)| ==> Fed(u)[k] == Fed(updates)[k];
        assert forall k :: 0 <= k < |Chunks(x)| ==> Chunks(x)[k] == Fed(updates)[|Fed(u)| + k];
        FullCuts(u);
      }
    }
  }

  lemma {:induction false} CutsProper(updates: seq<seq<byte>>)
    requires WellCut(Fed(updates))
    ensures Proper(updates)
  {
    if updates != [] {
      var n := |updates|;
      var u, x := updates[..n - 1], updates[n - 1];
      if x == [] {
        if Fed(u) != [] { CutsProper(u); }
        NothingFedYet(u);
      } else {
        ChunksWellCut(x);
        assert forall k :: 0 <= k < |Fed(u)| ==> Fed(u)[k] == Fed(updates)[k];
        FullCuts(u);
      }
    }
  }

  lemma {:induction false} NothingFedYet(updates: seq<seq<byte>>)
    ensures Fed(updates) == [] <==> updates == []
  {}

  /** The pieces hashed are those of the whole file exactly when the split into updates is proper. */
  lemma ProperIff(updates: seq<seq<byte>>)
    ensures Proper(updates) <==> FedAll(updates) == Chunks(Concat(updates))
  {
    NothingFedYet(updates);
    ChunksWellCut(Concat(updates));
    if Proper(updates) {
      if forall i :: 0 <= i < |updates| ==> updates[i] == [] { ConcatNone(updates); } else { ProperCuts(updates); }
    }
    if FedAll(updates) == Chunks(Concat(updates)) {
      CutsProper(updates);
    }
  }

  /** The smallest split that is not: an empty update, and then data. */
  lemma EmptyFirst(x: byte)
    ensures !Proper([[], [x]]) && FedAll([[], [x]]) == [[], [x]] && Chunks(Concat([[], [x]])) == [[x]]
  {
    var u: seq<seq<byte>> := [[], [x]];
    assert u[..1] == [[]] && u[..1][..0] == [];
    assert Fed([[]]) == [[]];
    assert Concat(u[..1]) == [];
    assert Fed(u) == [[]] + [[x]];
    assert Concat(u) == [x];
  }

  // ---------- sizes ----------

  /** Block sizes with which a tree makes sense for a file: 1024 * 2^k, or one block for all of it. */
  predicate Fits(blockSize: nat, fileSize: nat) {
    blockSize > 0 && (blockSize >= fileSize || (blockSize >= BASE_BLOCK_SIZE && GroupSize(blockSize) > 0))
  }

  lemma {:induction false} FedSize(updates: seq<seq<byte>>)
    ensures |Concat(updates)| <= BASE_BLOCK_SIZE * |Fed(updates)|
  {
    if updates != [] {
      FedSize(updates[..|updates| - 1]);
      ChunksCount(updates[|updates| - 1]);
    }
  }

  /** Groups of g pieces are as many as blocks of 1024 * g bytes. */
  lemma {:induction false} GroupsAreBlocks(size: nat, m: nat, g: nat)
    requires g > 0 && m >= 1 && CalcBlocks(size, BASE_BLOCK_SIZE) == m
    ensures CalcBlocks(size, BASE_BLOCK_SIZE * g) == GroupCount(m, g)
    decreases m
  {
    var b := BASE_BLOCK_SIZE * g;
    CalcBlocksBounds(size, BASE_BLOCK_SIZE);
    hide CalcBlocks;
    if m <= g {
      if m == g { assert GroupCount(0, g) == 0; }
      CalcBlocksIs(size, b, 1);
    } else {
      CalcBlocksIs(size - b, BASE_BLOCK_SIZE, m - g);
      GroupsAreBlocks(size - b, m - g, g);
      CalcBlocksBounds(size - b, b);
      var k := CalcBlocks(size - b, b);
      assert b * (k + 1) == b * k + b && b * (k - 1) == b * k - b;
      CalcBlocksIs(size, b, k + 1);
    }
  }

  lemma {:induction false} CalcBlocksMono(s: nat, t: nat, b: nat)
    requires b > 0 && s <= t
    ensures CalcBlocks(s, b) <= CalcBlocks(t, b)
  {
    CalcBlocksBounds(t, b);
    CalcBlocksAtMost(s, b, CalcBlocks(t, b));
  }

  /** However the file was split, there are leaves for all its bytes. */
  lemma EnoughLeaves(h: Hasher, size: nat, vs: seq<Digest>, blockSize: nat)
    requires Fits(blockSize, size) && vs != [] && size <= BASE_BLOCK_SIZE * |vs|
    ensures CalcBlocks(size, blockSize) <= |AllGroups(h, vs, GroupSize(blockSize))|
    ensures blockSize > 0
  {
    hide AllGroups, CalcBlocks;
    var g := GroupSize(blockSize);
    GroupSizeIs(blockSize);
    SomeGroup(h, vs, g);
    if blockSize >= size {
      CalcBlocksIs(size, blockSize, 1);
    } else {
      CalcBlocksMono(size, BASE_BLOCK_SIZE * |vs|, blockSize);
      CalcBlocksIs(BASE_BLOCK_SIZE * |vs|, BASE_BLOCK_SIZE, |vs|);
      GroupsAreBlocks(BASE_BLOCK_SIZE * |vs|, |vs|, g);
      AllGroupsCount(h, vs, g);
    }
  }

  lemma SomeGroup(h: Hasher, vs: seq<Digest>, g: nat)
    requires vs != []
    ensures AllGroups(h, vs, g) != []
  {}

  /** The leaves of the tree of a file, with the given block size. */
  function FileLeaves(h: Hasher, data: seq<byte>, blockSize: nat): seq<Digest> {
    AllGroups(h, LeafHashes(h, Chunks(data)), GroupSize(blockSize))
  }

  /** A file has as many leaves as calcBlocks says. */
  lemma FileLeavesCount(h: Hasher, data: seq<byte>, blockSize: nat)
    requires Fits(blockSize, |data|)
    ensures |FileLeaves(h, data, blockSize)| == CalcBlocks(|data|, blockSize)
  {
    hide AllGroups, CalcBlocks;
    var vs, g := LeafHashes(h, Chunks(data)), GroupSize(blockSize);
    ChunksCount(data);
    PieceCount(data);
    GroupSizeIs(blockSize);
    if g > 0 && blockSize >= BASE_BLOCK_SIZE {
      AllGroupsCount(h, vs, g);
      GroupsAreBlocks(|data|, |vs|, g);
    } else {
      CalcBlocksIs(|data|, blockSize, 1);
      if g == 0 { NoGroups(h, vs); } else {
        PiecesInOne(data, blockSize);
        AllGroupsCount(h, vs, 1);
        assert GroupCount(1, 1) == 1 + GroupCount(0, 1);
      }
    }
  }

  lemma PieceCount(data: seq<byte>)
    ensures CalcBlocks(|data|, BASE_BLOCK_SIZE) == |Chunks(data)|
  {
    ChunksCount(data);
  }

  lemma PiecesInOne(data: seq<byte>, blockSize: nat)
    requires |data| <= blockSize <= BASE_BLOCK_SIZE
    ensures |Chunks(data)| == 1 && GroupSize(blockSize) == 1
  {}

  lemma NoGroups(h: Hasher, vs: seq<Digest>)
    requires vs != []
    ensures AllGroups(h, vs, 0) == [TreeRoot(h, vs)]
  {
    assert Rest(vs, 0) == vs && Groups(h, vs, 0) == [];
  }

  /** With every block size that fits, the tree over the leaves has the root of the file. */
  lemma RootFromLeaves(h: Hasher, data: seq<byte>, blockSize: nat)
    requires Fits(blockSize, |data|)
    ensures FileLeaves(h, data, blockSize) != [] && TreeRoot(h, FileLeaves(h, data, blockSize)) == FileRoot(h, data)
  {
    var vs, g := LeafHashes(h, Chunks(data)), GroupSize(blockSize);
    FileRootIs(h, data);
    GroupSizeIs(blockSize);
    if g > 0 {
      RootOfGroups(h, vs, g);
    } else {
      NoGroups(h, vs);
    }
  }

  // ---------- hashing a file ----------

  /** The tree knows nothing exactly when nothing has been fed to it. */
  lemma EmptyTree(h: Hasher, leaves: seq<Digest>, blocks: seq<Block>, fed: seq<seq<byte>>, g: nat)
    requires Rep(h, leaves, blocks, [], LeafHashes(h, fed), g)
    ensures leaves == [] && blocks == [] <==> fed == []
  {
    if leaves == [] && blocks == [] { NothingFed(h, leaves, blocks, [], LeafHashes(h, fed), g); }
  }

  /** A whole run: the updates, and finalize. */
  method HashFile(h: Hasher, updates: seq<seq<byte>>, blockSize: nat, zero: Digest) returns (tree: MerkleTree)
    requires Fits(blockSize, |Concat(updates)|)
    ensures tree.fileSize == |Concat(updates)| && tree.blockSize == blockSize
    ensures Proper(updates) ==>
              tree.root == FileRoot(h, Concat(updates)) && tree.leaves == FileLeaves(h, Concat(updates), blockSize)
    ensures tree.leaves == AllGroups(h, LeafHashes(h, FedAll(updates)), GroupSize(blockSize))
  {
    hide *;
    NoUpdates();
    tree := new MerkleTree(h, blockSize, zero);
    for i := 0 to |updates|
      invariant tree.Inv() && tree.h == h && tree.blockSize == blockSize && tree.pre == []
      invariant tree.fed == Fed(updates[..i]) && tree.fileSize == |Concat(updates[..i])|
    {
      OneUpdate(updates, i);
      TreeEmpty(tree);
      tree.Update(updates[i]);
    }
    assert updates[..|updates|] == updates;
    TreeEmpty(tree);
    FedAllIs(updates);
    SomeLeaf(h, FedAll(updates));
    EnoughLeaves(h, |Concat(updates)|, LeafHashes(h, FedAll(updates)), blockSize);
    tree.Finalize();
    assert [] + AllGroups(h, LeafHashes(h, FedAll(updates)), GroupSize(blockSize))
           == AllGroups(h, LeafHashes(h, FedAll(updates)), GroupSize(blockSize));
    if Proper(updates) {
      ProperIff(updates);
      LeavesAre(h, Concat(updates), blockSize);
      FileLeavesCount(h, Concat(updates), blockSize);
      RootFromLeaves(h, Concat(updates), blockSize);
      assert tree.leaves[..|tree.leaves|] == tree.leaves;
    }
  }

  lemma NoUpdates()
    ensures Fed([]) == [] && Concat([]) == []
  {}

  lemma OneUpdate(updates: seq<seq<byte>>, i: nat)
    requires i < |updates|
    ensures updates[..i + 1] == updates[..i] + [updates[i]]
    ensures Concat(updates[..i + 1]) == Concat(updates[..i]) + updates[i]
    ensures Fed(updates[..i + 1]) == if updates[i] == [] && Fed(updates[..i]) != [] then Fed(updates[..i])
            else Fed(updates[..i]) + Chunks(updates[i])
  {
    assert updates[..i + 1][..i] == updates[..i];
  }

  lemma TreeEmpty(tree: MerkleTree)
    requires tree.Inv() && tree.pre == []
    ensures tree.leaves == [] && tree.blocks == [] <==> tree.fed == []
  {
    hide Rep;
    EmptyTree(tree.h, tree.leaves, tree.blocks, tree.fed, GroupSize(tree.blockSize));
  }

  lemma FedAllIs(updates: seq<seq<byte>>)
    ensures FedAll(updates) == (if Fed(updates) == [] then [[]] else Fed(updates)) && FedAll(updates) != []
    ensures |Concat(updates)| <= BASE_BLOCK_SIZE * |FedAll(updates)|
  {
    FedSize(updates);
  }

  lemma SomeLeaf(h: Hasher, c: seq<seq<byte>>)
    requires c != []
    ensures LeafHashes(h, c) != [] && |LeafHashes(h, c)| == |c|
  {}

  lemma LeavesAre(h: Hasher, data: seq<byte>, blockSize: nat)
    ensures FileLeaves(h, data, blockSize) == AllGroups(h, LeafHashes(h, Chunks(data)), GroupSize(blockSize))
  {}
}
