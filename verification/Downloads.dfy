/** Whole downloads through the checking stream. */
module Downloads {
  import opened Bits
  import opened MerkleHash
  import opened MerkleTree
  import opened MerkleRoots
  import opened PieceStream
  import opened MerkleCheck
  import opened CheckedDownloads

  /** The leaves, root and size are those of the file's tree. */
  ghost predicate IsTreeOf(h: Hasher, leaves: seq<Digest>, root: Digest, size: nat, blockSize: nat, file: seq<byte>) {
    leaves == FileLeaves(h, file, blockSize) && root == FileRoot(h, file) && size == |file|
  }

  /**
   Correct data that ends well passes, and no other correct data does unless hashes collide; nor does other data of
   the right length.
  */
  ghost predicate Correct(h: Hasher, blockSize: nat, start: nat, total: seq<byte>, ok: bool, file: seq<byte>)
    requires blockSize > 0
  {
    && (IsPart(file, start, total) && EndsWell(file, blockSize, start + |total|) ==> ok)
    && (IsPart(file, start, total) && NoCollision(h, CutHashed(h, file, blockSize, start + |total|))
        ==> (ok <==> EndsWell(file, blockSize, start + |total|)))
    && (ok && start + |total| == |file|
        && NoCollision(h, Hashed(h, Chunks(file[..start] + total)) + Hashed(h, Chunks(file)))
        ==> total == file[start..])
  }

  ghost predicate PromiseFor(h: Hasher, leaves: seq<Digest>, root: Digest, size: nat, blockSize: nat, start: nat,
                             total: seq<byte>, ok: bool,
                             file: seq<byte>)
    requires blockSize > 0
  {
    IsTreeOf(h, leaves, root, size, blockSize, file) && Fits(blockSize, |file|) ==>
      Correct(h, blockSize, start, total, ok, file)
  }

  /** Whatever file the tree is of. */
  ghost predicate KeepsPromise(h: Hasher, leaves: seq<Digest>, root: Digest, size: nat, blockSize: nat, start: nat,
                               total: seq<byte>, ok: bool)
    requires blockSize > 0
  {
    forall file: seq<byte> :: PromiseFor(h, leaves, root, size, blockSize, start, total, ok, file)
  }

  /** The leaves that flush ends with. */
  function EndLeaves(h: Hasher, pre: seq<Digest>, given: seq<byte>, blockSize: nat): seq<Digest> {
    pre + AllGroups(h, LeafHashes(h, LastPieces(given, pre == [])), GroupSize(blockSize))
  }

  /** The comparison at the end of flush. */
  ghost predicate Passes(h: Hasher, mine: seq<Digest>, end: nat, blockSize: nat, leaves: seq<Digest>, root: Digest)
    requires blockSize > 0 && mine != [] && CalcBlocks(end, blockSize) <= |mine|
  {
    if |mine| == |leaves| then TreeRoot(h, mine[..CalcBlocks(end, blockSize)]) == root else mine <= leaves
  }

  /** For correct data, flush compares the tree of the file up to the end of the data with the tree of the file. */
  lemma CorrectFlush(h: Hasher, file: seq<byte>, blockSize: nat, n: nat, given: seq<byte>)
    requires Fits(blockSize, |file|) && IsPart(file, blockSize * n, given)
    ensures var (mine, end) := (EndLeaves(h, Before(h, file, blockSize, n), given, blockSize), blockSize * n + |given|);
            && blockSize > 0 && mine != [] && CalcBlocks(end, blockSize) <= |mine|
            && (Passes(h, mine, end, blockSize, FileLeaves(h, file, blockSize), FileRoot(h, file)) <==>
                  Accepts(h, file, blockSize, file[..end]))
  {
    hide *;
    CorrectEnd(h, file, blockSize, n, given);
    PartIs(file, blockSize * n, given);
    EndIs(h, Before(h, file, blockSize, n), given, blockSize);
    FitsLess(blockSize, |file|, blockSize * n + |given|);
    LeavesPass(h, file, blockSize, blockSize * n + |given|);
  }

  lemma LeavesPass(h: Hasher, file: seq<byte>, blockSize: nat, end: nat)
    requires Fits(blockSize, |file|) && end <= |file|
    ensures var mine := FileLeaves(h, file[..end], blockSize);
            && blockSize > 0 && mine != [] && CalcBlocks(end, blockSize) <= |mine|
            && (Passes(h, mine, end, blockSize, FileLeaves(h, file, blockSize), FileRoot(h, file)) <==>
                  Accepts(h, file, blockSize, file[..end]))
  {
    hide FileLeaves, FileRoot, TreeRoot, GroupSize, CalcBlocks;
    var upTo := file[..end];
    FileLeavesCount(h, upTo, blockSize);
    RootFromLeaves(h, upTo, blockSize);
    WholeList(FileLeaves(h, upTo, blockSize));
  }

  lemma WholeList(l: seq<Digest>)
    ensures l[..|l|] == l
  {}

  /** Data of the right length that passes is the file, without collisions. */
  lemma PassedIsFile(h: Hasher, file: seq<byte>, blockSize: nat, n: nat, start: nat, given: seq<byte>, d: seq<byte>)
    requires Fits(blockSize, |file|) && start == blockSize * n && start + |given| == |file|
             && d == file[..start] + given
    requires NoCollision(h, Hashed(h, Chunks(d)) + Hashed(h, Chunks(file)))
    requires var mine := EndLeaves(h, Before(h, file, blockSize, n), given, blockSize);
             && mine != [] && CalcBlocks(|file|, blockSize) <= |mine|
             && Passes(h, mine, |file|, blockSize, FileLeaves(h, file, blockSize), FileRoot(h, file))
    ensures given == file[start..]
  {
    IsPartOf(file, start, given, d);
    hide *;
    SameBefore(h, file, d, blockSize, n);
    CorrectFlush(h, d, blockSize, n, given);
    EqualCounts(h, file, d, blockSize);
    CorrectEnd(h, d, blockSize, n, given);
    EndLeavesAre(h, d, blockSize, n, given);
    RootsPass(h, file, d, blockSize);
    FileRootsApart(h, d, file);
  }

  lemma IsPartOf(file: seq<byte>, start: nat, given: seq<byte>, d: seq<byte>)
    requires start + |given| == |file| && d == file[..start] + given
    ensures IsPart(d, start, given) && d[..|d|] == d && |d| == |file| && d[start..] == given
            && d[..start] == file[..start]
  {}

  lemma EndLeavesAre(h: Hasher, d: seq<byte>, blockSize: nat, n: nat, given: seq<byte>)
    ensures var pre := Before(h, d, blockSize, n);
            EndLeaves(h, pre, given, blockSize)
            == pre + AllGroups(h, LeafHashes(h, LastPieces(given, pre == [])), GroupSize(blockSize))
  {}

  lemma EqualCounts(h: Hasher, file: seq<byte>, d: seq<byte>, blockSize: nat)
    requires Fits(blockSize, |file|) && |d| == |file|
    ensures |FileLeaves(h, d, blockSize)| == |FileLeaves(h, file, blockSize)|
  {
    hide FileLeaves;
    FileLeavesCount(h, file, blockSize);
    FileLeavesCount(h, d, blockSize);
  }

  lemma RootsPass(h: Hasher, file: seq<byte>, d: seq<byte>, blockSize: nat)
    requires Fits(blockSize, |file|) && |d| == |file|
             && |FileLeaves(h, d, blockSize)| == |FileLeaves(h, file, blockSize)|
    requires var mine := FileLeaves(h, d, blockSize);
             && mine != [] && CalcBlocks(|file|, blockSize) <= |mine|
             && Passes(h, mine, |file|, blockSize, FileLeaves(h, file, blockSize), FileRoot(h, file))
    ensures FileRoot(h, d) == FileRoot(h, file)
  {
    hide FileLeaves, FileRoot, TreeRoot, CalcBlocks;
    RootFromLeaves(h, d, blockSize);
    FileLeavesCount(h, d, blockSize);
    var mine := FileLeaves(h, d, blockSize);
    assert mine[..|mine|] == mine;
  }

  /** Files that agree before start have the same leaves there. */
  lemma SameBefore(h: Hasher, file: seq<byte>, d: seq<byte>, blockSize: nat, n: nat)
    requires Fits(blockSize, |file|) && |d| == |file| && blockSize * n <= |file|
             && d[..blockSize * n] == file[..blockSize * n]
    ensures Before(h, d, blockSize, n) == Before(h, file, blockSize, n)
  {
    hide FileLeaves, Fits;
    if n >= 1 {
      FrontLeaves(h, file, blockSize, n);
      FrontLeaves(h, d, blockSize, n);
    }
  }

  /** While no write has thrown, every completed block, done bytes in all, is the file's, without collisions. */
  lemma CompletedBlocks(h: Hasher, file: seq<byte>, blockSize: nat, g: nat, start: nat, n: nat, given: seq<byte>,
                        done: nat)
    requires blockSize >= BASE_BLOCK_SIZE && g == GroupSize(blockSize) > 0 && start == blockSize * n <= |file|
    requires done == blockSize * |Groups(h, LeafHashes(h, FullPieces(given)), g)|
    requires Before(h, file, blockSize, n)
             + Groups(h, LeafHashes(h, FullPieces(given)), g) <= FileLeaves(h, file, blockSize)
    requires NoCollision(h, GroupsHashed(h, FullPieces(given), g) + GroupsHashed(h, Chunks(file[start..]), g))
    ensures done <= |given| && start + done <= |file| && given[..done] == file[start..start + done]
  {
    FitsIs(blockSize, |file|, 0);
    hide *;
    LeavesFrom(h, file, blockSize, start, n);
    var mine, all, d := Groups(h, LeafHashes(h, FullPieces(given)), g), FileLeaves(h, file, blockSize), file[start..];
    BeforeIs(h, file, blockSize, n);
    if start < |file| || start == 0 {
      DropFront(all[..n], mine, all, FileLeaves(h, d, blockSize));
      MatchingBytes(h, given, d, blockSize, g);
      assert d[..done] == file[start..start + done];
    } else {
      assert |mine| == 0;
    }
  }

  lemma BeforeIs(h: Hasher, file: seq<byte>, blockSize: nat, n: nat)
    requires n <= |FileLeaves(h, file, blockSize)|
    ensures Before(h, file, blockSize, n) == FileLeaves(h, file, blockSize)[..n]
  {}

  lemma DropFront(pre: seq<Digest>, mine: seq<Digest>, all: seq<Digest>, rest: seq<Digest>)
    requires pre + mine <= all && all == pre + rest
    ensures mine <= rest
  {
    assert all[|pre|..] == rest && (pre + mine)[|pre|..] == mine;
  }

  lemma {:induction false} ConcatPrefix(writes: seq<seq<byte>>, i: nat)
    requires i <= |writes|
    ensures Concat(writes[..i]) <= Concat(writes)
    decreases |writes|
  {
    var n := |writes|;
    if i < n {
      assert writes[..n - 1][..i] == writes[..i];
      ConcatPrefix(writes[..n - 1], i);
    } else {
      assert writes[..n] == writes;
    }
  }

  /** A write that throws proves that the data is not the file's. */
  lemma FailedWrite(h: Hasher, file: seq<byte>, blockSize: nat, n: nat, given: seq<byte>, total: seq<byte>)
    requires Fits(blockSize, |file|) && given <= total
    requires !(Before(h, file, blockSize, n)
               + Groups(h, LeafHashes(h, FullPieces(given)), GroupSize(blockSize)) <= FileLeaves(h, file, blockSize))
    ensures !IsPart(file, blockSize * n, total)
  {
    if IsPart(file, blockSize * n, total) {
      assert IsPart(file, blockSize * n, given);
      CorrectWrites(h, file, blockSize, n, given);
      assert false;
    }
  }

  /** Every write, until one throws. */
  method WriteAll(s: MerkleCheckOutputStream, writes: seq<seq<byte>>) returns (ok: bool)
    requires s.Inv() && s.Checked() && s.given == [] && s.sink == []
    modifies s`bufPos, s`given, s`verified, s`sink, s.buf, s.cur`blocks, s.cur`leaves, s.cur`fed, s.cur`fileSize
    ensures s.Inv() && s.Checked() && s.given <= Concat(writes) && s.sink <= s.given
    ensures ok ==> s.given == Concat(writes) == s.sink
    ensures !ok ==> !(s.Completed() <= s.realLeaves)
  {
    hide *;
    NoUpdates();
    for i := 0 to |writes|
      invariant s.Inv() && s.Checked() && s.given == Concat(writes[..i]) == s.sink
    {
      OneUpdate(writes, i);
      ConcatPrefix(writes, i + 1);
      ok := s.Write(writes[i]);
      if !ok { return; }
    }
    assert writes[..|writes|] == writes;
    ok := true;
  }

  /** A download from block n on, in any writes, and one flush. */
  method Download(tree: MerkleTree, start: nat, writes: seq<seq<byte>>, zero: Digest)
    returns (s: MerkleCheckOutputStream, ok: bool, ghost n: nat)
    requires tree.blockSize > 0 && start % tree.blockSize == 0 && start / tree.blockSize <= |tree.leaves|
    requires (tree.blockSize >= BASE_BLOCK_SIZE && GroupSize(tree.blockSize) > 0)
             || start + |Concat(writes)| <= tree.blockSize
    ensures start == tree.blockSize * n
    ensures s.sink <= Concat(writes) && (ok ==> s.sink == Concat(writes))
    ensures KeepsPromise(tree.h, tree.leaves, tree.root, tree.fileSize, tree.blockSize, start, Concat(writes), ok)
  {
    hide *;
    n := start / tree.blockSize;
    Multiple(start, tree.blockSize, n);
    s := new MerkleCheckOutputStream(tree, start, zero);
    ok := WriteAll(s, writes);
    if ok {
      ok := s.Flush();
      FlushedDownload(tree.h, tree.leaves, tree.root, tree.fileSize, tree.blockSize, start, n, Concat(writes),
                      s.cur.leaves, ok);
    } else {
      CompletedIs(s);
      FailedDownload(tree.h, tree.leaves, tree.root, tree.fileSize, tree.blockSize, start, n, s.given, Concat(writes));
    }
  }

  lemma Multiple(start: nat, b: nat, n: nat)
    requires b > 0 && start % b == 0 && n == start / b
    ensures start == b * n
  {}

  lemma FailedDownload(h: Hasher, leaves: seq<Digest>, root: Digest, size: nat, blockSize: nat, start: nat, n: nat,
                       given: seq<byte>, total: seq<byte>)
    requires blockSize > 0 && start == blockSize * n && n <= |leaves| && given <= total
    requires !(leaves[..n] + Groups(h, LeafHashes(h, FullPieces(given)), GroupSize(blockSize)) <= leaves)
    ensures KeepsPromise(h, leaves, root, size, blockSize, start, total, false)
  {
    hide Groups, FullPieces, LeafHashes, GroupSize, IsTreeOf, Fits, IsPart;
    forall file: seq<byte>
      ensures PromiseFor(h, leaves, root, size, blockSize, start, total, false, file)
    {
      if IsTreeOf(h, leaves, root, size, blockSize, file) && Fits(blockSize, |file|) {
        TreeIs(h, leaves, root, size, blockSize, file, n);
        FailedWrite(h, file, blockSize, n, given, total);
      }
    }
  }

  lemma FlushedDownload(h: Hasher, leaves: seq<Digest>, root: Digest, size: nat, blockSize: nat, start: nat, n: nat,
                        total: seq<byte>,
                        mine: seq<Digest>, ok: bool)
    requires blockSize > 0 && start == blockSize * n && n <= |leaves|
    requires mine == leaves[..n]
             + AllGroups(h, LeafHashes(h, LastPieces(total, leaves[..n] == [])), GroupSize(blockSize))
    requires mine != [] && CalcBlocks(start + |total|, blockSize) <= |mine|
    requires ok <==> if |mine| == |leaves| then TreeRoot(h, mine[..CalcBlocks(start + |total|, blockSize)]) == root
             else mine <= leaves
    ensures KeepsPromise(h, leaves, root, size, blockSize, start, total, ok)
  {
    hide *;
    EndIs(h, leaves[..n], total, blockSize);
    PassesIs(h, mine, start + |total|, blockSize, leaves, root);
    forall file: seq<byte>
      ensures PromiseFor(h, leaves, root, size, blockSize, start, total, ok, file)
    {
      if IsTreeOf(h, leaves, root, size, blockSize, file) && Fits(blockSize, |file|) {
        TreeIs(h, leaves, root, size, blockSize, file, n);
        EndOfDownload(h, file, blockSize, n, start, total, ok, mine);
      }
      PromiseIs(h, leaves, root, size, blockSize, start, total, ok, file);
    }
    PromiseKept(h, leaves, root, size, blockSize, start, total, ok);
  }

  lemma PromiseKept(h: Hasher, leaves: seq<Digest>, root: Digest, size: nat, blockSize: nat, start: nat,
                    total: seq<byte>, ok: bool)
    requires blockSize > 0
             && forall file: seq<byte> :: PromiseFor(h, leaves, root, size, blockSize, start, total, ok, file)
    ensures KeepsPromise(h, leaves, root, size, blockSize, start, total, ok)
  {
    hide PromiseFor;
  }

  lemma PromiseIs(h: Hasher, leaves: seq<Digest>, root: Digest, size: nat, blockSize: nat, start: nat, total: seq<byte>,
                  ok: bool, file: seq<byte>)
    requires blockSize > 0
    requires IsTreeOf(h, leaves, root, size, blockSize, file) && Fits(blockSize, |file|) ==>
               Correct(h, blockSize, start, total, ok, file)
    ensures PromiseFor(h, leaves, root, size, blockSize, start, total, ok, file)
  {
    hide Correct, IsTreeOf, Fits;
  }

  lemma CompletedIs(s: MerkleCheckOutputStream)
    ensures s.Completed()
            == s.cur.pre + Groups(s.cur.h, LeafHashes(s.cur.h, FullPieces(s.given)), GroupSize(s.cur.blockSize))
  {}

  lemma TreeIs(h: Hasher, leaves: seq<Digest>, root: Digest, size: nat, blockSize: nat, file: seq<byte>, n: nat)
    requires IsTreeOf(h, leaves, root, size, blockSize, file) && n <= |leaves|
    ensures leaves == FileLeaves(h, file, blockSize) && root == FileRoot(h, file)
            && Before(h, file, blockSize, n) == leaves[..n]
  {}

  lemma EndIs(h: Hasher, pre: seq<Digest>, given: seq<byte>, blockSize: nat)
    ensures EndLeaves(h, pre, given, blockSize)
            == pre + AllGroups(h, LeafHashes(h, LastPieces(given, pre == [])), GroupSize(blockSize))
  {}

  lemma PassesIs(h: Hasher, mine: seq<Digest>, end: nat, blockSize: nat, leaves: seq<Digest>, root: Digest)
    requires blockSize > 0 && mine != [] && CalcBlocks(end, blockSize) <= |mine|
    ensures Passes(h, mine, end, blockSize, leaves, root) <==>
            if |mine| == |leaves| then TreeRoot(h, mine[..CalcBlocks(end, blockSize)]) == root else mine <= leaves
  {}

  lemma EndOfDownload(h: Hasher, file: seq<byte>, blockSize: nat, n: nat, start: nat, total: seq<byte>, ok: bool,
                      mine: seq<Digest>)
    requires Fits(blockSize, |file|) && start == blockSize * n && blockSize > 0
    requires mine == EndLeaves(h, Before(h, file, blockSize, n), total, blockSize)
    requires mine != [] && CalcBlocks(start + |total|, blockSize) <= |mine|
    requires ok <==> Passes(h, mine, start + |total|, blockSize, FileLeaves(h, file, blockSize), FileRoot(h, file))
    ensures Correct(h, blockSize, start, total, ok, file)
  {
    hide *;
    if IsPart(file, start, total) && EndsWell(file, blockSize, start + |total|) {
      GoodEnd(h, file, blockSize, n, start, total);
    }
    if IsPart(file, start, total) { ExactEnd(h, file, blockSize, n, start, total); }
    if ok && start + |total| == |file| {
      var d := file[..start] + total;
      if NoCollision(h, Hashed(h, Chunks(d)) + Hashed(h, Chunks(file))) {
        PassedIsFile(h, file, blockSize, n, start, total, d);
      }
    }
    CorrectIs(h, blockSize, start, total, ok, file);
  }

  lemma CorrectIs(h: Hasher, blockSize: nat, start: nat, total: seq<byte>, ok: bool, file: seq<byte>)
    requires blockSize > 0
    requires IsPart(file, start, total) && EndsWell(file, blockSize, start + |total|) ==> ok
    requires IsPart(file, start, total) && NoCollision(h, CutHashed(h, file, blockSize, start + |total|))
             ==> (ok <==> EndsWell(file, blockSize, start + |total|))
    requires ok && start + |total| == |file|
             && NoCollision(h, Hashed(h, Chunks(file[..start] + total)) + Hashed(h, Chunks(file)))
             ==> total == file[start..]
    ensures Correct(h, blockSize, start, total, ok, file)
  {
    hide IsPart, EndsWell, NoCollision, Hashed, Chunks, CutHashed;
  }

  lemma GoodEnd(h: Hasher, file: seq<byte>, blockSize: nat, n: nat, start: nat, total: seq<byte>)
    requires Fits(blockSize, |file|) && start == blockSize * n && blockSize > 0
    requires IsPart(file, start, total) && EndsWell(file, blockSize, start + |total|)
    ensures var mine := EndLeaves(h, Before(h, file, blockSize, n), total, blockSize);
            && mine != [] && CalcBlocks(start + |total|, blockSize) <= |mine|
            && Passes(h, mine, start + |total|, blockSize, FileLeaves(h, file, blockSize), FileRoot(h, file))
  {
    hide *;
    PartIs(file, start, total);
    CorrectFlush(h, file, blockSize, n, total);
    FlushAccepts(h, file, blockSize, start + |total|);
  }

  /** Correct data passes exactly when it ends well, without collisions. */
  lemma ExactEnd(h: Hasher, file: seq<byte>, blockSize: nat, n: nat, start: nat, total: seq<byte>)
    requires Fits(blockSize, |file|) && start == blockSize * n && blockSize > 0 && IsPart(file, start, total)
    ensures var (mine, end) := (EndLeaves(h, Before(h, file, blockSize, n), total, blockSize), start + |total|);
            && mine != [] && CalcBlocks(end, blockSize) <= |mine|
            && (NoCollision(h, CutHashed(h, file, blockSize, end)) ==>
                  (Passes(h, mine, end, blockSize, FileLeaves(h, file, blockSize), FileRoot(h, file)) <==>
                     EndsWell(file, blockSize, end)))
  {
    hide *;
    PartIs(file, start, total);
    CorrectFlush(h, file, blockSize, n, total);
    if NoCollision(h, CutHashed(h, file, blockSize, start + |total|)) {
      FlushExactly(h, file, blockSize, start + |total|);
    }
  }
}
