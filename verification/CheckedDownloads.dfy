/** What checking a download gives: correct data passes, and data that passes is correct unless the hash collides. */
module CheckedDownloads {
  import opened Bits
  import opened MerkleHash
  import opened MerkleTree
  import opened MerkleRoots
  import opened PieceStream
  import opened MerkleCheck

  // ---------- correct data ----------

  /** Data written from block n of the file on, as far as it goes. */
  ghost predicate IsPart(file: seq<byte>, start: nat, given: seq<byte>) {
    start + |given| <= |file| && given == file[start..start + |given|]
  }

  /** The leaves of whole blocks at the front are leaves of the file. */
  lemma FrontLeaves(h: Hasher, file: seq<byte>, blockSize: nat, n: nat)
    requires Fits(blockSize, |file|) && blockSize * n <= |file| && n >= 1
    ensures n <= |FileLeaves(h, file, blockSize)|
            && FileLeaves(h, file[..blockSize * n], blockSize) == FileLeaves(h, file, blockSize)[..n]
  {
    hide *;
    FitsPositive(blockSize, |file|);
    var start := blockSize * n;
    Positive(blockSize, n);
    if start == |file| {
      LeavesFrom(h, file, blockSize, start, n);
      assert file[..start] == file;
      var l := FileLeaves(h, file, blockSize);
      assert l[..|l|] == l;
    } else {
      FitsLarge(blockSize, |file|);
      LeavesSplitFront(h, file, blockSize, n);
    }
  }

  lemma LeavesSplitFront(h: Hasher, file: seq<byte>, blockSize: nat, n: nat)
    requires BASE_BLOCK_SIZE <= blockSize && GroupSize(blockSize) > 0 && n >= 1 && blockSize * n < |file|
    ensures n <= |FileLeaves(h, file, blockSize)|
            && FileLeaves(h, file[..blockSize * n], blockSize) == FileLeaves(h, file, blockSize)[..n]
  {
    var g := GroupSize(blockSize);
    GroupSizeIs(blockSize);
    var m := g * n;
    Regrouped(blockSize, g, n);
    ChunksSplit(file, m);
    var a, b := Chunks(file[..blockSize * n]), Chunks(file[blockSize * n..]);
    hide *;
    LeafHashesAppend(h, a, b);
    var x, y := LeafHashes(h, a), LeafHashes(h, b);
    AllGroupsAppend(h, x, y, g);
    AllGroupsCount(h, x, g);
    CountMultiple(n, g);
    FirstPart(AllGroups(h, x, g), AllGroups(h, y, g));
    LeavesAre(h, file, blockSize);
    LeavesAre(h, file[..blockSize * n], blockSize);
    assert (AllGroups(h, x, g) + AllGroups(h, y, g))[..n] == AllGroups(h, x, g);
  }

  /** The leaves before start. */
  function Before(h: Hasher, file: seq<byte>, blockSize: nat, n: nat): seq<Digest> {
    if n <= |FileLeaves(h, file, blockSize)| then FileLeaves(h, file, blockSize)[..n] else []
  }

  /** While correct data comes in, every completed leaf is a leaf of the file: write never throws. */
  lemma CorrectWrites(h: Hasher, file: seq<byte>, blockSize: nat, n: nat, given: seq<byte>)
    requires Fits(blockSize, |file|) && IsPart(file, blockSize * n, given)
    ensures Before(h, file, blockSize, n)
            + Groups(h, LeafHashes(h, FullPieces(given)), GroupSize(blockSize)) <= FileLeaves(h, file, blockSize)
  {
    hide Groups, AllGroups, FileLeaves, LeafHashes, FullPieces, Chunks, GroupSize;
    var start, all, g := blockSize * n, FileLeaves(h, file, blockSize), GroupSize(blockSize);
    LeavesFrom(h, file, blockSize, start, n);
    if start < |file| || start == 0 {
      PartGroups(h, file[start..], blockSize, given);
    } else {
      assert given == [];
      ShortPieces(given);
      NoGroupsYet(h, g);
    }
  }

  lemma PartGroups(h: Hasher, d: seq<byte>, blockSize: nat, given: seq<byte>)
    requires given <= d
    ensures Groups(h, LeafHashes(h, FullPieces(given)), GroupSize(blockSize)) <= FileLeaves(h, d, blockSize)
  {
    hide *;
    assert d == given + d[|given|..];
    PiecesPrefix(given, d[|given|..]);
    LeavesAre(h, d, blockSize);
    LeafHashesPrefix(h, FullPieces(given), Chunks(d));
    GroupsPrefix(h, LeafHashes(h, FullPieces(given)), LeafHashes(h, Chunks(d)), GroupSize(blockSize));
  }

  lemma NoGroupsYet(h: Hasher, g: nat)
    ensures Groups(h, LeafHashes(h, []), g) == [] && AllGroups(h, LeafHashes(h, []), g) == []
  {}

  /** At the end of correct data, the leaves are those of the file up to there. */
  lemma CorrectEnd(h: Hasher, file: seq<byte>, blockSize: nat, n: nat, given: seq<byte>)
    requires Fits(blockSize, |file|) && IsPart(file, blockSize * n, given)
    ensures var pre := Before(h, file, blockSize, n);
            pre + AllGroups(h, LeafHashes(h, LastPieces(given, pre == [])), GroupSize(blockSize))
            == FileLeaves(h, file[..blockSize * n + |given|], blockSize)
  {
    hide *;
    var start, g := blockSize * n, GroupSize(blockSize);
    PartIs(file, start, given);
    LeavesFrom(h, file, blockSize, start, n);
    LastIs(h, given, n == 0, g);
    LeavesAre(h, given, blockSize);
    if n == 0 {
      NoneBefore(h, file, blockSize);
      assert file[..start + |given|] == given;
      if given == [] { EmptyLast(h, blockSize); }
    } else {
      NBefore(h, file, blockSize, n);
      if given == [] {
        FrontLeaves(h, file, blockSize, n);
        NothingLast(h, g);
      } else {
        LaterLeaves(h, file, blockSize, start, n, given);
      }
    }
  }

  lemma PartIs(file: seq<byte>, start: nat, given: seq<byte>)
    requires IsPart(file, start, given)
    ensures start + |given| <= |file| && given == file[start..start + |given|]
  {}

  lemma NoneBefore(h: Hasher, file: seq<byte>, blockSize: nat)
    ensures Before(h, file, blockSize, 0) == []
  {}

  lemma NothingLast(h: Hasher, g: nat)
    ensures AllGroups(h, LeafHashes(h, LastPieces([], false)), g) == []
  {}

  /** Whole blocks in front, and more. */
  lemma LaterLeaves(h: Hasher, file: seq<byte>, blockSize: nat, start: nat, n: nat, given: seq<byte>)
    requires Fits(blockSize, |file|) && IsPart(file, start, given) && start == blockSize * n && n >= 1 && given != []
    requires n <= |FileLeaves(h, file, blockSize)|
    ensures FileLeaves(h, file, blockSize)[..n] + FileLeaves(h, given, blockSize)
            == FileLeaves(h, file[..start + |given|], blockSize)
  {
    var upTo, front := file[..start + |given|], file[..start];
    assert upTo[..start] == front && upTo[start..] == given;
    hide *;
    FitsLess(blockSize, |file|, |upTo|);
    FrontLeaves(h, file, blockSize, n);
    LeavesFrom(h, upTo, blockSize, start, n);
    FrontLeaves(h, upTo, blockSize, n);
  }

  lemma EmptyLast(h: Hasher, blockSize: nat)
    ensures AllGroups(h, LeafHashes(h, LastPieces([], true)), GroupSize(blockSize)) == FileLeaves(h, [], blockSize)
  {
    assert Chunks([]) == [[]];
  }

  lemma NBefore(h: Hasher, file: seq<byte>, blockSize: nat, n: nat)
    requires n >= 1 && n <= |FileLeaves(h, file, blockSize)|
    ensures Before(h, file, blockSize, n) != [] && Before(h, file, blockSize, n) == FileLeaves(h, file, blockSize)[..n]
  {
    hide FileLeaves;
  }

  lemma FitsLess(b: nat, size: nat, less: nat)
    requires Fits(b, size) && less <= size
    ensures Fits(b, less) && b > 0
  {}

  /** The end of the data is the end of the file, or a block boundary of it other than its start. */
  predicate EndsWell(file: seq<byte>, blockSize: nat, end: nat)
    requires blockSize > 0
  {
    end == |file| || (0 < end < |file| && end % blockSize == 0)
  }

  /** What flush compares. */
  ghost predicate Accepts(h: Hasher, file: seq<byte>, blockSize: nat, upTo: seq<byte>) {
    var mine, all := FileLeaves(h, upTo, blockSize), FileLeaves(h, file, blockSize);
    if |mine| == |all| then FileRoot(h, upTo) == FileRoot(h, file) else mine <= all
  }

  /** Flush accepts correct data that ends well. */
  lemma FlushAccepts(h: Hasher, file: seq<byte>, blockSize: nat, end: nat)
    requires Fits(blockSize, |file|) && end <= |file| && EndsWell(file, blockSize, end)
    ensures Accepts(h, file, blockSize, file[..end])
  {
    hide FileLeaves, FileRoot;
    if end == |file| {
      assert file[..end] == file;
    } else {
      var n := end / blockSize;
      assert end == blockSize * n;
      Positive(blockSize, n);
      FrontLeaves(h, file, blockSize, n);
      FitsLess(blockSize, |file|, end);
      FileLeavesCount(h, file[..end], blockSize);
      MoreBlocks(h, file, blockSize, n);
    }
  }

  lemma MoreBlocks(h: Hasher, file: seq<byte>, blockSize: nat, n: nat)
    requires Fits(blockSize, |file|) && blockSize * n < |file|
    ensures n < |FileLeaves(h, file, blockSize)|
  {
    hide *;
    FitsPositive(blockSize, |file|);
    FileLeavesCount(h, file, blockSize);
    BlocksBeyond(|file|, blockSize, n);
  }

  lemma BlocksBeyond(size: nat, b: nat, n: nat)
    requires b > 0 && b * n < size
    ensures n < CalcBlocks(size, b)
  {
    CalcBlocksBounds(size, b);
    hide CalcBlocks;
    if CalcBlocks(size, b) <= n { MulLe(CalcBlocks(size, b), n, b); }
  }

  // ---------- data that passes ----------

  /** Every string hashed for the tree over the pieces cs. */
  ghost function Hashed(h: Hasher, cs: seq<seq<byte>>): set<seq<byte>>
    requires cs != []
    decreases |cs|
  {
    if |cs| == 1 then {[0] + cs[0]}
    else
      var x, y := cs[..Split(|cs|)], cs[Split(|cs|)..];
      {[1] + TreeRoot(h, LeafHashes(h, x)) + TreeRoot(h, LeafHashes(h, y))} + Hashed(h, x) + Hashed(h, y)
  }

  /** No two of the strings have the same hash. */
  ghost predicate NoCollision(h: Hasher, strings: set<seq<byte>>) {
    forall x, y :: x in strings && y in strings && h(x) == h(y) ==> x == y
  }

  lemma SplitLeaves(h: Hasher, cs: seq<seq<byte>>, p: nat)
    requires p <= |cs|
    ensures LeafHashes(h, cs)[..p] == LeafHashes(h, cs[..p]) && LeafHashes(h, cs)[p..] == LeafHashes(h, cs[p..])
  {
    var x, y := cs[..p], cs[p..];
    LeafHashesAppend(h, x, y);
    hide LeafHashes;
    assert cs == x + y;
    TakeDrop(LeafHashes(h, x), LeafHashes(h, y));
  }

  lemma TakeDrop(x: seq<Digest>, y: seq<Digest>)
    ensures (x + y)[..|x|] == x && (x + y)[|x|..] == y
  {}

  /** The string hashed at the root. */
  lemma RootString(h: Hasher, cs: seq<seq<byte>>) returns (s: seq<byte>)
    requires cs != []
    ensures s in Hashed(h, cs) && h(s) == TreeRoot(h, LeafHashes(h, cs)) && |s| > 0
    ensures (s[0] == 0 <==> |cs| == 1) && (|cs| == 1 ==> s == [0] + cs[0])
    ensures |cs| >= 2 ==> var (x, y) := (cs[..Split(|cs|)], cs[Split(|cs|)..]);
                          s == [1] + TreeRoot(h, LeafHashes(h, x)) + TreeRoot(h, LeafHashes(h, y))
  {
    if |cs| == 1 {
      s := [0] + cs[0];
      assert LeafHashes(h, cs) == [LeafHash(h, cs[0])];
    } else {
      var p := Split(|cs|);
      SplitLeaves(h, cs, p);
      s := [1] + TreeRoot(h, LeafHashes(h, cs[..p])) + TreeRoot(h, LeafHashes(h, cs[p..]));
    }
  }

  lemma SplitString(a: Digest, b: Digest, c: Digest, d: Digest)
    requires [1] + a + b == [1] + c + d
    ensures a == c && b == d
  {
    var s, t := [1] + a + b, [1] + c + d;
    assert s[1..25] == a && t[1..25] == c && s[25..] == b && t[25..] == d;
  }

  /** Without collisions among the strings hashed, equal roots come from equal pieces. */
  lemma {:induction false} RootsApart(h: Hasher, a: seq<seq<byte>>, b: seq<seq<byte>>)
    requires a != [] && b != [] && NoCollision(h, Hashed(h, a) + Hashed(h, b))
    requires TreeRoot(h, LeafHashes(h, a)) == TreeRoot(h, LeafHashes(h, b))
    ensures a == b
    decreases |a|
  {
    hide TreeRoot, LeafHashes, Split, Hashed, NoCollision;
    var s := RootString(h, a);
    var t := RootString(h, b);
    SameString(h, Hashed(h, a) + Hashed(h, b), s, t);
    if |a| == 1 {
      assert |b| == 1;
      assert s[1..] == a[0] && t[1..] == b[0];
    } else {
      var p, q := Split(|a|), Split(|b|);
      SplitString(TreeRoot(h, LeafHashes(h, a[..p])), TreeRoot(h, LeafHashes(h, a[p..])),
                  TreeRoot(h, LeafHashes(h, b[..q])), TreeRoot(h, LeafHashes(h, b[q..])));
      PartsApart(h, a, b);
      RootsApart(h, a[..p], b[..q]);
      RootsApart(h, a[p..], b[q..]);
      PutTogether(a, p);
      PutTogether(b, q);
    }
  }

  lemma SameString(h: Hasher, strings: set<seq<byte>>, s: seq<byte>, t: seq<byte>)
    requires NoCollision(h, strings) && s in strings && t in strings && h(s) == h(t)
    ensures s == t
  {}

  lemma PutTogether(a: seq<seq<byte>>, p: nat)
    requires p <= |a|
    ensures a == a[..p] + a[p..]
  {}

  lemma PartsApart(h: Hasher, a: seq<seq<byte>>, b: seq<seq<byte>>)
    requires |a| >= 2 && |b| >= 2 && NoCollision(h, Hashed(h, a) + Hashed(h, b))
    ensures var (p, q) := (Split(|a|), Split(|b|));
            NoCollision(h, Hashed(h, a[..p]) + Hashed(h, b[..q]))
            && NoCollision(h, Hashed(h, a[p..]) + Hashed(h, b[q..]))
  {
    HashedParts(h, a);
    HashedParts(h, b);
    hide Hashed, NoCollision;
    var p, q := Split(|a|), Split(|b|);
    NoCollisionLess(h, Hashed(h, a) + Hashed(h, b), Hashed(h, a[..p]) + Hashed(h, b[..q]));
    NoCollisionLess(h, Hashed(h, a) + Hashed(h, b), Hashed(h, a[p..]) + Hashed(h, b[q..]));
  }

  lemma HashedParts(h: Hasher, cs: seq<seq<byte>>)
    requires |cs| >= 2
    ensures Hashed(h, cs[..Split(|cs|)]) <= Hashed(h, cs) && Hashed(h, cs[Split(|cs|)..]) <= Hashed(h, cs)
  {}

  lemma {:induction false} ChunksUnique(a: seq<byte>, b: seq<byte>)
    requires Chunks(a) == Chunks(b)
    ensures a == b
    decreases |a|
  {
    var c, d := Chunks(a), Chunks(b);
    if |a| > BASE_BLOCK_SIZE {
      assert |c| >= 2;
      assert c[1..] == d[1..];
      ChunksUnique(a[BASE_BLOCK_SIZE..], b[BASE_BLOCK_SIZE..]);
      assert a == c[0] + a[BASE_BLOCK_SIZE..] && b == d[0] + b[BASE_BLOCK_SIZE..];
    } else {
      assert |d| == 1;
    }
  }

  /** The root of a tree determines the file, without collisions. */
  lemma FileRootsApart(h: Hasher, a: seq<byte>, b: seq<byte>)
    requires NoCollision(h, Hashed(h, Chunks(a)) + Hashed(h, Chunks(b))) && FileRoot(h, a) == FileRoot(h, b)
    ensures a == b
  {
    hide Hashed, NoCollision, Chunks, FileRoot;
    FileRootIs(h, a);
    FileRootIs(h, b);
    RootsApart(h, Chunks(a), Chunks(b));
    ChunksUnique(a, b);
  }

  // ---------- leaves that match ----------

  /** The pieces in full groups. */
  function Grouped(cs: seq<seq<byte>>, g: nat): seq<seq<byte>>
    decreases |cs|
  {
    if g == 0 || |cs| < g then [] else cs[..g] + Grouped(cs[g..], g)
  }

  /** Every string hashed for the groups of the pieces. */
  ghost function GroupsHashed(h: Hasher, cs: seq<seq<byte>>, g: nat): set<seq<byte>>
    decreases |cs|
  {
    if cs == [] then {} else if g == 0 || |cs| < g then Hashed(h, cs)
       else Hashed(h, cs[..g]) + GroupsHashed(h, cs[g..], g)
  }

  /** The first group of the pieces, and its root. */
  lemma FirstGroup(h: Hasher, cs: seq<seq<byte>>, g: nat) returns (c: seq<seq<byte>>)
    requires cs != [] && g > 0
    ensures c == (if |cs| < g then cs else cs[..g]) && c != []
    ensures AllGroups(h, LeafHashes(h, cs), g) != []
            && AllGroups(h, LeafHashes(h, cs), g)[0] == TreeRoot(h, LeafHashes(h, c))
    ensures Hashed(h, c) <= GroupsHashed(h, cs, g)
  {
    hide TreeRoot, Hashed;
    if |cs| < g {
      c := cs;
      OneGroup(h, LeafHashes(h, cs), g);
    } else {
      c := cs[..g];
      SplitLeaves(h, cs, g);
      AllGroupsStep(h, LeafHashes(h, cs), g);
    }
  }

  /** Full groups whose roots are the leaves of b are made of the pieces of b. */
  lemma {:induction false} MatchingPieces(h: Hasher, a: seq<seq<byte>>, b: seq<seq<byte>>, g: nat)
    requires g > 0 && NoCollision(h, GroupsHashed(h, a, g) + GroupsHashed(h, b, g))
    requires Groups(h, LeafHashes(h, a), g) <= AllGroups(h, LeafHashes(h, b), g)
    ensures Grouped(a, g) <= b
    decreases |a|
  {
    if |a| >= g {
      hide TreeRoot, LeafHashes, AllGroups, Hashed, Split;
      FirstMatches(h, a, b, g);
      NextGroups(h, a, b, g);
      MatchingPieces(h, a[g..], b[g..], g);
      FrontBack(b, Grouped(a[g..], g), g);
    }
  }

  /** The first groups are the same pieces. */
  lemma FirstMatches(h: Hasher, a: seq<seq<byte>>, b: seq<seq<byte>>, g: nat)
    requires 0 < g <= |a| && NoCollision(h, GroupsHashed(h, a, g) + GroupsHashed(h, b, g))
    requires Groups(h, LeafHashes(h, a), g) <= AllGroups(h, LeafHashes(h, b), g)
    ensures |b| >= g && a[..g] == b[..g]
  {
    hide TreeRoot, Hashed, Split;
    if b == [] { NoGroupsYet(h, g); }
    var x := FirstGroup(h, a, g);
    var y := FirstGroup(h, b, g);
    hide GroupsHashed, LeafHashes;
    AllGroupsStep(h, LeafHashes(h, a), g);
    RootsApart(h, x, y);
  }

  lemma NextGroups(h: Hasher, a: seq<seq<byte>>, b: seq<seq<byte>>, g: nat)
    requires g > 0 && |a| >= g && |b| >= g && Groups(h, LeafHashes(h, a), g) <= AllGroups(h, LeafHashes(h, b), g)
    ensures Groups(h, LeafHashes(h, a[g..]), g) <= AllGroups(h, LeafHashes(h, b[g..]), g)
  {
    hide TreeRoot, LeafHashes;
    SplitLeaves(h, a, g);
    SplitLeaves(h, b, g);
    AllGroupsStep(h, LeafHashes(h, b), g);
    var s, t := Groups(h, LeafHashes(h, a), g), AllGroups(h, LeafHashes(h, b), g);
    assert s[1..] <= t[1..];
    assert s[1..] == Groups(h, LeafHashes(h, a)[g..], g);
    assert t[1..] == AllGroups(h, LeafHashes(h, b)[g..], g);
  }

  /** Pieces put back together. */
  function Joined(cs: seq<seq<byte>>): seq<byte> {
    if cs == [] then [] else cs[0] + Joined(cs[1..])
  }

  lemma {:induction false} JoinedAppend(a: seq<seq<byte>>, b: seq<seq<byte>>)
    ensures Joined(a + b) == Joined(a) + Joined(b)
    decreases |a|
  {
    if a == [] {
      assert a + b == b;
    } else {
      assert (a + b)[1..] == a[1..] + b;
      JoinedAppend(a[1..], b);
    }
  }

  lemma {:induction false} JoinedChunks(data: seq<byte>)
    ensures Joined(Chunks(data)) == data
    decreases |data|
  {
    if |data| > BASE_BLOCK_SIZE {
      JoinedChunks(data[BASE_BLOCK_SIZE..]);
      assert Chunks(data)[1..] == Chunks(data[BASE_BLOCK_SIZE..]);
    } else {
      assert Joined([data][1..]) == [] && data + [] == data;
    }
  }

  lemma JoinedPrefix(a: seq<seq<byte>>, b: seq<seq<byte>>)
    requires a <= b
    ensures Joined(a) <= Joined(b)
  {
    assert b == a + b[|a|..];
    JoinedAppend(a, b[|a|..]);
  }

  lemma {:induction false} GroupedIs(cs: seq<seq<byte>>, g: nat, h: Hasher)
    requires g > 0
    ensures Grouped(cs, g) <= cs && |Grouped(cs, g)| == g * |Groups(h, LeafHashes(h, cs), g)|
    decreases |cs|
  {
    if |cs| >= g {
      hide TreeRoot, LeafHashes;
      SplitLeaves(h, cs, g);
      GroupedIs(cs[g..], g, h);
      FrontBack(cs, Grouped(cs[g..], g), g);
      TimesNext(g, |Groups(h, LeafHashes(h, cs)[g..], g)|);
    }
  }

  lemma FrontBack(cs: seq<seq<byte>>, more: seq<seq<byte>>, g: nat)
    requires g <= |cs| && more <= cs[g..]
    ensures cs[..g] + more <= cs
  {}

  lemma TimesNext(g: nat, n: nat)
    ensures g * (n + 1) == g * n + g
  {}

  lemma {:induction false} JoinedLength(cs: seq<seq<byte>>)
    requires forall k :: 0 <= k < |cs| ==> |cs[k]| == BASE_BLOCK_SIZE
    ensures |Joined(cs)| == BASE_BLOCK_SIZE * |cs|
  {
    if cs != [] { JoinedLength(cs[1..]); }
  }

  lemma {:induction false} PiecesFull(data: seq<byte>)
    ensures forall k :: 0 <= k < |FullPieces(data)| ==> |FullPieces(data)[k]| == BASE_BLOCK_SIZE
    decreases |data|
  {
    if |data| >= BASE_BLOCK_SIZE { PiecesFull(data[BASE_BLOCK_SIZE..]); }
  }

  /** Joined, the full pieces in full groups are the front of the data. */
  lemma GroupedBytes(h: Hasher, x: seq<byte>, blockSize: nat, g: nat)
    requires g == GroupSize(blockSize) > 0 && blockSize >= BASE_BLOCK_SIZE
    ensures Joined(Grouped(FullPieces(x), g)) <= x
    ensures |Joined(Grouped(FullPieces(x), g))| == blockSize * |Groups(h, LeafHashes(h, FullPieces(x)), g)|
  {
    GroupSizeIs(blockSize);
    BaseIs();
    PiecesFull(x);
    PiecesPrefix(x, []);
    assert x + [] == x;
    hide *;
    GroupedIs(FullPieces(x), g, h);
    var same := Grouped(FullPieces(x), g);
    assert forall k :: 0 <= k < |same| ==> same[k] == FullPieces(x)[k];
    JoinedLength(same);
    JoinedChunks(x);
    PrefixOf(same, FullPieces(x), Chunks(x));
    JoinedPrefix(same, Chunks(x));
    ManyBlocks(g, |Groups(h, LeafHashes(h, FullPieces(x)), g)|, blockSize);
  }

  lemma PrefixOf(a: seq<seq<byte>>, b: seq<seq<byte>>, c: seq<seq<byte>>)
    requires a <= b && b <= c
    ensures a <= c
  {}

  lemma ManyBlocks(g: nat, k: nat, b: nat)
    requires b == 1024 * g
    ensures 1024 * (g * k) == b * k
  {}

  /** Bytes whose completed leaves are leaves of d are bytes of d, block by block, without collisions. */
  lemma MatchingBytes(h: Hasher, x: seq<byte>, d: seq<byte>, blockSize: nat, g: nat)
    requires blockSize >= BASE_BLOCK_SIZE && GroupSize(blockSize) == g > 0
    requires Groups(h, LeafHashes(h, FullPieces(x)), g) <= FileLeaves(h, d, blockSize)
    requires NoCollision(h, GroupsHashed(h, FullPieces(x), g) + GroupsHashed(h, Chunks(d), g))
    ensures var same := blockSize * |Groups(h, LeafHashes(h, FullPieces(x)), g)|;
            same <= |x| && same <= |d| && x[..same] == d[..same]
  {
    hide *;
    LeavesAre(h, d, blockSize);
    MatchingPieces(h, FullPieces(x), Chunks(d), g);
    GroupedBytes(h, x, blockSize, g);
    JoinedChunks(d);
    var same := Grouped(FullPieces(x), g);
    JoinedPrefix(same, Chunks(d));
    CommonFront(Joined(same), x, d);
  }

  lemma CommonFront(a: seq<byte>, x: seq<byte>, d: seq<byte>)
    requires a <= x && a <= d
    ensures x[..|a|] == d[..|a|]
  {}

  // ---------- when flush accepts ----------

  lemma SingleLeaf(h: Hasher, w: seq<byte>, blockSize: nat)
    requires Fits(blockSize, |w|) && |w| <= blockSize
    ensures FileLeaves(h, w, blockSize) == [FileRoot(h, w)]
  {
    hide FileLeaves, FileRoot;
    RootFromLeaves(h, w, blockSize);
    FileLeavesCount(h, w, blockSize);
    CalcBlocksIs(|w|, blockSize, 1);
  }

  /** The front of the data, as far as one block goes. */
  function FirstBlock(v: seq<byte>, blockSize: nat): seq<byte> {
    if |v| <= blockSize then v else v[..blockSize]
  }

  /** The first leaf of the data is the root of its first block. */
  lemma FirstLeaf(h: Hasher, v: seq<byte>, blockSize: nat)
    requires blockSize >= BASE_BLOCK_SIZE && GroupSize(blockSize) > 0
    ensures FileLeaves(h, v, blockSize) != [] && FileLeaves(h, v, blockSize)[0] == FileRoot(h, FirstBlock(v, blockSize))
  {
    var w := FirstBlock(v, blockSize);
    BaseIs();
    FitsIs(blockSize, |v|, |w|);
    assert |w| <= blockSize;
    hide FileLeaves, FileRoot, GroupSize, Fits, Chunks;
    SingleLeaf(h, w, blockSize);
    if |v| > blockSize { FrontLeaves(h, v, blockSize, 1); }
  }

  /** The strings hashed for a file and for the file cut short, as wholes and for the block, from m on, that is cut. */
  ghost function CutHashedAt(h: Hasher, file: seq<byte>, blockSize: nat, end: nat, m: nat): set<seq<byte>>
    requires m <= end <= |file|
  {
    Hashed(h, Chunks(file)) + Hashed(h, Chunks(file[..end])) + Hashed(h, Chunks(file[m..end]))
    + Hashed(h, Chunks(FirstBlock(file[m..], blockSize)))
  }

  ghost function CutHashed(h: Hasher, file: seq<byte>, blockSize: nat, end: nat): set<seq<byte>>
    requires blockSize > 0 && end <= |file|
  {
    CutHashedAt(h, file, blockSize, end, end - end % blockSize)
  }

  lemma NoCollisionLess(h: Hasher, s: set<seq<byte>>, t: set<seq<byte>>)
    requires NoCollision(h, s) && t <= s
    ensures NoCollision(h, t)
  {}

  lemma CutParts(h: Hasher, file: seq<byte>, blockSize: nat, end: nat, m: nat)
    requires m <= end <= |file| && NoCollision(h, CutHashedAt(h, file, blockSize, end, m))
    ensures NoCollision(h, Hashed(h, Chunks(file[..end])) + Hashed(h, Chunks(file)))
    ensures NoCollision(h, Hashed(h, Chunks(file[m..end])) + Hashed(h, Chunks(FirstBlock(file[m..], blockSize))))
  {
    hide NoCollision, Hashed, Chunks;
    var s := CutHashedAt(h, file, blockSize, end, m);
    NoCollisionLess(h, s, Hashed(h, Chunks(file[..end])) + Hashed(h, Chunks(file)));
    NoCollisionLess(h, s, Hashed(h, Chunks(file[m..end])) + Hashed(h, Chunks(FirstBlock(file[m..], blockSize))));
  }

  /** The root of a block cut short is not the root of the block. */
  lemma CutRoot(h: Hasher, file: seq<byte>, blockSize: nat, end: nat, m: nat)
    requires m <= end < |file| && end - m < blockSize && NoCollision(h, CutHashedAt(h, file, blockSize, end, m))
    ensures FileRoot(h, file[m..end]) != FileRoot(h, FirstBlock(file[m..], blockSize))
  {
    hide NoCollision, Hashed, Chunks, FileRoot, CutHashedAt;
    CutParts(h, file, blockSize, end, m);
    var w, full := file[m..end], FirstBlock(file[m..], blockSize);
    assert |w| < |full|;
    if FileRoot(h, w) == FileRoot(h, full) {
      FileRootsApart(h, w, full);
      assert false;
    }
  }

  /** The leaf of a block cut short is not the leaf of the block. */
  lemma CutLeaf(h: Hasher, file: seq<byte>, blockSize: nat, end: nat, n: nat)
    requires blockSize >= BASE_BLOCK_SIZE && GroupSize(blockSize) > 0 && end < |file|
    requires blockSize * n <= end < blockSize * n + blockSize && (end == 0 || blockSize * n < end)
    requires NoCollision(h, CutHashedAt(h, file, blockSize, end, blockSize * n))
    ensures !(FileLeaves(h, file[..end], blockSize) <= FileLeaves(h, file, blockSize))
  {
    hide *;
    var m, upTo := blockSize * n, file[..end];
    var mine, all := FileLeaves(h, upTo, blockSize), FileLeaves(h, file, blockSize);
    CutRoot(h, file, blockSize, end, m);
    FitsIs(blockSize, |file|, end);
    LeavesFrom(h, file, blockSize, m, n);
    LeavesFrom(h, upTo, blockSize, m, n);
    assert upTo[m..] == file[m..end];
    FitsIs(blockSize, end, end - m);
    SingleLeaf(h, file[m..end], blockSize);
    FirstLeaf(h, file[m..], blockSize);
    ApartAt(mine, all, n, FileRoot(h, file[m..end]), FileLeaves(h, file[m..], blockSize));
  }

  lemma ApartAt(mine: seq<Digest>, all: seq<Digest>, n: nat, v: Digest, rest: seq<Digest>)
    requires n <= |mine| && n <= |all| && mine == mine[..n] + [v] && all == all[..n] + rest && rest != []
             && rest[0] != v
    ensures !(mine <= all)
  {
    assert mine[n] == v && all[n] == rest[0];
  }

  lemma FitsIs(b: nat, size: nat, less: nat)
    requires b >= BASE_BLOCK_SIZE && GroupSize(b) > 0
    ensures Fits(b, size) && Fits(b, less)
  {}

  /**
   For correct data, and without collisions, flush accepts exactly the ends of blocks, but not the start of a file
   with data, and the end of the file.
  */
  lemma FlushExactly(h: Hasher, file: seq<byte>, blockSize: nat, end: nat)
    requires Fits(blockSize, |file|) && end <= |file| && NoCollision(h, CutHashed(h, file, blockSize, end))
    ensures Accepts(h, file, blockSize, file[..end]) <==> EndsWell(file, blockSize, end)
  {
    if EndsWell(file, blockSize, end) {
      FlushAccepts(h, file, blockSize, end);
    } else {
      FlushRejects(h, file, blockSize, end);
    }
  }

  lemma BlockOf(end: nat, b: nat) returns (n: nat)
    requires b > 0
    ensures end - end % b == b * n <= end < b * n + b
  {
    n := end / b;
  }

  lemma FlushRejects(h: Hasher, file: seq<byte>, blockSize: nat, end: nat)
    requires Fits(blockSize, |file|) && end < |file| && !EndsWell(file, blockSize, end)
    requires NoCollision(h, CutHashed(h, file, blockSize, end))
    ensures !Accepts(h, file, blockSize, file[..end])
  {
    hide NoCollision, Hashed, Chunks, FileLeaves, FileRoot, CutHashedAt, GroupSize;
    var n := BlockOf(end, blockSize);
    CutParts(h, file, blockSize, end, blockSize * n);
    SameRootSameEnd(h, file, blockSize, end);
    OneLeafOnly(h, file, blockSize, end);
    if blockSize < |file| { CutLeaf(h, file, blockSize, end, n); }
  }

  lemma SameRootSameEnd(h: Hasher, file: seq<byte>, blockSize: nat, end: nat)
    requires end < |file| && NoCollision(h, Hashed(h, Chunks(file[..end])) + Hashed(h, Chunks(file)))
    ensures FileRoot(h, file[..end]) != FileRoot(h, file)
  {
    if FileRoot(h, file[..end]) == FileRoot(h, file) {
      FileRootsApart(h, file[..end], file);
      assert false;
    }
  }

  lemma OneLeafOnly(h: Hasher, file: seq<byte>, blockSize: nat, end: nat)
    requires Fits(blockSize, |file|) && end < |file|
    ensures |file| <= blockSize ==> |FileLeaves(h, file[..end], blockSize)| == |FileLeaves(h, file, blockSize)|
  {
    hide FileLeaves;
    FitsLess(blockSize, |file|, end);
    FileLeavesCount(h, file, blockSize);
    FileLeavesCount(h, file[..end], blockSize);
    if |file| <= blockSize {
      CalcBlocksIs(|file|, blockSize, 1);
      CalcBlocksIs(end, blockSize, 1);
    }
  }

  /**
   Nothing written from the start of a file with data: flush hashes an empty piece, and accepts only on a collision.
  */
  lemma NothingWritten(h: Hasher, file: seq<byte>, blockSize: nat)
    requires Fits(blockSize, |file|) && file != [] && NoCollision(h, CutHashed(h, file, blockSize, 0))
    ensures !Accepts(h, file, blockSize, []) && LastPieces([], true) == [[]]
  {
    hide Accepts, NoCollision, CutHashed;
    assert file[..0] == [];
    FlushExactly(h, file, blockSize, 0);
  }
}
