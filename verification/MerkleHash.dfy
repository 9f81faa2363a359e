/** Hash trees: the root of a file by recursion over its bytes, and the same root from any level of its tree. */
module MerkleHash {
  import opened Bits

  /** A hash value: TigerHash makes 24 bytes. */
  const BYTES := 24
  type Digest = d: seq<byte> | |d|
  == 24 witness [0, 0, 0, 0, 0, 0, 0, 0, 0, 0, 0, 0, 0, 0, 0, 0, 0, 0, 0, 0, 0, 0, 0, 0]

  /** The hash function; nothing is assumed of it. */
  type Hasher = seq<byte> -> Digest

  const BASE_BLOCK_SIZE := 1024

  /** The hash of up to 1024 bytes of data. */
  function LeafHash(h: Hasher, chunk: seq<byte>): Digest {
    h([0] + chunk)
  }

  /** combine. */
  function Combine(h: Hasher, a: Digest, b: Digest): Digest {
    h([1] + a + b)
  }

  // ---------- powers of two ----------

  predicate IsPow2(n: nat) {
    n == 1 || (n > 1 && n % 2 == 0 && IsPow2(n / 2))
  }

  /** The largest power of two below n. */
  function Split(n: nat): (p: nat)
    requires n >= 2
    ensures p < n <= 2 * p
  {
    if n == 2 then 1 else 2 * Split((n + 1) / 2)
  }

  lemma {:induction false} SplitIs(n: nat, p: nat)
    requires n >= 2 && p < n <= 2 * p && IsPow2(p)
    ensures Split(n) == p
  {
    if n > 2 { SplitIs((n + 1) / 2, p / 2); }
  }

  lemma {:induction false} SplitPow2(n: nat)
    requires n >= 2
    ensures IsPow2(Split(n))
  {
    if n > 2 { SplitPow2((n + 1) / 2); }
  }

  /** Distinct powers of two are at least a factor of two apart. */
  lemma {:induction false} Pow2Apart(p: nat, q: nat)
    requires IsPow2(p) && IsPow2(q) && p < q
    ensures 2 * p <= q
  {
    if p > 1 { Pow2Apart(p / 2, q / 2); }
  }

  // ---------- the tree over a list of hashes ----------

  /** The left subtree is over the largest power of two of hashes that leaves some for the right. */
  function TreeRoot(h: Hasher, vs: seq<Digest>): Digest
    requires vs != []
    decreases |vs|
  {
    if |vs| == 1 then vs[0]
    else Combine(h, TreeRoot(h, vs[..Split(|vs|)]), TreeRoot(h, vs[Split(|vs|)..]))
  }

  /** Subtrees join when the left is full and the right is no larger. */
  lemma JoinRoots(h: Hasher, x: seq<Digest>, y: seq<Digest>)
    requires IsPow2(|x|) && 1 <= |y| <= |x|
    ensures TreeRoot(h, x + y) == Combine(h, TreeRoot(h, x), TreeRoot(h, y))
  {
    SplitIs(|x + y|, |x|);
    assert (x + y)[..|x|] == x && (x + y)[|x|..] == y;
  }

  // ---------- the next level: full groups of g, and the rest ----------

  /** The roots of the full groups of g; with g = 0 there are none. */
  function Groups(h: Hasher, vs: seq<Digest>, g: nat): seq<Digest>
    decreases |vs|
  {
    if g == 0 || |vs| < g then [] else [TreeRoot(h, vs[..g])] + Groups(h, vs[g..], g)
  }

  /** What is after the last full group. */
  function Rest(vs: seq<Digest>, g: nat): (r: seq<Digest>)
    ensures |r| <= |vs| && (g > 0 ==> |r| < g)
    decreases |vs|
  {
    if g == 0 || |vs| < g then vs else Rest(vs[g..], g)
  }

  /** The roots of all groups, the last of which may be short. */
  function AllGroups(h: Hasher, vs: seq<Digest>, g: nat): seq<Digest> {
    Groups(h, vs, g) + if Rest(vs, g) == [] then [] else [TreeRoot(h, Rest(vs, g))]
  }

  lemma {:induction false} GroupsSnoc(h: Hasher, vs: seq<Digest>, v: Digest, g: nat)
    ensures var r := Rest(vs, g) + [v];
            if |r| == g then Groups(h, vs + [v], g) == Groups(h, vs, g) + [TreeRoot(h, r)] && Rest(vs + [v], g) == []
            else Groups(h, vs + [v], g) == Groups(h, vs, g) && Rest(vs + [v], g) == r
    decreases |vs|
  {
    if g > 0 && |vs| >= g {
      assert (vs + [v])[..g] == vs[..g] && (vs + [v])[g..] == vs[g..] + [v];
      GroupsSnoc(h, vs[g..], v, g);
    } else if |vs| + 1 == g {
      assert (vs + [v])[..g] == vs + [v] && (vs + [v])[g..] == [];
    }
  }

  /** How many groups n hashes make. */
  function GroupCount(n: nat, g: nat): nat
    requires g > 0
  {
    if n < g then (if n == 0 then 0 else 1) else 1 + GroupCount(n - g, g)
  }

  lemma {:induction false} AllGroupsCount(h: Hasher, vs: seq<Digest>, g: nat)
    requires g > 0
    ensures |AllGroups(h, vs, g)| == GroupCount(|vs|, g)
    decreases |vs|
  {
    if |vs| >= g { AllGroupsCount(h, vs[g..], g); }
  }

  lemma {:induction false} GroupCountMono(m: nat, n: nat, g: nat)
    requires g > 0 && m <= n
    ensures GroupCount(m, g) <= GroupCount(n, g) && (n > 0 ==> GroupCount(n, g) > 0)
    decreases n
  {
    if m >= g { GroupCountMono(m - g, n - g, g); } else if n >= g { GroupCountMono(0, n - g, g); }
  }

  lemma {:induction false} GroupCountAdd(m: nat, n: nat, g: nat)
    requires g > 0 && m % g == 0
    ensures GroupCount(m + n, g) == GroupCount(m, g) + GroupCount(n, g)
    decreases m
  {
    if m >= g {
      LessG(m, g);
      GroupCountAdd(m - g, n, g);
    }
  }

  lemma LessG(m: nat, g: nat)
    requires m >= g > 0
    ensures (m - g) % g == m % g
  {
    DivModUnique(m - g, g, m / g - 1, m % g);
  }

  /** A power of two of hashes makes a power of two of full groups. */
  lemma {:induction false} GroupCountPow2(p: nat, g: nat)
    requires IsPow2(p) && IsPow2(g) && g <= p
    ensures p % g == 0 && IsPow2(GroupCount(p, g))
  {
    if p > g {
      Pow2Apart(g, p);
      GroupCountPow2(p / 2, g);
      DivModUnique(p, g, 2 * (p / 2 / g), 0);
      GroupCountAdd(p / 2, p / 2, g);
    } else {
      assert GroupCount(0, g) == 0;
    }
  }

  lemma AllGroupsStep(h: Hasher, vs: seq<Digest>, g: nat)
    requires 0 < g <= |vs|
    ensures AllGroups(h, vs, g) == [TreeRoot(h, vs[..g])] + AllGroups(h, vs[g..], g)
  {
    hide TreeRoot;
  }

  lemma {:induction false} AllGroupsAppend(h: Hasher, x: seq<Digest>, y: seq<Digest>, g: nat)
    requires g > 0 && |x| % g == 0
    ensures AllGroups(h, x + y, g) == AllGroups(h, x, g) + AllGroups(h, y, g)
    decreases |x|
  {
    if x == [] {
      assert x + y == y && AllGroups(h, x, g) == [];
    } else {
      hide TreeRoot, AllGroups;
      LessG(|x|, g);
      assert (x + y)[..g] == x[..g] && (x + y)[g..] == x[g..] + y;
      AllGroupsStep(h, x, g);
      AllGroupsStep(h, x + y, g);
      AllGroupsAppend(h, x[g..], y, g);
      assert AllGroups(h, x + y, g) == [TreeRoot(h, x[..g])] + (AllGroups(h, x[g..], g) + AllGroups(h, y, g));
    }
  }

  lemma OneGroup(h: Hasher, vs: seq<Digest>, g: nat)
    requires 1 <= |vs| <= g
    ensures AllGroups(h, vs, g) == [TreeRoot(h, vs)] && TreeRoot(h, AllGroups(h, vs, g)) == TreeRoot(h, vs)
  {
    if |vs| == g {
      assert vs[..g] == vs && vs[g..] == [];
      assert Groups(h, vs[g..], g) == [] && Rest(vs[g..], g) == [];
    }
    assert AllGroups(h, vs, g) == [TreeRoot(h, vs)];
  }

  /** The root does not depend on the level it is computed from. */
  lemma {:induction false} RootOfGroups(h: Hasher, vs: seq<Digest>, g: nat)
    requires vs != [] && IsPow2(g)
    ensures AllGroups(h, vs, g) != [] && TreeRoot(h, AllGroups(h, vs, g)) == TreeRoot(h, vs)
    decreases |vs|
  {
    if |vs| <= g {
      OneGroup(h, vs, g);
    } else {
      var p := Split(|vs|);
      SplitPow2(|vs|);
      if p < g { Pow2Apart(p, g); }
      GroupCountPow2(p, g);
      var x, y := vs[..p], vs[p..];
      assert x + y == vs;
      AllGroupsAppend(h, x, y, g);
      AllGroupsCount(h, x, g);
      AllGroupsCount(h, y, g);
      GroupCountMono(|y|, p, g);
      GroupCountMono(0, |y|, g);
      RootOfGroups(h, x, g);
      RootOfGroups(h, y, g);
      JoinRoots(h, AllGroups(h, x, g), AllGroups(h, y, g));
    }
  }

  // ---------- files ----------

  /**
   The tree of a file, by its bytes: up to 1024 are hashed directly; more are split after the largest 1024 times a
   power of two below.
  */
  function FileRoot(h: Hasher, data: seq<byte>): Digest
    decreases |data|
  {
    if |data| <= BASE_BLOCK_SIZE then LeafHash(h, data)
    else
      var l := BASE_BLOCK_SIZE * Split((|data| + BASE_BLOCK_SIZE - 1) / BASE_BLOCK_SIZE);
      Combine(h, FileRoot(h, data[..l]), FileRoot(h, data[l..]))
  }

  /** The data in pieces of 1024 bytes; no data is one empty piece. */
  function Chunks(data: seq<byte>): (c: seq<seq<byte>>)
    ensures c != []
    decreases |data|
  {
    if |data| <= BASE_BLOCK_SIZE then [data] else [data[..BASE_BLOCK_SIZE]] + Chunks(data[BASE_BLOCK_SIZE..])
  }

  function LeafHashes(h: Hasher, chunks: seq<seq<byte>>): (vs: seq<Digest>)
    ensures |vs| == |chunks|
  {
    if chunks == [] then [] else [LeafHash(h, chunks[0])] + LeafHashes(h, chunks[1..])
  }

  lemma {:induction false} ChunksCount(data: seq<byte>)
    ensures |Chunks(data)| == if data == [] then 1 else (|data| + BASE_BLOCK_SIZE - 1) / BASE_BLOCK_SIZE
    decreases |data|
  {
    if |data| > BASE_BLOCK_SIZE { ChunksCount(data[BASE_BLOCK_SIZE..]); }
  }

  lemma {:induction false} ChunksSplit(data: seq<byte>, m: nat)
    requires 0 < m && 1024 * m < |data|
    ensures Chunks(data) == Chunks(data[..1024 * m]) + Chunks(data[1024 * m..])
    ensures |Chunks(data[..1024 * m])| == m
    decreases m
  {
    var l := 1024 * m;
    if m > 1 {
      var d := data[1024..];
      ChunksSplit(d, m - 1);
      assert d[..l - 1024] == data[..l][1024..] && d[l - 1024..] == data[l..];
      assert data[..l][..1024] == data[..1024];
    }
  }

  lemma {:induction false} LeafHashesAppend(h: Hasher, a: seq<seq<byte>>, b: seq<seq<byte>>)
    ensures LeafHashes(h, a + b) == LeafHashes(h, a) + LeafHashes(h, b)
    decreases |a|
  {
    if a == [] {
      assert a + b == b;
    } else {
      assert (a + b)[1..] == a[1..] + b;
      LeafHashesAppend(h, a[1..], b);
    }
  }

  /** The root of a file is the tree over the hashes of its pieces. */
  lemma {:induction false} FileRootIs(h: Hasher, data: seq<byte>)
    ensures FileRoot(h, data) == TreeRoot(h, LeafHashes(h, Chunks(data)))
    decreases |data|
  {
    if |data| > BASE_BLOCK_SIZE {
      ChunksCount(data);
      var n := |Chunks(data)|;
      var p := Split(n);
      var l := 1024 * p;
      SplitPow2(n);
      ChunksSplit(data, p);
      var x, y := Chunks(data[..l]), Chunks(data[l..]);
      LeafHashesAppend(h, x, y);
      FileRootIs(h, data[..l]);
      FileRootIs(h, data[l..]);
      JoinRoots(h, LeafHashes(h, x), LeafHashes(h, y));
    }
  }
}
