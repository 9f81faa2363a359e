/** Step 2 of mainSort: the sorted order of every small bucket [t, ss] read off the sorted big bucket ss. */
module BucketScan {
  import opened Bits
  import opened Permutations
  import opened Occurrences
  import opened RadixBuckets
  import opened Rotations
  import opened Shuffles
  import opened MainCompare
  import opened MainQuickSort

  // ---------- two-byte buckets ----------

  /** The first two bytes of rotation i, as one number. */
  function Two(b: seq<byte>, i: nat): (v: nat)
    requires i < |b|
    ensures v < 0x1_0000
  {
    Both(b[i], b[Next(|b|, i)])
  }

  function Both(hi: nat, lo: nat): nat { 256 * hi + lo }

  function PairsTo(b: seq<byte>, k: nat): (s: seq<nat>)
    requires k <= |b|
    ensures |s| == k && forall i: nat :: i < k ==> s[i] == Two(b, i)
  {
    if k == 0 then [] else PairsTo(b, k - 1) + [Two(b, k - 1)]
  }

  function Pairs(b: seq<byte>): (s: seq<nat>)
    ensures |s| == |b| && forall i: nat :: i < |b| ==> s[i] == Two(b, i)
  {
    PairsTo(b, |b|)
  }

  lemma NextBelow(n: nat, i: nat)
    requires i < n
    ensures Next(n, i) < n && Prev(n, i) < n && Next(n, Prev(n, i)) == i && Prev(n, Next(n, i)) == i
  {}

  /** The first two bytes order rotations. */
  lemma PairsOrder(b: seq<byte>, x: nat, y: nat)
    requires x < |b| && y < |b| && |b| >= 2
    ensures Two(b, x) < Two(b, y) ==> Ord(b, x, y)
    ensures Two(b, x) == Two(b, y) ==> Agree(b, x, y, 2)
  {
    NextBelow(|b|, x);
    NextBelow(|b|, y);
    var x', y' := Next(|b|, x), Next(|b|, y);
    if Two(b, x) < Two(b, y) {
      assert b[x] < b[y] || (b[x] == b[y] && b[x'] < b[y']);
      if b[x] < b[y] {
        BytesDecide(b, x, y);
      } else {
        BytesDecide(b, x', y');
        LeNext(b, x, y);
      }
    } else if Two(b, x) == Two(b, y) {
      assert b[x] == b[y] && b[x'] == b[y'];
      OneByte(b, x', y');
    }
  }

  /** A common byte put in front keeps the order. */
  lemma OrdPrev(b: seq<byte>, x: nat, y: nat)
    requires x < |b| && y < |b| && Ord(b, x, y)
    ensures Prev(|b|, x) < |b| && Prev(|b|, y) < |b|
    ensures b[Prev(|b|, x)] == b[Prev(|b|, y)] ==> Ord(b, Prev(|b|, x), Prev(|b|, y))
  {
    NextBelow(|b|, x);
    NextBelow(|b|, y);
    if b[Prev(|b|, x)] == b[Prev(|b|, y)] { LeNext(b, Prev(|b|, x), Prev(|b|, y)); }
  }

  // ---------- rotations below and above the constant one ----------

  /** Rotation x begins with h bytes c and then a smaller one. */
  predicate LowAt(b: seq<byte>, x: nat, c: nat, h: nat)
    requires x < |b|
    decreases h
  {
    if h == 0 then b[x] < c else b[x] == c && LowAt(b, Next(|b|, x), c, h - 1)
  }

  predicate HighAt(b: seq<byte>, x: nat, c: nat, h: nat)
    requires x < |b|
    decreases h
  {
    if h == 0 then b[x] > c else b[x] == c && HighAt(b, Next(|b|, x), c, h - 1)
  }

  ghost predicate Low(b: seq<byte>, x: nat, c: nat) {
    x < |b| && exists h: nat :: LowAt(b, x, c, h)
  }

  ghost predicate High(b: seq<byte>, x: nat, c: nat) {
    x < |b| && exists h: nat :: HighAt(b, x, c, h)
  }

  lemma {:induction false} LowHighLe(b: seq<byte>, x: nat, y: nat, c: nat, h: nat, k: nat, d: nat)
    requires x < |b| && y < |b| && LowAt(b, x, c, h) && HighAt(b, y, c, k)
    ensures LeH(b, x, y, d)
    decreases d
  {
    if d > 0 && h > 0 && k > 0 {
      LowHighLe(b, Next(|b|, x), Next(|b|, y), c, h - 1, k - 1, d - 1);
    }
  }

  lemma {:induction false} LowNotHigh(b: seq<byte>, x: nat, c: nat, h: nat, k: nat)
    requires x < |b| && LowAt(b, x, c, h)
    ensures !HighAt(b, x, c, k)
    decreases h
  {
    if h > 0 && k > 0 { LowNotHigh(b, Next(|b|, x), c, h - 1, k - 1); }
  }

  /** Everything below the constant rotation comes before, and differs from, everything above it. */
  lemma LowHigh(b: seq<byte>, x: nat, y: nat, c: nat)
    requires Low(b, x, c) && High(b, y, c)
    ensures Ord(b, x, y) && x != y
  {
    var h: nat :| LowAt(b, x, c, h);
    var k: nat :| HighAt(b, y, c, k);
    LowHighLe(b, x, y, c, h, k, |b|);
    if x == y { LowNotHigh(b, x, c, h, k); }
  }

  lemma LowPrev(b: seq<byte>, x: nat, c: nat)
    requires x < |b| && b[Prev(|b|, x)] == c
    ensures Low(b, x, c) ==> Low(b, Prev(|b|, x), c)
    ensures High(b, x, c) ==> High(b, Prev(|b|, x), c)
  {
    NextBelow(|b|, x);
    if Low(b, x, c) {
      var h: nat :| LowAt(b, x, c, h);
      assert LowAt(b, Prev(|b|, x), c, h + 1);
    }
    if High(b, x, c) {
      var h: nat :| HighAt(b, x, c, h);
      assert HighAt(b, Prev(|b|, x), c, h + 1);
    }
  }

  lemma LowSecond(b: seq<byte>, x: nat, c: nat)
    requires x < |b| && b[x] == c
    ensures b[Next(|b|, x)] < c ==> Low(b, x, c)
    ensures b[Next(|b|, x)] > c ==> High(b, x, c)
  {
    NextBelow(|b|, x);
    var y := Next(|b|, x);
    if b[y] < c {
      assert LowAt(b, y, c, 0);
      assert LowAt(b, x, c, 1);
    }
    if b[y] > c {
      assert HighAt(b, y, c, 0);
      assert HighAt(b, x, c, 1);
    }
  }

  /** Within k bytes of x there is a byte other than c, or there is none. */
  lemma {:induction false} ConstFor(b: seq<byte>, x: nat, c: nat, k: nat)
    requires x < |b| && k <= |b|
    ensures Low(b, x, c) || High(b, x, c) || forall i :: 0 <= i < k ==> b[Adv(|b|, x, i)] == c
    decreases k
  {
    if k > 0 {
      if b[x] < c {
        assert LowAt(b, x, c, 0);
      } else if b[x] > c {
        assert HighAt(b, x, c, 0);
      } else {
        NextBelow(|b|, x);
        var y := Next(|b|, x);
        ConstFor(b, y, c, k - 1);
        LowPrev(b, y, c);
        forall i | 0 <= i < k && !Low(b, y, c) && !High(b, y, c)
          ensures b[Adv(|b|, x, i)] == c
        {
          if i > 0 {
            AdvNext(|b|, x, i);
            assert b[Adv(|b|, y, i - 1)] == c;
          }
        }
      }
    }
  }

  /** A rotation is below, above, or the block has no byte but c. */
  lemma LowHighConst(b: seq<byte>, x: nat, c: nat)
    requires x < |b|
    ensures Low(b, x, c) || High(b, x, c) || forall y :: 0 <= y < |b| ==> b[y] == c
  {
    ConstFor(b, x, c, |b|);
    if !Low(b, x, c) && !High(b, x, c) {
      forall y | 0 <= y < |b|
        ensures b[y] == c
      {
        var i := if y >= x then y - x else y + |b| - x;
        assert Adv(|b|, x, i) == y;
      }
    }
  }

  // ---------- counting ----------

  ghost predicate Distinct(s: seq<nat>) {
    forall i, j :: 0 <= i < j < |s| ==> s[i] != s[j]
  }

  lemma {:induction false} SetOf(s: seq<nat>) returns (x: set<nat>)
    ensures |x| <= |s| && (Distinct(s) ==> |x| == |s|) && forall y :: y in x <==> y in s
  {
    if s == [] {
      x := {};
    } else {
      var k := |s| - 1;
      var r := SetOf(s[..k]);
      x := r + {s[k]};
      assert s == s[..k] + [s[k]];
    }
  }

  /** Distinct values from a list are no more than the list is long. */
  lemma Pigeons(s: seq<nat>, t: seq<nat>)
    requires Distinct(s) && forall i :: 0 <= i < |s| ==> s[i] in t
    ensures |s| <= |t|
  {
    var x := SetOf(s);
    var y := SetOf(t);
    assert forall z :: z in x ==> z in y;
    SubsetSize(x, y);
  }

  // ---------- the scan ----------

  /**
   What the scan starts from: the block, the pointers by two bytes, the big bucket scanned, and the big buckets done.
  */
  datatype Ctx = Ctx(b: seq<byte>, f0: seq<nat>, ss: nat, done: seq<bool>)

  /** Small bucket [t, ss] is the places from From(c, t) up to To(c, t). */
  ghost function From(c: Ctx, t: nat): nat { Below(Pairs(c.b), 0, 256 * t + c.ss) }
  ghost function To(c: Ctx, t: nat): nat { Below(Pairs(c.b), 0, 256 * t + c.ss + 1) }

  /** Big bucket ss is the places from Left(c) up to Right(c). */
  ghost function Left(c: Ctx): nat { Below(Pairs(c.b), 0, 256 * c.ss) }
  ghost function Right(c: Ctx): nat { Below(Pairs(c.b), 0, 256 * c.ss + 256) }

  /** f0 is in buckets, and the rest of big bucket ss, but for [ss, ss], is in order. */
  ghost predicate Ready(c: Ctx) {
    && |c.b| >= 2 && c.ss < 256 && |c.done| == 256 && !c.done[c.ss] && Bucketed(Pairs(c.b), c.f0)
    && InTurn(c.b, c.f0, Left(c), From(c, c.ss)) && InTurn(c.b, c.f0, To(c, c.ss), Right(c))
  }

  lemma Places(c: Ctx, t: nat)
    requires Ready(c) && t < 256
    ensures Left(c) <= From(c, c.ss) <= To(c, c.ss) <= Right(c) <= |c.b| && From(c, t) <= To(c, t) <= |c.b|
    ensures t != c.ss ==> To(c, t) <= Left(c) || Right(c) <= From(c, t)
  {
    hide Below;
    var p := Pairs(c.b);
    BelowAll(p, 0, 0x1_0000);
    BelowMono(p, 0, 256 * c.ss, 256 * c.ss + c.ss);
    BelowMono(p, 0, 256 * c.ss + c.ss, 256 * c.ss + c.ss + 1);
    BelowMono(p, 0, 256 * c.ss + c.ss + 1, 256 * c.ss + 256);
    BelowMono(p, 0, 256 * c.ss + 256, 0x1_0000);
    BelowMono(p, 0, 256 * t + c.ss, 256 * t + c.ss + 1);
    BelowMono(p, 0, 256 * t + c.ss + 1, 0x1_0000);
    if t < c.ss { BelowMono(p, 0, 256 * t + c.ss + 1, 256 * c.ss); }
    if t > c.ss { BelowMono(p, 0, 256 * c.ss + 256, 256 * t + c.ss); }
  }

  /** The scan's variables: pointers, fill marks, scan marks, and where each filled place came from and went to. */
  datatype State = State(f: seq<nat>, cs: seq<nat>, ce: seq<int>, jl: nat, jr: int, src: seq<nat>, dst: seq<nat>)

  /** Places already scanned, in big bucket ss. */
  ghost predicate Scanned(c: Ctx, s: State, q: int) {
    Left(c) <= q < s.jl || s.jr < q < Right(c)
  }

  /** Places of big bucket ss already in their final order. */
  ghost predicate Known(c: Ctx, s: State, q: int)
    requires |s.cs| == |s.ce| == 256 && c.ss < 256
  {
    Left(c) <= q < s.cs[c.ss] || s.ce[c.ss] < q < Right(c)
  }

  /** Places of [t, ss] already filled. */
  ghost predicate Filled(c: Ctx, s: State, t: nat, p: int)
    requires |s.cs| == |s.ce| == |c.done| == 256 && t < 256
  {
    !c.done[t] && From(c, t) <= p < To(c, t) && (p < s.cs[t] || s.ce[t] < p)
  }

  ghost predicate Shape(c: Ctx, s: State) {
    && |c.done| == 256 && c.ss < 256 && |s.f| == |s.src| == |s.dst| == |c.b| && |s.cs| == |s.ce| == 256
    && (forall t: nat :: t < 256 ==> From(c, t) <= s.cs[t] <= s.ce[t] + 1 <= To(c, t))
    && Left(c) <= s.jl <= s.cs[c.ss] && s.ce[c.ss] <= s.jr < Right(c)
  }

  /** A filled place holds what comes before the rotation scanned for it. */
  ghost predicate FromSource(c: Ctx, s: State, t: nat, p: nat)
    requires Shape(c, s) && t < 256 && p < |c.b|
  {
    && s.src[p] < |c.b| && Scanned(c, s, s.src[p]) && (p < s.cs[t] <==> s.src[p] < s.jl)
    && s.f[s.src[p]] < |c.b| && s.f[p] == Prev(|c.b|, s.f[s.src[p]]) < |c.b| && c.b[s.f[p]] == t
  }

  /** A scanned rotation's predecessor has been put in its bucket, unless that bucket was done before. */
  ghost predicate ToTarget(c: Ctx, s: State, q: nat)
    requires Shape(c, s) && q < |c.b|
  {
    && s.f[q] < |c.b| && Prev(|c.b|, s.f[q]) < |c.b|
    && var t := c.b[Prev(|c.b|, s.f[q])];
       c.done[t] || (Filled(c, s, t, s.dst[q]) && s.dst[q] < |c.b| && s.f[s.dst[q]] == Prev(|c.b|, s.f[q]))
  }

  /** A rotation in final order is below the constant one on the left, above it on the right. */
  ghost predicate Sided(c: Ctx, s: State, q: nat)
    requires Shape(c, s) && q < |c.b|
  {
    s.f[q] < |c.b| && c.b[s.f[q]] == c.ss && if q < s.cs[c.ss] then Low(c.b, s.f[q], c.ss) else High(c.b, s.f[q], c.ss)
  }

  /** Place p, in the bucket where f0 has it, has been filled. */
  ghost predicate FilledHere(c: Ctx, s: State, p: nat)
    requires Ready(c) && Shape(c, s) && p < |c.b|
  {
    var v := Pairs(c.b)[c.f0[p]];
    v % 256 == c.ss && Filled(c, s, v / 256, p)
  }

  ghost predicate RestKept(c: Ctx, s: State)
    requires Ready(c) && Shape(c, s)
  {
    forall p: nat :: p < |c.b| && !FilledHere(c, s, p) ==> s.f[p] == c.f0[p]
  }

  ghost predicate Sourced(c: Ctx, s: State)
    requires Shape(c, s)
  {
    forall t: nat, p: nat :: t < 256 && p < |c.b| && Filled(c, s, t, p) ==> FromSource(c, s, t, p)
  }

  ghost predicate SourcesGrow(c: Ctx, s: State)
    requires Shape(c, s)
  {
    forall t: nat, p: nat, p': nat :: t < 256 && p < p' < |c.b| && Filled(c, s, t, p) && Filled(c, s, t, p') ==>
             s.src[p] < s.src[p']
  }

  ghost predicate Targeted(c: Ctx, s: State)
    requires Shape(c, s)
  {
    forall q: nat :: q < |c.b| && Scanned(c, s, q) ==> ToTarget(c, s, q)
  }

  ghost predicate KnownSides(c: Ctx, s: State)
    requires Shape(c, s)
  {
    forall q: nat :: q < |c.b| && Known(c, s, q) ==> Sided(c, s, q)
  }

  ghost predicate KnownOrder(c: Ctx, s: State)
    requires Shape(c, s)
  {
    forall q: nat, q': nat :: q < q' < |c.b| && Known(c, s, q) && Known(c, s, q')
      ==> Ord(c.b, s.f[q], s.f[q']) && s.f[q] != s.f[q']
  }

  /** What the scan keeps. */
  ghost predicate Scanning(c: Ctx, s: State) {
    && Ready(c) && Shape(c, s) && RestKept(c, s) && Sourced(c, s) && SourcesGrow(c, s)
    && Targeted(c, s) && KnownSides(c, s) && KnownOrder(c, s)
  }

  // ---------- one place scanned ----------

  /** The next place to scan, from the left or from the right. */
  ghost predicate NextScan(c: Ctx, s: State, left: bool)
    requires Shape(c, s)
  {
    if left then s.jl < s.cs[c.ss] else s.ce[c.ss] < s.jr
  }

  function Here(s: State, left: bool): int { if left then s.jl else s.jr }

  lemma HereKnown(c: Ctx, s: State, left: bool)
    requires Scanning(c, s) && NextScan(c, s, left)
    ensures 0 <= Here(s, left) < |c.b| && Known(c, s, Here(s, left)) && !Scanned(c, s, Here(s, left))
    ensures s.jl <= s.jr && s.f[Here(s, left)] < |c.b| && c.b[s.f[Here(s, left)]] == c.ss
    ensures Here(s, left) < s.cs[c.ss] <==> left
    ensures forall q: nat :: Scanned(c, s, q) ==> q < |c.b| && Known(c, s, q) && q != Here(s, left)
  {
    hide Left, Right, From, To, Ready, RestKept, Sourced, SourcesGrow, Targeted, KnownOrder, Low, High;
    Places(c, c.ss);
    assert Sided(c, s, Here(s, left));
  }

  lemma FilledFacts(c: Ctx, s: State, t: nat, p: nat)
    requires Scanning(c, s) && t < 256 && p < |c.b| && Filled(c, s, t, p)
    ensures FromSource(c, s, t, p) && Known(c, s, s.src[p]) && c.b[s.f[s.src[p]]] == c.ss
    ensures Two(c.b, s.f[p]) == 256 * t + c.ss
  {
    hide Left, Right, From, To, Ready, RestKept, SourcesGrow, Targeted, KnownOrder, Low, High;
    var q := s.src[p];
    assert FromSource(c, s, t, p);
    assert Known(c, s, q);
    assert Sided(c, s, q);
    NextBelow(|c.b|, s.f[q]);
  }

  /** Different filled places of a bucket hold different rotations, none of them the one now to be put there. */
  lemma FilledDiffer(c: Ctx, s: State, t: nat, p: nat, p': nat)
    requires Scanning(c, s) && t < 256 && p < p' < |c.b| && Filled(c, s, t, p) && Filled(c, s, t, p')
    ensures s.f[p] != s.f[p'] && Ord(c.b, s.f[p], s.f[p'])
  {
    hide Left, Right, From, To, Ready, RestKept, Targeted, KnownSides, Low, High, Ord, Prev, Next, Known, Scanned,
         Filled;
    FilledFacts(c, s, t, p);
    FilledFacts(c, s, t, p');
    var q, q' := s.src[p], s.src[p'];
    assert q < q';
    assert Ord(c.b, s.f[q], s.f[q']) && s.f[q] != s.f[q'];
    NextBelow(|c.b|, s.f[q]);
    NextBelow(|c.b|, s.f[q']);
    OrdPrev(c.b, s.f[q], s.f[q']);
  }

  lemma NewDiffers(c: Ctx, s: State, left: bool, t: nat, p: nat)
    requires Scanning(c, s) && NextScan(c, s, left) && t < 256 && p < |c.b| && Filled(c, s, t, p)
    ensures s.f[p] != Prev(|c.b|, s.f[Here(s, left)])
  {
    hide Left, Right, From, To, Ready, RestKept, Targeted, KnownSides, Low, High, Ord, Prev, Next, Known, Scanned,
         Filled, Here;
    HereKnown(c, s, left);
    FilledFacts(c, s, t, p);
    var q, j := s.src[p], Here(s, left);
    assert s.f[q] != s.f[j] by {
      if q < j { assert s.f[q] != s.f[j]; } else { assert s.f[j] != s.f[q]; }
    }
    NextBelow(|c.b|, s.f[q]);
    NextBelow(|c.b|, s.f[j]);
  }

  /** All rotations with these two bytes are in the bucket. */
  lemma BucketHas(c: Ctx, t: nat, x: nat)
    requires Ready(c) && t < 256 && x < |c.b| && Two(c.b, x) == 256 * t + c.ss
    ensures From(c, t) <= To(c, t) <= |c.f0| && x in c.f0[From(c, t)..To(c, t)]
  {
    hide Below, InTurn;
    Places(c, t);
    var i := PermOnto(c.f0, |c.b|, x);
    assert InBucket(Pairs(c.b), Pairs(c.b)[c.f0[i]], i);
    assert c.f0[From(c, t)..To(c, t)][i - From(c, t)] == x;
  }

  /** The rotations filled into bucket [t, ss] so far. */
  ghost function FilledList(c: Ctx, s: State, t: nat): (l: seq<nat>)
    requires Shape(c, s) && t < 256 && To(c, t) <= |c.b|
    ensures |l| == (s.cs[t] - From(c, t)) + (To(c, t) - (s.ce[t] + 1))
  {
    s.f[From(c, t)..s.cs[t]] + s.f[s.ce[t] + 1..To(c, t)]
  }

  /** The place of the i-th of them. */
  ghost function FilledPlace(c: Ctx, s: State, t: nat, i: nat): int
    requires Shape(c, s) && t < 256
  {
    if i < s.cs[t] - From(c, t) then From(c, t) + i else s.ce[t] + 1 + i - (s.cs[t] - From(c, t))
  }

  lemma FilledListAt(c: Ctx, s: State, t: nat, i: nat)
    requires Scanning(c, s) && t < 256 && !c.done[t] && To(c, t) <= |c.b| && i < |FilledList(c, s, t)|
    ensures 0 <= FilledPlace(c, s, t, i) < |c.b| && Filled(c, s, t, FilledPlace(c, s, t, i))
    ensures FilledList(c, s, t)[i] == s.f[FilledPlace(c, s, t, i)]
  {
    hide From, To, Left, Right, Ready, RestKept, Sourced, SourcesGrow, Targeted, KnownSides, KnownOrder;
  }

  lemma FilledListFacts(c: Ctx, s: State, t: nat)
    requires Scanning(c, s) && t < 256 && !c.done[t] && To(c, t) <= |c.b|
    ensures Distinct(FilledList(c, s, t))
    ensures forall i :: 0 <= i < |FilledList(c, s, t)| ==>
              FilledList(c, s, t)[i] < |c.b| && Two(c.b, FilledList(c, s, t)[i]) == 256 * t + c.ss
  {
    hide From, To, Ready, RestKept, Sourced, SourcesGrow, Targeted, KnownSides, KnownOrder, FilledList, Filled, Two,
         Prev;
    var l := FilledList(c, s, t);
    forall i: nat | i < |l|
      ensures l[i] < |c.b| && Two(c.b, l[i]) == 256 * t + c.ss
    {
      FilledListAt(c, s, t, i);
      FilledFacts(c, s, t, FilledPlace(c, s, t, i));
    }
    forall i: nat, j: nat | i < j < |l|
      ensures l[i] != l[j]
    {
      FilledListAt(c, s, t, i);
      FilledListAt(c, s, t, j);
      FilledDiffer(c, s, t, FilledPlace(c, s, t, i), FilledPlace(c, s, t, j));
    }
  }

  /** There is room for one more. */
  lemma Room(c: Ctx, s: State, left: bool, t: nat)
    requires Scanning(c, s) && NextScan(c, s, left) && t < 256 && !c.done[t]
    requires s.f[Here(s, left)] < |c.b| && Prev(|c.b|, s.f[Here(s, left)]) < |c.b|
             && c.b[Prev(|c.b|, s.f[Here(s, left)])] == t
    ensures s.cs[t] <= s.ce[t]
  {
    hide Low, High, RestKept, Sourced, SourcesGrow, Targeted, KnownSides, KnownOrder, Ready, Here, From, To, Known,
         Prev, Next, FilledList, Filled, FilledPlace;
    HereKnown(c, s, left);
    Places(c, t);
    var k := Prev(|c.b|, s.f[Here(s, left)]);
    NextBelow(|c.b|, s.f[Here(s, left)]);
    BucketHas(c, t, k);
    FilledListFacts(c, s, t);
    var m := FilledList(c, s, t);
    var l := m + [k];
    forall i | 0 <= i < |l|
      ensures l[i] in c.f0[From(c, t)..To(c, t)]
    {
      BucketHas(c, t, l[i]);
    }
    forall i: nat | i < |m|
      ensures m[i] != k
    {
      FilledListAt(c, s, t, i);
      NewDiffers(c, s, left, t, FilledPlace(c, s, t, i));
    }
    Pigeons(l, c.f0[From(c, t)..To(c, t)]);
  }

  /** A place within a small bucket is where f0 has a rotation of that bucket. */
  lemma BucketOf(c: Ctx, t: nat, p: nat)
    requires Ready(c) && t < 256 && p < |c.b| && From(c, t) <= p < To(c, t)
    ensures c.f0[p] < |c.b| && Pairs(c.b)[c.f0[p]] == 256 * t + c.ss
  {
    hide Below, InTurn;
    var v := Pairs(c.b)[c.f0[p]];
    assert InBucket(Pairs(c.b), v, p);
    if v != 256 * t + c.ss { BucketsApart(Pairs(c.b), v, 256 * t + c.ss, p); }
  }

  /** Nothing to put: on to the next place. */
  function Skip(s: State, left: bool): State {
    if left then s.(jl := s.jl + 1) else s.(jr := s.jr - 1)
  }

  /** k put at the near end of bucket t. */
  function Put(s: State, left: bool, t: nat, p: nat, k: nat): State
    requires t < |s.cs| && t < |s.ce| && p < |s.f| && p < |s.src| && 0 <= Here(s, left) < |s.dst|
  {
    var j := Here(s, left);
    var m := s.(f := s.f[p := k], src := s.src[p := j], dst := s.dst[j := p]);
    if left then m.(cs := s.cs[t := p + 1], jl := s.jl + 1) else m.(ce := s.ce[t := p - 1], jr := s.jr - 1)
  }

  /** The predecessor of the rotation now scanned goes to place p of bucket t. */
  ghost predicate Puts(c: Ctx, s: State, left: bool, t: nat, p: nat, k: nat) {
    && Scanning(c, s) && NextScan(c, s, left) && |s.f| == |s.src| == |s.dst| == |c.b| && |s.cs| == |s.ce| == 256
    && 0 <= Here(s, left) < |c.b| && s.f[Here(s, left)] < |c.b|
    && k == Prev(|c.b|, s.f[Here(s, left)]) < |c.b| && t == c.b[k] && t < 256 && !c.done[t]
    && p == (if left then s.cs[t] else s.ce[t]) < |c.b| && s.cs[t] <= p <= s.ce[t]
  }

  lemma PutShape(c: Ctx, s: State, left: bool, t: nat, p: nat, k: nat)
    requires Puts(c, s, left, t, p, k)
    ensures Shape(c, Put(s, left, t, p, k))
    ensures From(c, t) <= p < To(c, t) && !Known(c, s, p) && !Filled(c, s, t, p) && p != Here(s, left)
    ensures forall q: nat :: Scanned(c, Put(s, left, t, p, k), q) <==> Scanned(c, s, q) || q == Here(s, left)
    ensures forall q: nat :: Known(c, Put(s, left, t, p, k), q) <==> Known(c, s, q) || (t == c.ss && q == p)
    ensures forall u: nat,
            q: nat :: u < 256 ==> (Filled(c, Put(s, left, t, p, k), u, q) <==> Filled(c, s, u, q) || (u == t && q == p))
  {
    hide Left, Right, From, To, Ready, RestKept, Sourced, SourcesGrow, Targeted, KnownSides, KnownOrder, Prev;
    HereKnown(c, s, left);
    Places(c, t);
    Places(c, c.ss);
  }

  lemma ReadySize(c: Ctx)
    requires Ready(c)
    ensures |c.f0| == |c.b| && forall q :: 0 <= q < |c.b| ==> c.f0[q] < |c.b|
  {}

  /** No place lies in two of these buckets. */
  lemma OneBucket(c: Ctx, t: nat, u: nat, p: nat)
    requires From(c, t) <= p < To(c, t) && From(c, u) <= p < To(c, u)
    ensures t == u
  {
    hide Below;
    if t != u { BucketsApart(Pairs(c.b), 256 * t + c.ss, 256 * u + c.ss, p); }
  }

  lemma PutRest(c: Ctx, s: State, left: bool, t: nat, p: nat, k: nat)
    requires Puts(c, s, left, t, p, k)
    ensures Shape(c, Put(s, left, t, p, k)) && RestKept(c, Put(s, left, t, p, k))
  {
    hide Left, Right, From, To, Sourced, SourcesGrow, Targeted, KnownSides, KnownOrder, Prev, Known, Scanned, Filled,
         Pairs, Shape, Ready, Here;
    PutShape(c, s, left, t, p, k);
    var s' := Put(s, left, t, p, k);
    BucketOf(c, t, p);
    ReadySize(c);
    forall q: nat | q < |c.b| && !FilledHere(c, s', q)
      ensures s'.f[q] == c.f0[q]
    {
      PutFields(s, left, t, p, k);
      FilledHereMore(c, s, s', t, p, q);
    }
  }

  lemma PutFields(s: State, left: bool, t: nat, p: nat, k: nat)
    requires t < |s.cs| && t < |s.ce| && p < |s.f| && p < |s.src| && 0 <= Here(s, left) < |s.dst|
    ensures var s' := Put(s, left, t, p, k);
            s'.f == s.f[p := k] && s'.src == s.src[p := Here(s, left)] && s'.dst == s.dst[Here(s, left) := p]
  {}

  lemma FilledHereMore(c: Ctx, s: State, s': State, t: nat, p: nat, q: nat)
    requires Ready(c) && Shape(c, s) && Shape(c, s') && q < |c.b| && p < |c.b| && t < 256
    requires Pairs(c.b)[c.f0[p]] == 256 * t + c.ss
    requires forall u: nat, x: nat :: u < 256 ==> (Filled(c, s', u, x) <==> Filled(c, s, u, x) || (u == t && x == p))
    ensures FilledHere(c, s', q) <==> FilledHere(c, s, q) || q == p
  {
    hide Left, Right, From, To, Filled, Pairs;
  }

  lemma PutSourced(c: Ctx, s: State, left: bool, t: nat, p: nat, k: nat)
    requires Puts(c, s, left, t, p, k)
    ensures Shape(c, Put(s, left, t, p, k)) && Sourced(c, Put(s, left, t, p, k))
  {
    hide Left, Right, From, To, RestKept, SourcesGrow, Targeted, KnownSides, KnownOrder, Prev, Known, Filled, Pairs,
         Ready;
    PutShape(c, s, left, t, p, k);
    HereKnown(c, s, left);
    var s' := Put(s, left, t, p, k);
    PutFields(s, left, t, p, k);
    forall u: nat, q: nat | u < 256 && q < |c.b| && Filled(c, s', u, q)
      ensures FromSource(c, s', u, q)
    {
      if !(u == t && q == p) {
        FilledFacts(c, s, u, q);
        if q == p { FilledWithin(c, s, u, q); OneBucket(c, t, u, p); }
      }
    }
  }

  lemma FilledWithin(c: Ctx, s: State, t: nat, p: nat)
    requires |s.cs| == |s.ce| == |c.done| == 256 && t < 256 && Filled(c, s, t, p)
    ensures From(c, t) <= p < To(c, t)
  {}

  lemma ShapeSizes(c: Ctx, s: State)
    requires Shape(c, s)
    ensures |c.done| == 256 && c.ss < 256 && |s.f| == |s.src| == |s.dst| == |c.b| && |s.cs| == |s.ce| == 256
  {}

  lemma PutGrows(c: Ctx, s: State, left: bool, t: nat, p: nat, k: nat)
    requires Puts(c, s, left, t, p, k)
    ensures Shape(c, Put(s, left, t, p, k)) && SourcesGrow(c, Put(s, left, t, p, k))
  {
    hide Left, Right, From, To, RestKept, Targeted, KnownSides, KnownOrder, Prev, Known, Pairs, Ready;
    PutShape(c, s, left, t, p, k);
    PutFields(s, left, t, p, k);
    HereKnown(c, s, left);
    var s' := Put(s, left, t, p, k);
    forall u: nat, q: nat, q': nat | u < 256 && q < q' < |c.b| && Filled(c, s', u, q) && Filled(c, s', u, q')
      ensures s'.src[q] < s'.src[q']
    {
      FilledWithin(c, s', u, q);
      FilledWithin(c, s', u, q');
      if q == p {
        if u != t { OneBucket(c, t, u, p); }
        FilledFacts(c, s, u, q');
      } else if q' == p {
        if u != t { OneBucket(c, t, u, p); }
        FilledFacts(c, s, u, q);
      }
    }
  }

  lemma PutTargeted(c: Ctx, s: State, left: bool, t: nat, p: nat, k: nat)
    requires Puts(c, s, left, t, p, k)
    ensures Shape(c, Put(s, left, t, p, k)) && Targeted(c, Put(s, left, t, p, k))
  {
    hide Left, Right, From, To, RestKept, Sourced, SourcesGrow, KnownSides, KnownOrder, Prev, Known, Scanned, Filled,
         Pairs, Ready, Shape, Here, Put;
    PutShape(c, s, left, t, p, k);
    PutFields(s, left, t, p, k);
    HereKnown(c, s, left);
    var s' := Put(s, left, t, p, k);
    ShapeSizes(c, s);
    ShapeSizes(c, s');
    forall q: nat | q < |c.b| && Scanned(c, s', q)
      ensures ToTarget(c, s', q)
    {
      if q != Here(s, left) {
        assert ToTarget(c, s, q);
        assert Known(c, s, q);
        TargetKept(c, s, s', t, p, k, q);
      } else {
        assert Filled(c, s', t, p);
      }
    }
  }

  lemma TargetKept(c: Ctx, s: State, s': State, t: nat, p: nat, k: nat, q: nat)
    requires Shape(c, s) && Shape(c, s') && p < |c.b| && q < |c.b| && ToTarget(c, s, q) && q != p && t < 256
    requires s'.f == s.f[p := k] && s'.dst[q] == s.dst[q] && !Filled(c, s, t, p)
    requires forall u: nat, x: nat :: u < 256 ==> (Filled(c, s', u, x) <==> Filled(c, s, u, x) || (u == t && x == p))
    requires From(c, t) <= p < To(c, t)
    ensures ToTarget(c, s', q)
  {
    hide From, To, Prev;
    var u: nat := c.b[Prev(|c.b|, s.f[q])];
    if !c.done[u] && s.dst[q] == p {
      if u != t { FilledWithin(c, s, u, p); OneBucket(c, t, u, p); }
    }
  }

  lemma PutSides(c: Ctx, s: State, left: bool, t: nat, p: nat, k: nat)
    requires Puts(c, s, left, t, p, k)
    ensures Shape(c, Put(s, left, t, p, k)) && KnownSides(c, Put(s, left, t, p, k))
  {
    hide Left, Right, From, To, RestKept, Sourced, SourcesGrow, Targeted, KnownOrder, Scanned, Filled, Pairs, Ready,
         Low, High, Prev;
    PutShape(c, s, left, t, p, k);
    PutFields(s, left, t, p, k);
    HereKnown(c, s, left);
    var s', j := Put(s, left, t, p, k), Here(s, left);
    assert Sided(c, s, j);
    if t == c.ss { LowPrev(c.b, s.f[j], c.ss); }
    forall q: nat | q < |c.b| && Known(c, s', q)
      ensures Sided(c, s', q)
    {
      if Known(c, s, q) { assert Sided(c, s, q); }
    }
  }

  /** The rest of big bucket ss, as f0 has it, has a smaller or a greater second byte. */
  lemma StartPairs(c: Ctx, q: nat)
    requires Ready(c) && (Left(c) <= q < From(c, c.ss) || To(c, c.ss) <= q < Right(c))
    ensures q < |c.b| && c.f0[q] < |c.b| && c.b[c.f0[q]] == c.ss
    ensures Two(c.b, c.f0[q]) < 256 * c.ss + c.ss <==> q < From(c, c.ss)
    ensures Two(c.b, c.f0[q]) > 256 * c.ss + c.ss <==> q >= To(c, c.ss)
  {
    hide Below, InTurn;
    Places(c, c.ss);
    ReadySize(c);
    var p, v := Pairs(c.b), Pairs(c.b)[c.f0[q]];
    assert InBucket(p, v, q);
    if v >= 256 * c.ss + c.ss { BelowMono(p, 0, 256 * c.ss + c.ss, v); }
    if v <= 256 * c.ss + c.ss { BelowMono(p, 0, v + 1, 256 * c.ss + c.ss + 1); }
    if v < 256 * c.ss { BelowMono(p, 0, v + 1, 256 * c.ss); }
    if v >= 256 * c.ss + 256 { BelowMono(p, 0, 256 * c.ss + 256, v); }
  }

  /** And it still holds what f0 had there. */
  lemma RestPairs(c: Ctx, s: State, q: nat)
    requires Scanning(c, s) && (Left(c) <= q < From(c, c.ss) || To(c, c.ss) <= q < Right(c))
    ensures q < |c.b| && s.f[q] < |c.b| && s.f[q] == c.f0[q]
    ensures q < From(c, c.ss) ==> Two(c.b, s.f[q]) < 256 * c.ss + c.ss
    ensures q >= To(c, c.ss) ==> Two(c.b, s.f[q]) > 256 * c.ss + c.ss
    ensures c.b[s.f[q]] == c.ss
  {
    hide Below, InTurn, Sourced, SourcesGrow, Targeted, KnownSides, KnownOrder, From, To, Left, Right;
    Places(c, c.ss);
    StartPairs(c, q);
    assert !FilledHere(c, s, q);
  }

  /** What a filled place of [ss, ss] and the new rotation come from decides their order. */
  lemma NewAndFilled(c: Ctx, s: State, left: bool, p: nat, k: nat, q: nat)
    requires Puts(c, s, left, c.ss, p, k) && q < |c.b| && Filled(c, s, c.ss, q)
    ensures s.f[q] != k && (s.src[q] < Here(s, left) ==> Ord(c.b, s.f[q], k))
            && (s.src[q] > Here(s, left) ==> Ord(c.b, k, s.f[q]))
  {
    hide Left, Right, From, To, RestKept, Sourced, SourcesGrow, Targeted, KnownSides, Scanned, Pairs, Ready, Prev,
         Known, Here;
    HereKnown(c, s, left);
    FilledFacts(c, s, c.ss, q);
    NewDiffers(c, s, left, c.ss, q);
    var x, y := s.f[s.src[q]], s.f[Here(s, left)];
    if s.src[q] < Here(s, left) {
      assert Ord(c.b, x, y);
      OrdPrev(c.b, x, y);
    }
    if s.src[q] > Here(s, left) {
      assert Ord(c.b, y, x);
      OrdPrev(c.b, y, x);
    }
  }

  lemma NewSided(c: Ctx, s: State, left: bool, p: nat, k: nat)
    requires Puts(c, s, left, c.ss, p, k)
    ensures if left then Low(c.b, k, c.ss) else High(c.b, k, c.ss)
    ensures Two(c.b, k) == 256 * c.ss + c.ss
  {
    hide Left, Right, From, To, RestKept, Sourced, SourcesGrow, Targeted, Scanned, Pairs, Ready, Low, High;
    HereKnown(c, s, left);
    assert Sided(c, s, Here(s, left));
    LowPrev(c.b, s.f[Here(s, left)], c.ss);
    NextBelow(|c.b|, s.f[Here(s, left)]);
  }

  /** The new rotation comes before what is known to its right. */
  lemma NewBefore(c: Ctx, s: State, left: bool, p: nat, k: nat, q: nat)
    requires Puts(c, s, left, c.ss, p, k) && p < q < |c.b| && Known(c, s, q)
    ensures Ord(c.b, k, s.f[q]) && k != s.f[q]
  {
    hide Left, Right, From, To, RestKept, Sourced, SourcesGrow, Targeted, Scanned, Pairs, Ready, Low, High, Prev, Ord,
         KnownOrder;
    NewSided(c, s, left, p, k);
    assert Sided(c, s, q);
    Places(c, c.ss);
    if left {
      LowHigh(c.b, k, s.f[q], c.ss);
    } else if q < To(c, c.ss) {
      FilledFacts(c, s, c.ss, q);
      SourceSide(c, s, q);
      NewAndFilled(c, s, left, p, k, q);
    } else {
      RestPairs(c, s, q);
      BlockSize(c);
      PairsOrder(c.b, k, s.f[q]);
    }
  }

  lemma NewAfter(c: Ctx, s: State, left: bool, p: nat, k: nat, q: nat)
    requires Puts(c, s, left, c.ss, p, k) && q < p && Known(c, s, q)
    ensures Ord(c.b, s.f[q], k) && k != s.f[q]
  {
    hide Left, Right, From, To, RestKept, Sourced, SourcesGrow, Targeted, Scanned, Pairs, Ready, Low, High, Prev, Ord,
         KnownOrder;
    NewSided(c, s, left, p, k);
    assert Sided(c, s, q);
    Places(c, c.ss);
    if !left {
      LowHigh(c.b, s.f[q], k, c.ss);
    } else if From(c, c.ss) <= q {
      FilledFacts(c, s, c.ss, q);
      SourceSide(c, s, q);
      NewAndFilled(c, s, left, p, k, q);
    } else {
      RestPairs(c, s, q);
      BlockSize(c);
      PairsOrder(c.b, s.f[q], k);
    }
  }

  lemma BlockSize(c: Ctx)
    requires Ready(c)
    ensures |c.b| >= 2
  {}

  lemma SourceSide(c: Ctx, s: State, q: nat)
    requires Scanning(c, s) && q < |c.b| && Filled(c, s, c.ss, q)
    ensures if q < s.cs[c.ss] then s.src[q] < s.jl else s.src[q] > s.jr
  {
    hide Left, Right, From, To, RestKept, SourcesGrow, Targeted, KnownSides, KnownOrder, Pairs, Ready, Prev;
    assert FromSource(c, s, c.ss, q);
  }

  lemma PutOrder(c: Ctx, s: State, left: bool, t: nat, p: nat, k: nat)
    requires Puts(c, s, left, t, p, k)
    ensures Shape(c, Put(s, left, t, p, k)) && KnownOrder(c, Put(s, left, t, p, k))
  {
    hide Left, Right, From, To, RestKept, Sourced, SourcesGrow, Targeted, KnownSides, Scanned, Filled, Pairs, Ready,
         Low, High, Prev, Shape, Here, Put, Ord;
    PutShape(c, s, left, t, p, k);
    PutFields(s, left, t, p, k);
    var s' := Put(s, left, t, p, k);
    ShapeSizes(c, s);
    ShapeSizes(c, s');
    forall q: nat, q': nat | q < q' < |c.b| && Known(c, s', q) && Known(c, s', q')
      ensures Ord(c.b, s'.f[q], s'.f[q']) && s'.f[q] != s'.f[q']
    {
      if q == p {
        NewBefore(c, s, left, p, k, q');
      } else if q' == p {
        NewAfter(c, s, left, p, k, q);
      }
    }
  }

  lemma PutKeeps(c: Ctx, s: State, left: bool, t: nat, p: nat, k: nat)
    requires Puts(c, s, left, t, p, k)
    ensures Scanning(c, Put(s, left, t, p, k))
  {
    hide Shape, RestKept, Sourced, SourcesGrow, Targeted, KnownSides, KnownOrder, Put, Ready, Here, NextScan;
    PutShape(c, s, left, t, p, k);
    PutRest(c, s, left, t, p, k);
    PutSourced(c, s, left, t, p, k);
    PutGrows(c, s, left, t, p, k);
    PutTargeted(c, s, left, t, p, k);
    PutSides(c, s, left, t, p, k);
    PutOrder(c, s, left, t, p, k);
  }

  lemma SkipKeeps(c: Ctx, s: State, left: bool)
    requires Scanning(c, s) && NextScan(c, s, left) && 0 <= Here(s, left) < |c.b| && s.f[Here(s, left)] < |c.b|
    requires Prev(|c.b|, s.f[Here(s, left)]) < |c.b| && c.done[c.b[Prev(|c.b|, s.f[Here(s, left)])]]
    ensures Scanning(c, Skip(s, left))
  {
    hide Left, Right, From, To, Pairs, Ready, Low, High, Prev, Ord;
    HereKnown(c, s, left);
    var s', j := Skip(s, left), Here(s, left);
    assert Shape(c, s');
    assert forall q: nat :: Scanned(c, s', q) <==> Scanned(c, s, q) || q == j;
    assert forall q: nat :: Known(c, s', q) <==> Known(c, s, q);
    assert forall t: nat, p: nat :: t < 256 ==> (Filled(c, s', t, p) <==> Filled(c, s, t, p));
    forall t: nat, p: nat | t < 256 && p < |c.b| && Filled(c, s', t, p)
      ensures FromSource(c, s', t, p)
    {
      assert FromSource(c, s, t, p);
    }
    forall q: nat | q < |c.b| && Scanned(c, s', q)
      ensures ToTarget(c, s', q)
    {
      if q != j { assert ToTarget(c, s, q); }
    }
    forall q: nat | q < |c.b| && Known(c, s', q)
      ensures Sided(c, s', q)
    {
      assert Sided(c, s, q);
    }
    forall p: nat | p < |c.b|
      ensures FilledHere(c, s', p) <==> FilledHere(c, s, p)
    {}
  }

  // ---------- the end of the scan ----------

  /** Everything known has been scanned. */
  ghost predicate Exhausted(c: Ctx, s: State) {
    Scanning(c, s) && !NextScan(c, s, true) && !NextScan(c, s, false)
  }

  ghost predicate Constant(c: Ctx) {
    forall y :: 0 <= y < |c.b| ==> c.b[y] == c.ss
  }

  lemma KnownScanned(c: Ctx, s: State, q: nat)
    requires Exhausted(c, s) && Known(c, s, q)
    ensures q < |c.b| && Scanned(c, s, q) && ToTarget(c, s, q) && Sided(c, s, q)
  {
    hide From, To, RestKept, Sourced, SourcesGrow, KnownOrder, Low, High, Prev;
    Places(c, c.ss);
  }

  /** A rotation of the rest of big bucket ss is known. */
  lemma RestKnown(c: Ctx, s: State, x: nat) returns (q: nat)
    requires Scanning(c, s) && x < |c.b| && c.b[x] == c.ss && Two(c.b, x) != 256 * c.ss + c.ss
    ensures q < |c.b| && Known(c, s, q) && s.f[q] == x
  {
    hide Below, InTurn, Sourced, SourcesGrow, Targeted, KnownSides, KnownOrder;
    NextBelow(|c.b|, x);
    ReadySize(c);
    q := PermOnto(c.f0, |c.b|, x);
    var p, v := Pairs(c.b), Two(c.b, x);
    assert InBucket(p, v, q);
    assert 256 * c.ss <= v < 256 * c.ss + 256;
    BelowMono(p, 0, 256 * c.ss, v);
    BelowMono(p, 0, v + 1, 256 * c.ss + 256);
    if v < 256 * c.ss + c.ss { BelowMono(p, 0, v + 1, 256 * c.ss + c.ss); }
       else { BelowMono(p, 0, 256 * c.ss + c.ss + 1, v); }
    RestPairs(c, s, q);
  }

  /** What precedes a known rotation in bucket [t, ss] has been filled in. */
  lemma PrevFilled(c: Ctx, s: State, q: nat, x: nat) returns (p: nat)
    requires Exhausted(c, s) && q < |c.b| && Known(c, s, q) && s.f[q] < |c.b| && x == Prev(|c.b|, s.f[q]) < |c.b|
             && !c.done[c.b[x]]
    ensures p < |c.b| && Filled(c, s, c.b[x], p) && s.f[p] == x
  {
    hide Left, Right, From, To, RestKept, Sourced, SourcesGrow, Targeted, KnownSides, KnownOrder, Filled, Known,
         Scanned, Prev;
    KnownScanned(c, s, q);
    p := s.dst[q];
  }

  /** Every rotation below or above the constant one that begins with ss is known. */
  lemma {:induction false} RunKnown(c: Ctx, s: State, x: nat, h: nat) returns (q: nat)
    requires Exhausted(c, s) && x < |c.b| && c.b[x] == c.ss && (LowAt(c.b, x, c.ss, h) || HighAt(c.b, x, c.ss, h))
    ensures q < |c.b| && Known(c, s, q) && s.f[q] == x
    decreases h
  {
    hide Left, Right, From, To, RestKept, Sourced, SourcesGrow, Targeted, KnownSides, KnownOrder, Prev, Next;
    NextBelow(|c.b|, x);
    var y := Next(|c.b|, x);
    if c.b[y] != c.ss {
      q := RestKnown(c, s, x);
    } else {
      var k := RunKnown(c, s, y, h - 1);
      q := PrevFilled(c, s, k, x);
      FilledKnown(c, s, q);
    }
  }

  lemma FilledKnown(c: Ctx, s: State, p: nat)
    requires Scanning(c, s) && Filled(c, s, c.ss, p)
    ensures Known(c, s, p)
  {
    hide Left, Right, From, To, RestKept, Sourced, SourcesGrow, Targeted, KnownSides, KnownOrder;
    Places(c, c.ss);
  }

  /** Every rotation of a bucket [t, ss] not done before is in a filled place, unless the block is constant. */
  lemma AllFilled(c: Ctx, s: State, t: nat, x: nat) returns (p: nat)
    requires Exhausted(c, s) && !Constant(c) && t < 256 && !c.done[t] && x < |c.b| && Two(c.b, x) == 256 * t + c.ss
    ensures p < |c.b| && Filled(c, s, t, p) && s.f[p] == x
  {
    hide Left, Right, From, To, RestKept, Sourced, SourcesGrow, Targeted, KnownSides, KnownOrder, Prev, Next, Known,
         Filled, LowAt, HighAt;
    NextBelow(|c.b|, x);
    var y := Next(|c.b|, x);
    LowHighConst(c.b, y, c.ss);
    var q;
    if Low(c.b, y, c.ss) {
      var h: nat :| LowAt(c.b, y, c.ss, h);
      q := RunKnown(c, s, y, h);
    } else {
      var h: nat :| HighAt(c.b, y, c.ss, h);
      q := RunKnown(c, s, y, h);
    }
    p := PrevFilled(c, s, q, x);
  }

  /** The two fill marks meet. */
  lemma MarksMeet(c: Ctx, s: State, t: nat)
    requires Exhausted(c, s) && !Constant(c) && t < 256 && !c.done[t]
    ensures s.cs[t] == s.ce[t] + 1
  {
    hide Below, Low, High, RestKept, Sourced, SourcesGrow, Targeted, KnownSides, KnownOrder, InTurn, Left, Right, Known,
         Prev, Next, From, To, NextScan, Constant;
    Places(c, t);
    ReadySize(c);
    var lo, hi := From(c, t), To(c, t);
    var l, m := c.f0[lo..hi], s.f[lo..s.cs[t]] + s.f[s.ce[t] + 1..hi];
    forall i | 0 <= i < |l|
      ensures l[i] in m
    {
      BucketOf(c, t, lo + i);
      var p := AllFilled(c, s, t, l[i]);
      FilledWithin(c, s, t, p);
      if p < s.cs[t] { assert m[p - lo] == s.f[p]; } else { assert m[s.cs[t] - lo + (p - s.ce[t] - 1)] == s.f[p]; }
    }
    Pigeons(l, m);
  }

  /** Over a constant block nothing is ever scanned. */
  lemma ConstantKept(c: Ctx, s: State)
    requires Exhausted(c, s) && Constant(c)
    ensures s.f == c.f0
  {
    hide Left, Right, From, To, Sourced, SourcesGrow, Targeted, KnownOrder, Pairs, Prev, Ready, NextScan;
    ReadySize(c);
    forall q: nat | q < |c.b|
      ensures !Known(c, s, q)
    {
      if Known(c, s, q) {
        assert Sided(c, s, q);
        ConstantNeither(c, s.f[q]);
      }
    }
    forall p: nat | p < |c.b|
      ensures s.f[p] == c.f0[p]
    {
      if FilledHere(c, s, p) { FilledFacts(c, s, Pairs(c.b)[c.f0[p]] / 256, p); }
    }
  }

  lemma ConstantNeither(c: Ctx, x: nat)
    requires Constant(c) && x < |c.b|
    ensures !Low(c.b, x, c.ss) && !High(c.b, x, c.ss)
  {
    if Low(c.b, x, c.ss) {
      var h: nat :| LowAt(c.b, x, c.ss, h);
      ConstantRun(c, x, h);
    }
    if High(c.b, x, c.ss) {
      var h: nat :| HighAt(c.b, x, c.ss, h);
      ConstantRun(c, x, h);
    }
  }

  lemma {:induction false} ConstantRun(c: Ctx, x: nat, h: nat)
    requires Constant(c) && x < |c.b|
    ensures !LowAt(c.b, x, c.ss, h) && !HighAt(c.b, x, c.ss, h)
    decreases h
  {
    NextBelow(|c.b|, x);
    if h > 0 { ConstantRun(c, Next(|c.b|, x), h - 1); }
  }

  /** Over a constant block all rotations are equal. */
  lemma ConstantOrd(c: Ctx, x: nat, y: nat)
    requires Constant(c) && x < |c.b| && y < |c.b|
    ensures Ord(c.b, x, y)
  {
    EqFromAt(c.b, x, y, |c.b|);
    EqLe(c.b, x, y, |c.b|);
  }

  /** Bucket [t, ss] holds its own rotations, in order. */
  lemma BucketDone(c: Ctx, s: State, t: nat)
    requires Exhausted(c, s) && t < 256 && !c.done[t]
    ensures From(c, t) <= To(c, t) <= |c.b| && InTurn(c.b, s.f, From(c, t), To(c, t))
  {
    hide Left, Right, From, To, RestKept, Sourced, SourcesGrow, Targeted, KnownSides, KnownOrder, Pairs, Ord, Known,
         Ready, Constant, NextScan;
    Places(c, t);
    if Constant(c) {
      ConstantKept(c, s);
      ReadySize(c);
      forall p, p' | From(c, t) <= p < p' < To(c, t)
        ensures Ord(c.b, s.f[p], s.f[p'])
      {
        ConstantOrd(c, s.f[p], s.f[p']);
      }
    } else {
      MarksMeet(c, s, t);
      forall p: nat, p': nat | From(c, t) <= p < p' < To(c, t)
        ensures Ord(c.b, s.f[p], s.f[p'])
      {
        FilledDiffer(c, s, t, p, p');
      }
    }
  }

  /** Place p belongs to a bucket the scan fills. */
  ghost predicate Target(c: Ctx, p: nat)
    requires Ready(c) && p < |c.b|
  {
    var v := Pairs(c.b)[c.f0[p]];
    v % 256 == c.ss && !c.done[v / 256]
  }

  /** Every place still holds a rotation of its bucket. */
  lemma PlaceKept(c: Ctx, s: State, p: nat)
    requires Exhausted(c, s) && p < |c.b|
    ensures s.f[p] < |c.b| && c.f0[p] < |c.b| && Two(c.b, s.f[p]) == Two(c.b, c.f0[p])
    ensures !Target(c, p) ==> s.f[p] == c.f0[p]
    ensures Target(c, p) && !Constant(c) ==> Filled(c, s, Pairs(c.b)[c.f0[p]] / 256, p)
  {
    hide Below, Sourced, SourcesGrow, Targeted, KnownSides, KnownOrder, NextScan, Constant, InTurn;
    ReadySize(c);
    var v := Pairs(c.b)[c.f0[p]];
    assert InBucket(Pairs(c.b), v, p);
    if Target(c, p) {
      if Constant(c) { ConstantKept(c, s); } else {
        MarksMeet(c, s, v / 256);
        FilledFacts(c, s, v / 256, p);
      }
    }
  }

  /** After the scan the pointers are in buckets, as before. */
  lemma BucketsKept(c: Ctx, s: State)
    requires Exhausted(c, s)
    ensures Bucketed(Pairs(c.b), s.f)
  {
    hide Below, RestKept, Sourced, SourcesGrow, Targeted, KnownSides, KnownOrder, NextScan, Constant, InTurn, Filled,
         Target, Two;
    var n := |c.b|;
    ReadySize(c);
    forall p: nat | p < n
      ensures s.f[p] < n && InBucket(Pairs(c.b), Pairs(c.b)[s.f[p]], p)
    {
      PlaceKept(c, s, p);
    }
    forall p: nat, p': nat | p < p' < n
      ensures s.f[p] != s.f[p']
    {
      KeptDistinct(c, s, p, p');
    }
  }

  lemma KeptDistinct(c: Ctx, s: State, p: nat, p': nat)
    requires Exhausted(c, s) && p < p' < |c.b|
    ensures s.f[p] != s.f[p']
  {
    hide Below, RestKept, Sourced, SourcesGrow, Targeted, KnownSides, KnownOrder, NextScan, Constant, InTurn, Filled,
         Two;
    ReadySize(c);
    PlaceKept(c, s, p);
    PlaceKept(c, s, p');
    if Constant(c) {
      ConstantKept(c, s);
    } else if Two(c.b, c.f0[p]) == Two(c.b, c.f0[p']) && Target(c, p) {
      FilledDiffer(c, s, Pairs(c.b)[c.f0[p]] / 256, p, p');
    }
  }

  // ---------- the start of the scan ----------

  lemma ScanStart(c: Ctx, s: State)
    requires Ready(c) && |s.f| == |s.src| == |s.dst| == |c.b| && |s.cs| == |s.ce| == 256 && s.f == c.f0
    requires forall t: nat :: t < 256 ==> s.cs[t] == From(c, t) && s.ce[t] == To(c, t) - 1
    requires s.jl == Left(c) && s.jr == Right(c) - 1
    ensures Scanning(c, s)
  {
    hide Left, Right, From, To, InTurn, Low, High, Ord;
    forall t: nat | t < 256
      ensures From(c, t) <= To(c, t)
    {
      Places(c, t);
    }
    Places(c, c.ss);
    ReadySize(c);
    forall q: nat | q < |c.b| && Known(c, s, q)
      ensures Sided(c, s, q) && Two(c.b, c.f0[q]) != 256 * c.ss + c.ss
      ensures Two(c.b, c.f0[q]) < 256 * c.ss + c.ss <==> q < From(c, c.ss)
    {
      StartPairs(c, q);
      LowSecond(c.b, c.f0[q], c.ss);
    }
    forall q: nat, q': nat | q < q' < |c.b| && Known(c, s, q) && Known(c, s, q')
      ensures Ord(c.b, s.f[q], s.f[q']) && s.f[q] != s.f[q']
    {
      StartOrder(c, q, q');
    }
  }

  lemma StartOrder(c: Ctx, q: nat, q': nat)
    requires Ready(c) && (Left(c) <= q < From(c, c.ss) || To(c, c.ss) <= q < Right(c)) && q < q'
    requires Left(c) <= q' < From(c, c.ss) || To(c, c.ss) <= q' < Right(c)
    ensures q' < |c.b| && Ord(c.b, c.f0[q], c.f0[q']) && c.f0[q] != c.f0[q']
  {
    hide Left, Right, From, To, Ord, Below, Two;
    Places(c, c.ss);
    ReadySize(c);
    StartPairs(c, q);
    StartPairs(c, q');
    if q < From(c, c.ss) <= q' { PairsOrder(c.b, c.f0[q], c.f0[q']); }
  }

  // ---------- the loops ----------

  /** The arrays as a scan state; n is the block size. */
  ghost predicate Shows(s: State, f: seq<nat>, cs: seq<nat>, ce: seq<int>) {
    s.f == f && s.cs == cs && s.ce == ce
  }

  /** One round of either loop. */
  method ScanOne(ptr: array<nat>, block: seq<byte>, nblock: nat, bigDone: seq<bool>, copyStart: array<nat>,
                 copyEnd: array<int>,
                 j: nat, left: bool, ghost c: Ctx, ghost s: State) returns (ghost s': State)
    requires nblock == |c.b| <= ptr.Length && nblock <= |block| && (forall i :: 0 <= i < nblock ==> block[i] == c.b[i])
             && bigDone == c.done
    requires copyStart.Length == copyEnd.Length == 256 && ptr != copyStart
    requires (ptr as object) != (copyEnd as object) && (copyStart as object) != (copyEnd as object)
    requires Scanning(c, s) && NextScan(c, s, left) && j == Here(s, left)
             && Shows(s, ptr[..nblock], copyStart[..], copyEnd[..])
    modifies ptr, copyStart, copyEnd
    ensures Scanning(c, s') && Shows(s', ptr[..nblock], copyStart[..], copyEnd[..])
    ensures if left then s'.jl == s.jl + 1 && s'.jr == s.jr else s'.jl == s.jl && s'.jr == s.jr - 1
    ensures forall p :: nblock <= p < ptr.Length ==> ptr[p] == old(ptr[p])
    ensures if left then copyEnd[..] == old(copyEnd[..]) else copyStart[..] == old(copyStart[..])
  {
    hide *;
    ShowsIs(s, ptr[..nblock], copyStart[..], copyEnd[..]);
    HereKnown(c, s, left);
    HereIs(s, left);
    ScanSizes(c, s);
    assert s.f[j] == ptr[j];
    var k: int := ptr[j] as int - 1;
    if k < 0 { k := k + nblock; }
    assert k == Prev(nblock, s.f[j]) by { PrevIs(nblock, s.f[j]); }
    var c1 := block[k];
    if !bigDone[c1] {
      Room(c, s, left, c1);
      PutsHere(c, s, left, c1, k);
      if left {
        var p := copyStart[c1];
        PutKeeps(c, s, left, c1, p, k);
        s' := Put(s, left, c1, p, k);
        PutIs(s, left, c1, p, k);
        ptr[p] := k;
        copyStart[c1] := p + 1;
        assert ptr[..nblock] == s.f[p := k];
      } else {
        var p := copyEnd[c1];
        PutKeeps(c, s, left, c1, p, k);
        s' := Put(s, left, c1, p, k);
        PutIs(s, left, c1, p, k);
        ptr[p] := k;
        copyEnd[c1] := p - 1;
        assert ptr[..nblock] == s.f[p := k];
      }
    } else {
      SkipKeeps(c, s, left);
      s' := Skip(s, left);
      SkipIs(s, left);
    }
    ShowsIs(s', ptr[..nblock], copyStart[..], copyEnd[..]);
  }

  lemma ShowsIs(s: State, f: seq<nat>, cs: seq<nat>, ce: seq<int>)
    ensures Shows(s, f, cs, ce) <==> s.f == f && s.cs == cs && s.ce == ce
  {}

  lemma HereIs(s: State, left: bool)
    ensures Here(s, left) == if left then s.jl else s.jr
  {}

  lemma ScanSizes(c: Ctx, s: State)
    requires Scanning(c, s)
    ensures |c.done| == 256 && c.ss < 256 && |s.f| == |s.src| == |s.dst| == |c.b| && |s.cs| == |s.ce| == 256
  {
    hide Left, Right, From, To, RestKept, Sourced, SourcesGrow, Targeted, KnownSides, KnownOrder, Ready;
  }

  lemma PrevIs(n: nat, i: nat)
    requires i < n
    ensures Prev(n, i) == (if i == 0 then n - 1 else i - 1) < n
  {}

  lemma PutsHere(c: Ctx, s: State, left: bool, t: nat, k: nat)
    requires Scanning(c, s) && NextScan(c, s, left) && t < 256 && !c.done[t] && s.cs[t] <= s.ce[t]
    requires 0 <= Here(s, left) < |c.b| && s.f[Here(s, left)] < |c.b| && k == Prev(|c.b|, s.f[Here(s, left)]) < |c.b|
             && t == c.b[k]
    ensures 0 <= s.ce[t] < |c.b| && Puts(c, s, left, t, if left then s.cs[t] else s.ce[t], k)
  {
    hide Left, Right, From, To, RestKept, Sourced, SourcesGrow, Targeted, KnownSides, KnownOrder, Ready, Here;
    Places(c, t);
  }

  lemma PutIs(s: State, left: bool, t: nat, p: nat, k: nat)
    requires t < |s.cs| && t < |s.ce| && p < |s.f| && p < |s.src| && 0 <= Here(s, left) < |s.dst|
    ensures var s' := Put(s, left, t, p, k);
            && s'.f == s.f[p := k]
            && (if left then s'.cs == s.cs[t := p + 1] && s'.ce == s.ce && s'.jl == s.jl + 1 && s'.jr == s.jr
                else s'.ce == s.ce[t := p - 1] && s'.cs == s.cs && s'.jl == s.jl && s'.jr == s.jr - 1)
  {}

  lemma SkipIs(s: State, left: bool)
    ensures var s' := Skip(s, left);
            s'.f == s.f && s'.cs == s.cs && s'.ce == s.ce
            && (if left then s'.jl == s.jl + 1 && s'.jr == s.jr else s'.jl == s.jl && s'.jr == s.jr - 1)
  {}

  lemma MoreToScan(c: Ctx, s: State)
    requires Scanning(c, s)
    ensures |s.cs| == |s.ce| == 256 && c.ss < 256 && (NextScan(c, s, true) <==> s.jl < s.cs[c.ss])
            && (NextScan(c, s, false) <==> s.ce[c.ss] < s.jr)
    ensures s.jl <= s.cs[c.ss] && s.ce[c.ss] <= s.jr && 0 <= s.cs[c.ss] <= s.ce[c.ss] + 1
  {
    hide Left, Right, From, To, RestKept, Sourced, SourcesGrow, Targeted, KnownSides, KnownOrder, Ready;
  }

  /** Bit 21 of an ftab entry marks a sorted small bucket. */
  const SETMASK := 0x20_0000

  /** An entry without its mark: ftab[v] & CLEARMASK. */
  function Clear(x: nat): nat { if x >= SETMASK then x - SETMASK else x }

  /** Without the marks, ftab holds the first place of every small bucket. */
  ghost predicate Starts(ftab: seq<nat>, b: seq<byte>) {
    |ftab| == 0x1_0001 && forall v: nat :: v <= 0x1_0000 ==> Clear(ftab[v]) == Below(Pairs(b), 0, v)
  }

  lemma StartsAt(ftab: seq<nat>, b: seq<byte>, v: nat)
    requires Starts(ftab, b) && v <= 0x1_0000
    ensures |ftab| == 0x1_0001 && Clear(ftab[v]) == Below(Pairs(b), 0, v)
  {}

  /** What step 2 does to the pointers. */
  ghost predicate StepTwo(c: Ctx, f: seq<nat>) {
    && Ready(c) && |f| == |c.b| && Bucketed(Pairs(c.b), f)
    && (forall t: nat :: t < 256 && !c.done[t] ==>
          From(c, t) <= To(c, t) <= |c.b| && InTurn(c.b, f, From(c, t), To(c, t)))
    && forall p: nat :: p < |c.b| && !Target(c, p) ==> f[p] == c.f0[p]
  }

  lemma ScanEnd(c: Ctx, s: State)
    requires Exhausted(c, s)
    ensures StepTwo(c, s.f)
    ensures |s.cs| == |s.ce| == 256 && c.ss < 256
            && (s.cs[c.ss] == s.ce[c.ss] + 1 || (s.cs[c.ss] == 0 && s.ce[c.ss] == |c.b| - 1))
  {
    hide Left, Right, From, To, RestKept, Sourced, SourcesGrow, Targeted, KnownSides, KnownOrder, Target, Constant,
         NextScan, InTurn, Bucketed;
    BucketsKept(c, s);
    ReadySize(c);
    forall t: nat | t < 256 && !c.done[t]
      ensures From(c, t) <= To(c, t) <= |c.b| && InTurn(c.b, s.f, From(c, t), To(c, t))
    {
      BucketDone(c, s, t);
    }
    forall p: nat | p < |c.b| && !Target(c, p)
      ensures s.f[p] == c.f0[p]
    {
      PlaceKept(c, s, p);
    }
    if Constant(c) { ConstantMarks(c, s); } else { MarksMeet(c, s, c.ss); }
  }

  lemma ConstantMarks(c: Ctx, s: State)
    requires Exhausted(c, s) && Constant(c)
    ensures s.cs[c.ss] == 0 && s.ce[c.ss] == |c.b| - 1
  {
    hide InTurn, RestKept, Sourced, SourcesGrow, Targeted, KnownOrder, Below, Low, High;
    ReadySize(c);
    var p := Pairs(c.b);
    forall q: nat | q < |c.b|
      ensures !Known(c, s, q)
    {
      if Known(c, s, q) {
        assert Sided(c, s, q);
        ConstantNeither(c, s.f[q]);
      }
    }
    NextBelow(|c.b|, c.f0[0]);
    NextBelow(|c.b|, c.f0[|c.b| - 1]);
    assert InBucket(p, p[c.f0[0]], 0) && InBucket(p, p[c.f0[|c.b| - 1]], |c.b| - 1);
    Places(c, c.ss);
    KnownEnds(c, s);
  }

  lemma KnownEnds(c: Ctx, s: State)
    requires |s.cs| == |s.ce| == 256 && c.ss < 256 && Left(c) < Right(c)
    ensures Left(c) < s.cs[c.ss] ==> Known(c, s, Left(c))
    ensures s.ce[c.ss] < Right(c) - 1 ==> Known(c, s, Right(c) - 1)
  {}

  /** Sets the fill marks to the ends of the buckets [t, ss]. */
  method InitCopies(copyStart: array<nat>, copyEnd: array<int>, ftab: array<nat>, ss: nat, ghost b: seq<byte>)
    requires copyStart.Length == copyEnd.Length == 256 && copyStart != ftab && ss < 256 && Starts(ftab[..], b)
    requires (copyEnd as object) != (ftab as object) && (copyEnd as object) != (copyStart as object)
    modifies copyStart, copyEnd
    ensures forall t: nat :: t < 256 ==> copyStart[t] == Below(Pairs(b), 0, 256 * t + ss)
    ensures forall t: nat :: t < 256 ==> copyEnd[t] == Below(Pairs(b), 0, 256 * t + ss + 1) - 1
  {
    hide *;
    for j: nat := 0 to 256
      invariant forall t: nat :: t < j ==> copyStart[t] == Below(Pairs(b), 0, 256 * t + ss)
      invariant forall t: nat :: t < j ==> copyEnd[t] == Below(Pairs(b), 0, 256 * t + ss + 1) - 1
    {
      StartsAt(ftab[..], b, 256 * j + ss);
      StartsAt(ftab[..], b, 256 * j + ss + 1);
      copyStart[j] := Clear(ftab[256 * j + ss]);
      copyEnd[j] := Clear(ftab[256 * j + ss + 1]) - 1;
    }
  }

  /** Step 2: scans the sorted big bucket ss from both ends. */
  method ScanBucket(ptr: array<nat>, block: seq<byte>, nblock: nat, ss: nat, bigDone: seq<bool>, ftab: array<nat>,
                    ghost c: Ctx)
    requires nblock == |c.b| <= ptr.Length && nblock <= |block| && (forall i :: 0 <= i < nblock ==> block[i] == c.b[i])
    requires c.f0 == ptr[..nblock] && c.ss == ss && c.done == bigDone && Ready(c) && Starts(ftab[..], c.b)
             && ptr != ftab
    modifies ptr
    ensures StepTwo(c, ptr[..nblock]) && forall p :: nblock <= p < ptr.Length ==> ptr[p] == old(ptr[p])
  {
    hide *;
    var copyStart, copyEnd := new nat[256], new int[256];
    ReadyBounds(c);
    InitCopies(copyStart, copyEnd, ftab, ss, c.b);
    StartsAt(ftab[..], c.b, 256 * ss);
    StartsAt(ftab[..], c.b, 256 * ss + 256);
    var j := Clear(ftab[256 * ss]);
    var j2: int := Clear(ftab[256 * (ss + 1)]) - 1;
    ghost var s := State(ptr[..nblock], copyStart[..], copyEnd[..], j, j2, seq(nblock, _ => 0 as nat),
                         seq(nblock, _ => 0 as nat));
    StartState(c, s, copyStart[..], copyEnd[..]);
    ShowsIs(s, ptr[..nblock], copyStart[..], copyEnd[..]);
    MoreToScan(c, s);
    while j < copyStart[ss]
      invariant Scanning(c, s) && Shows(s, ptr[..nblock], copyStart[..], copyEnd[..]) && j == s.jl <= copyStart[ss]
                && s.jr == j2
      invariant copyStart[ss] <= copyEnd[ss] + 1 <= j2 + 1
      invariant forall p :: nblock <= p < ptr.Length ==> ptr[p] == old(ptr[p])
      decreases j2 + 1 - j
    {
      ShowsIs(s, ptr[..nblock], copyStart[..], copyEnd[..]);
      MoreToScan(c, s);
      HereIs(s, true);
      s := ScanOne(ptr, block, nblock, bigDone, copyStart, copyEnd, j, true, c, s);
      j := j + 1;
      ShowsIs(s, ptr[..nblock], copyStart[..], copyEnd[..]);
      MoreToScan(c, s);
    }
    ghost var starts := copyStart[..];
    while j2 > copyEnd[ss]
      invariant Scanning(c, s) && Shows(s, ptr[..nblock], copyStart[..], copyEnd[..]) && j2 == s.jr
                && s.jl == starts[ss] && copyStart[..] == starts
      invariant -1 <= copyEnd[ss] <= j2
      invariant forall p :: nblock <= p < ptr.Length ==> ptr[p] == old(ptr[p])
      decreases j2
    {
      ShowsIs(s, ptr[..nblock], copyStart[..], copyEnd[..]);
      MoreToScan(c, s);
      HereIs(s, false);
      s := ScanOne(ptr, block, nblock, bigDone, copyStart, copyEnd, j2, false, c, s);
      j2 := j2 - 1;
      ShowsIs(s, ptr[..nblock], copyStart[..], copyEnd[..]);
      MoreToScan(c, s);
    }
    ShowsIs(s, ptr[..nblock], copyStart[..], copyEnd[..]);
    MoreToScan(c, s);
    ExhaustedIs(c, s);
    ScanEnd(c, s);
    assert copyStart[ss] == copyEnd[ss] + 1 || (copyStart[ss] == 0 && copyEnd[ss] == nblock - 1);
  }

  lemma ReadyBounds(c: Ctx)
    requires Ready(c)
    ensures c.ss < 256 && |c.done| == 256
  {}

  lemma ExhaustedIs(c: Ctx, s: State)
    requires Scanning(c, s) && !NextScan(c, s, true) && !NextScan(c, s, false)
    ensures Exhausted(c, s)
  {}

  lemma StartState(c: Ctx, s: State, cs: seq<nat>, ce: seq<int>)
    requires Ready(c) && |s.f| == |s.src| == |s.dst| == |c.b| && |cs| == |ce| == 256 && s.f == c.f0 && s.cs == cs
             && s.ce == ce
    requires forall t: nat :: t < 256 ==> cs[t] == Below(Pairs(c.b), 0, 256 * t + c.ss)
    requires forall t: nat :: t < 256 ==> ce[t] == Below(Pairs(c.b), 0, 256 * t + c.ss + 1) - 1
    requires s.jl == Below(Pairs(c.b), 0, 256 * c.ss) && s.jr == Below(Pairs(c.b), 0, 256 * c.ss + 256) - 1
    ensures Scanning(c, s)
  {
    hide Below, Scanning, Ready;
    ScanStart(c, s);
  }
}
