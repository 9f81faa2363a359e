/** fallbackSort: rotations sorted by doubling the depth at which they are told apart. */
module FallbackSort {
  import opened Bits
  import opened Permutations
  import opened Occurrences
  import opened RadixBuckets
  import opened Rotations
  import opened Shuffles
  import opened FallbackQuickSort
  import opened HeaderBits
  import opened DepthDoubling

  // ---------- eclass: words over the bytes of arr2 ----------

  const WORD_LIMIT := 0x1_0000_0000

  /** Word k of the memory. */
  function WordAt(mem: seq<byte>, k: nat): nat
    requires 4 * k + 4 <= |mem|
  {
    Quad(mem[4 * k], mem[4 * k + 1], mem[4 * k + 2], mem[4 * k + 3])
  }

  function Quad(b0: nat, b1: nat, b2: nat, b3: nat): nat {
    b0 + 0x100 * b1 + 0x1_0000 * b2 + 0x100_0000 * b3
  }

  /** The first n words. */
  function WordsOf(mem: seq<byte>, n: nat): (w: seq<nat>)
    requires 4 * n <= |mem|
    ensures |w| == n && forall k :: 0 <= k < n ==> w[k] == WordAt(mem, k)
  {
    if n == 0 then [] else WordsOf(mem, n - 1) + [WordAt(mem, n - 1)]
  }

  lemma ByteSplit(v: nat)
    requires v < WORD_LIMIT
    ensures v == v % 0x100 + 0x100 * (v / 0x100 % 0x100) + 0x1_0000 * (v / 0x1_0000 % 0x100)
            + 0x100_0000 * (v / 0x100_0000)
    ensures v / 0x100_0000 < 0x100
  {
    assert v / 0x100 / 0x100 == v / 0x1_0000 && v / 0x1_0000 / 0x100 == v / 0x100_0000;
  }

  method PutWord(arr2: array<byte>, k: nat, v: nat)
    requires 4 * k + 4 <= arr2.Length && v < WORD_LIMIT
    modifies arr2
    ensures WordAt(arr2[..], k) == v
    ensures forall m: nat :: m != k && 4 * m + 4 <= arr2.Length ==> WordAt(arr2[..], m) == WordAt(old(arr2[..]), m)
  {
    ByteSplit(v);
    arr2[4 * k] := v % 0x100;
    arr2[4 * k + 1] := v / 0x100 % 0x100;
    arr2[4 * k + 2] := v / 0x1_0000 % 0x100;
    arr2[4 * k + 3] := v / 0x100_0000;
  }

  // ---------- the first sort, by one byte ----------

  /** ftab counts the bytes of b. */
  ghost predicate Counted(ftab: seq<nat>, b: seq<byte>) {
    |ftab| >= 256 && forall c :: 0 <= c < 256 ==> ftab[c] == Count(b, c)
  }

  method CountBytes(ftab: array<nat>, b: seq<byte>)
    requires ftab.Length == 257
    modifies ftab
    ensures Counted(ftab[..], b) && ftab[256] == 0
  {
    for i := 0 to 257
      invariant forall c :: 0 <= c < i ==> ftab[c] == 0
    {
      ftab[i] := 0;
    }
    for i := 0 to |b|
      invariant Counted(ftab[..], b[..i]) && ftab[256] == 0
    {
      forall c | 0 <= c < 256
        ensures Count(b[..i + 1], c) == Count(b[..i], c) + if b[i] == c then 1 else 0
      {
        CountStep(b, i, c);
      }
      ftab[b[i]] := ftab[b[i]] + 1;
    }
    assert b[..|b|] == b;
  }

  /** ftab[c] is where bucket c ends, for c below 256. */
  ghost predicate Ends(ftab: seq<nat>, b: seq<byte>) {
    |ftab| >= 256 && forall c: nat :: c < 256 ==> ftab[c] == Below(b, 0, c + 1)
  }

  method CumulateBytes(ftab: array<nat>, b: seq<byte>)
    requires ftab.Length == 257 && Counted(ftab[..], b)
    modifies ftab
    ensures Ends(ftab[..], b)
  {
    BelowAdds(b, 0);
    for i: nat := 1 to 257
      invariant forall c: nat :: c < i && c < 256 ==> ftab[c] == Below(b, 0, c + 1)
      invariant forall c: nat :: i <= c < 256 ==> ftab[c] == Count(b, c)
    {
      BelowAdds(b, i);
      ftab[i] := ftab[i] + ftab[i - 1];
    }
  }

  /** Place p holds an index already read, with the byte of its bucket, and pos points back at it. */
  ghost predicate PlacedAt(f: seq<nat>, b: seq<byte>, pos: seq<nat>, c: nat, p: nat) {
    p < |f| && f[p] < |pos| && f[p] < |b| && b[f[p]] == c && pos[f[p]] == p
  }

  /** The radix placement after i bytes: each bucket is filled from its end down to ftab[c]. */
  ghost predicate Placing(f: seq<nat>, ftab: seq<nat>, b: seq<byte>, pos: seq<nat>, i: nat) {
    && i == |pos| <= |b| && |ftab| >= 256
    && (forall c: nat :: c < 256 ==> ftab[c] + Count(b[..i], c) == Below(b, 0, c + 1))
    && forall c: nat, p: nat :: c < 256 && ftab[c] <= p < Below(b, 0, c + 1) ==> PlacedAt(f, b, pos, c, p)
  }

  lemma PlaceRoom(f: seq<nat>, ftab: seq<nat>, b: seq<byte>, pos: seq<nat>, i: nat)
    requires Placing(f, ftab, b, pos, i) && i < |b|
    ensures var c: nat := b[i]; Below(b, 0, c) <= ftab[c] - 1 < Below(b, 0, c + 1) <= |b|
  {
    var c: nat := b[i];
    CountStep(b, i, c);
    CountPrefix(b, i + 1, c);
    BelowAdds(b, c);
    BelowAll(b, 0, 256);
    BelowMono(b, 0, c + 1, 256);
  }

  lemma PlaceStep(f: seq<nat>, ftab: seq<nat>, b: seq<byte>, pos: seq<nat>, i: nat)
    requires Placing(f, ftab, b, pos, i) && i < |b| <= |f| && ftab[b[i]] > 0
    ensures var k: nat := ftab[b[i]] - 1;
            k < |f| ==> Placing(f[k := i], ftab[b[i] := k], b, pos + [k], i + 1)
  {
    PlaceRoom(f, ftab, b, pos, i);
    var k: nat := ftab[b[i]] - 1;
    var f', ftab', pos' := f[k := i], ftab[b[i] := k], pos + [k];
    forall c: nat | c < 256
      ensures ftab'[c] + Count(b[..i + 1], c) == Below(b, 0, c + 1)
    {
      CountStep(b, i, c);
    }
    forall c: nat, p: nat | c < 256 && ftab'[c] <= p < Below(b, 0, c + 1)
      ensures PlacedAt(f', b, pos', c, p)
    {
      if c == b[i] && p == k {
      } else {
        assert PlacedAt(f, b, pos, c, p);
        if p == k {
          BelowAdds(b, c);
          CountPrefix(b, i, c);
          BucketsApart(b, c, b[i], p);
        }
      }
    }
  }

  method PlaceBytes(fmap: array<nat>, ftab: array<nat>, b: seq<byte>)
    requires fmap != ftab && ftab.Length == 257 && |b| <= fmap.Length && Ends(ftab[..], b)
    modifies fmap, ftab
    ensures Bucketed(b, fmap[..|b|])
    ensures forall c: nat :: c < 256 ==> ftab[c] == Below(b, 0, c)
  {
    hide Placing, Bucketed, Ends, Below, Count;
    ghost var pos: seq<nat> := [];
    PlaceStart(fmap[..], ftab[..], b);
    for i := 0 to |b|
      invariant Placing(fmap[..], ftab[..], b, pos, i)
    {
      var j := b[i];
      PlaceRoom(fmap[..], ftab[..], b, pos, i);
      PlaceStep(fmap[..], ftab[..], b, pos, i);
      var k := ftab[j] - 1;
      ftab[j] := k;
      fmap[k] := i;
      pos := pos + [k];
    }
    PlaceEnd(fmap[..], ftab[..], b, pos);
  }

  lemma PlaceStart(f: seq<nat>, ftab: seq<nat>, b: seq<byte>)
    requires Ends(ftab, b)
    ensures Placing(f, ftab, b, [], 0)
  {
    assert b[..0] == [];
  }

  lemma PlaceEnd(f: seq<nat>, ftab: seq<nat>, b: seq<byte>, pos: seq<nat>)
    requires Placing(f, ftab, b, pos, |b|) && |b| <= |f|
    ensures Bucketed(b, f[..|b|])
    ensures forall c: nat :: c < 256 ==> ftab[c] == Below(b, 0, c)
  {
    assert b[..|b|] == b;
    forall c: nat | c < 256
      ensures ftab[c] == Below(b, 0, c)
    {
      BelowAdds(b, c);
    }
    BelowAll(b, 0, 256);
    var g := f[..|b|];
    forall i: nat | i < |b|
      ensures g[i] < |b| && pos[g[i]] == i && InBucket(b, b[g[i]], i)
    {
      var c := FindBucket(b, i, 256);
      assert PlacedAt(f, b, pos, c, i);
    }
  }

  // ---------- the first header bits ----------

  function BitsOf(tab: seq<Word>, n: nat): (bits: seq<bool>)
    requires Words(tab) && n <= 32 * |tab|
    ensures |bits| == n && forall i: nat :: i < n ==> bits[i] == BitAt(tab, i)
  {
    if n == 0 then [] else BitsOf(tab, n - 1) + [BitAt(tab, n - 1)]
  }

  /** Some bucket below c starts at z. */
  ghost predicate IsStart(b: seq<byte>, c: nat, z: nat) {
    exists d: nat :: d < c && Below(b, 0, d) == z
  }

  lemma StartStep(b: seq<byte>, c: nat, z: nat)
    ensures IsStart(b, c + 1, z) <==> IsStart(b, c, z) || z == Below(b, 0, c)
  {
    hide Below;
    if IsStart(b, c, z) {
      var d: nat :| d < c && Below(b, 0, d) == z;
    }
  }

  /** The set bits below |b| are the starts of the buckets below c. */
  ghost predicate Marked(tab: seq<Word>, b: seq<byte>, c: nat)
    requires Words(tab) && |b| + 64 <= 32 * |tab|
  {
    forall z: nat :: z < |b| ==> (BitAt(tab, z) <==> IsStart(b, c, z))
  }

  method MarkBuckets(bhtab: array<Word>, ftab: seq<nat>, b: seq<byte>)
    requires |ftab| == 257 && |b| + 97 <= 32 * bhtab.Length && Words(bhtab[..])
    requires forall c: nat :: c < 256 ==> ftab[c] == Below(b, 0, c)
    modifies bhtab
    ensures Words(bhtab[..]) && Marked(bhtab[..], b, 256) && Sentinels(bhtab[..], |b|)
  {
    hide Below, Marked, IsStart, BitAt, Filled;
    var nBhtab := 2 + |b| / 32;
    ClearWords(bhtab, nBhtab);
    MarkNone(bhtab[..], b);
    for i: nat := 0 to 256
      invariant Words(bhtab[..]) && Marked(bhtab[..], b, i)
    {
      BelowWithin(b, i);
      ghost var tab := bhtab[..];
      PutBit(bhtab, ftab[i], true);
      MarkOne(tab, bhtab[..], b, i);
    }
    for i: nat := 0 to 32
      invariant Words(bhtab[..]) && Marked(bhtab[..], b, 256)
      invariant forall k: nat :: k < i ==> BitAt(bhtab[..], |b| + 2 * k) && !BitAt(bhtab[..], |b| + 2 * k + 1)
    {
      ghost var tab := bhtab[..];
      PutBit(bhtab, |b| + 2 * i, true);
      PutBit(bhtab, |b| + 2 * i + 1, false);
      MarkKept(tab, bhtab[..], b, 256, |b| + 2 * i);
    }
  }

  lemma BelowWithin(b: seq<byte>, c: nat)
    requires c <= 256
    ensures Below(b, 0, c) <= |b|
  {
    BelowAll(b, 0, 256);
    BelowMono(b, 0, c, 256);
  }

  /** The first n words cleared; the others keep whatever they held, as 32-bit words. */
  method ClearWords(bhtab: array<Word>, n: nat)
    requires n <= bhtab.Length
    modifies bhtab
    ensures forall i :: 0 <= i < n ==> bhtab[i] == Filled(false)
    ensures forall i :: n <= i < bhtab.Length ==> bhtab[i] == old(bhtab[i])
  {
    for i := 0 to n
      invariant forall k :: 0 <= k < i ==> bhtab[k] == Filled(false)
      invariant forall k :: i <= k < bhtab.Length ==> bhtab[k] == old(bhtab[k])
    {
      bhtab[i] := Filled(false);
    }
  }

  lemma MarkNone(tab: seq<Word>, b: seq<byte>)
    requires Words(tab) && |b| + 97 <= 32 * |tab| && forall i :: 0 <= i < 2 + |b| / 32 ==> tab[i] == Filled(false)
    ensures Marked(tab, b, 0)
  {}

  lemma MarkOne(tab: seq<Word>, tab': seq<Word>, b: seq<byte>, c: nat)
    requires Words(tab) && Words(tab') && |tab| == |tab'| && |b| + 64 <= 32 * |tab| && Marked(tab, b, c)
    requires Below(b, 0, c) <= |b| && BitAt(tab', Below(b, 0, c))
    requires forall x: nat :: x < 32 * |tab| && x != Below(b, 0, c) ==> BitAt(tab', x) == BitAt(tab, x)
    ensures Marked(tab', b, c + 1)
  {
    hide IsStart, Below, BitAt;
    forall z: nat | z < |b|
      ensures BitAt(tab', z) <==> IsStart(b, c + 1, z)
    {
      StartStep(b, c, z);
    }
  }

  lemma MarkKept(tab: seq<Word>, tab': seq<Word>, b: seq<byte>, c: nat, z: nat)
    requires Words(tab) && Words(tab') && |tab| == |tab'| && |b| + 64 <= 32 * |tab| && Marked(tab, b, c) && |b| <= z
    requires forall x: nat :: x < 32 * |tab| && x != z && x != z + 1 ==> BitAt(tab', x) == BitAt(tab, x)
    ensures Marked(tab', b, c)
  {
    hide IsStart, BitAt;
  }

  lemma BucketHeader(b: seq<byte>, tab: seq<Word>, c: nat, i: nat)
    requires Words(tab) && |b| + 64 <= 32 * |tab| && Marked(tab, b, 256) && c < 256 && i < |b| && InBucket(b, c, i)
    ensures Header(BitsOf(tab, |b|), i) == Below(b, 0, c)
  {
    hide Below, Header, BitAt;
    var bits, h := BitsOf(tab, |b|), Below(b, 0, c);
    assert IsStart(b, 256, h);
    HeaderOwnOf(bits, h);
    forall k | h < k <= i
      ensures !bits[k]
    {
      if bits[k] {
        var d: nat :| d < 256 && Below(b, 0, d) == k;
        if d <= c { BelowMono(b, 0, d, c); } else { BelowMono(b, 0, c + 1, d); }
      }
    }
    HeaderShared(bits, h, i);
  }

  lemma HeaderOwnOf(bits: seq<bool>, i: nat)
    requires i < |bits| && bits[i]
    ensures Header(bits, i) == i
  {}

  /** The radix sort gives the classes of depth one. */
  lemma FirstLevel(b: seq<byte>, f: seq<nat>, tab: seq<Word>)
    requires Words(tab) && |b| + 64 <= 32 * |tab| && Marked(tab, b, 256) && Bucketed(b, f)
    ensures Level(b, f, BitsOf(tab, |b|), 1)
  {
    hide Below, Header, BitAt, Marked, InBucket, BitsOf;
    var bits := BitsOf(tab, |b|);
    forall i, j | 0 <= i < |b| && 0 <= j < |b|
      ensures LeH(b, f[i], f[j], 1) <==> Header(bits, i) <= Header(bits, j)
    {
      BucketHeader(b, tab, b[f[i]], i);
      BucketHeader(b, tab, b[f[j]], j);
      StartsOrder(b, b[f[i]], b[f[j]], i, j);
      assert LeH(b, f[i], f[j], 1) <==> b[f[i]] <= b[f[j]];
    }
  }

  // ---------- one pass ----------

  /** eclass of each rotation := the header of the rotation H places on. */
  method MakeKeys(fmap: array<nat>, arr2: array<byte>, bhtab: array<Word>, H: nat, nblock: nat)
    requires nblock <= fmap.Length && 4 * nblock <= arr2.Length && nblock < BLOCK_LIMIT && 1 <= H <= nblock
    requires IsPerm(fmap[..nblock], nblock) && Words(bhtab[..]) && nblock <= 32 * bhtab.Length
    requires (fmap as object) != (arr2 as object) && (bhtab as object) != (arr2 as object)
    modifies arr2
    ensures forall i :: 0 <= i < nblock ==> fmap[i] < nblock
    ensures forall i :: 0 <= i < nblock ==>
              WordAt(arr2[..], Back(nblock, fmap[i], H)) == Header(BitsOf(bhtab[..], nblock), i)
  {
    hide WordAt, IsPerm, BitAt, Words;
    ghost var bits, f := BitsOf(bhtab[..], nblock), fmap[..nblock];
    var j := 0;
    PermBelow(f, nblock);
    for i := 0 to nblock
      invariant j < nblock && (i > 0 ==> j == Header(bits, i - 1)) && (i == 0 ==> j == 0)
      invariant forall x :: 0 <= x < i ==> WordAt(arr2[..], Back(nblock, f[x], H)) == Header(bits, x)
    {
      if BitAt(bhtab[..], i) { j := i; }
      assert f[i] == fmap[i];
      var k: int := fmap[i] - H;
      if k < 0 { k := k + nblock; }
      forall x | 0 <= x < i
        ensures Back(nblock, f[x], H) != k
      {
        PermApart(f, nblock, x, i);
      }
      PutWord(arr2, k, j);
    }
  }

  lemma PermBelow(f: seq<nat>, n: nat)
    requires IsPerm(f, n)
    ensures |f| == n && forall i :: 0 <= i < n ==> f[i] < n
  {}

  lemma PermApart(f: seq<nat>, n: nat, i: nat, j: nat)
    requires IsPerm(f, n) && i < j < n
    ensures f[i] != f[j]
  {}

  /** From place k on, the headers are still those the pass began with. */
  ghost predicate TailKept(bits: seq<bool>, bits': seq<bool>, k: nat) {
    |bits| == |bits'| && forall i :: k <= i < |bits| ==> bits'[i] == bits[i]
  }

  /** Singleton buckets need nothing. */
  lemma RefinedSkip(bits: seq<bool>, bits': seq<bool>, f: seq<nat>, ec: seq<nat>, k: nat, l: nat)
    requires Refined(bits, bits', f, ec, k) && TailKept(bits, bits', k) && k <= l <= |bits|
    requires forall i :: k <= i < l ==> bits'[i]
    ensures Refined(bits, bits', f, ec, l) && TailKept(bits, bits', l)
    ensures forall i :: k <= i < l ==> bits[i]
  {
    hide Header;
    forall i, j | 0 <= i < j < l
      ensures Header(bits, i) == Header(bits, j) ==> ec[f[i]] <= ec[f[j]]
    {
      if j >= k {
        assert bits'[j];
        HeaderOwnOf(bits, j);
        HeaderLow(bits, i);
      }
    }
  }

  /** A bucket sorted by ec, with a header at each change. */
  lemma RefinedBucket(bits: seq<bool>, bits': seq<bool>, bits'': seq<bool>, f: seq<nat>, f': seq<nat>, ec: seq<nat>,
                      l: nat, r: nat)
    requires Refined(bits, bits', f, ec, l) && TailKept(bits, bits', l) && l < r < |bits| && bits'[l]
    requires forall i :: l < i <= r ==> !bits'[i]
    requires Shuffled(f, f', l, r + 1) && Into(f', ec, 0, |f'|)
    requires forall i, j :: l <= i < j <= r ==> ec[f'[i]] <= ec[f'[j]]
    requires |bits''| == |bits| && forall i :: 0 <= i < |bits| && !(l < i <= r) ==> bits''[i] == bits'[i]
    requires forall i :: l < i <= r ==> bits''[i] == (ec[f'[i]] != ec[f'[i - 1]])
    ensures Refined(bits, bits'', f', ec, r + 1) && TailKept(bits, bits'', r + 1)
  {
    hide Header;
    assert bits[l] && bits''[l];
    forall i | 0 < i < r + 1
      ensures bits''[i] == (bits[i] || ec[f'[i]] != ec[f'[i - 1]])
    {
      if i < l {
        assert f'[i] == f[i] && f'[i - 1] == f[i - 1];
      } else if i > l {
        assert !bits'[i] && bits'[i] == bits[i];
      }
    }
    forall i, j | 0 <= i < j < r + 1
      ensures Header(bits, i) == Header(bits, j) ==> ec[f'[i]] <= ec[f'[j]]
    {
      if i < l <= j { HeaderShared(bits, i, j); }
      if j < l { assert f'[i] == f[i] && f'[j] == f[j]; }
    }
  }

  lemma HeaderLow(bits: seq<bool>, i: nat)
    requires i < |bits|
    ensures Header(bits, i) <= i
  {}

  /** Generates the headers of a bucket that has just been sorted. */
  method MarkChanges(fmap: array<nat>, ec: seq<nat>, bhtab: array<Word>, l: nat, r: nat)
    requires l <= r < fmap.Length && Into(fmap[..], ec, l, r + 1) && Words(bhtab[..]) && r < 32 * bhtab.Length
    requires BitAt(bhtab[..], l) && forall i: nat :: l < i <= r ==> !BitAt(bhtab[..], i)
    requires (fmap as object) != (bhtab as object)
    modifies bhtab
    ensures Words(bhtab[..])
    ensures forall x: nat :: x < 32 * bhtab.Length && !(l < x <= r) ==> BitAt(bhtab[..], x) == BitAt(old(bhtab[..]), x)
    ensures forall i: nat :: l < i <= r ==>
              BitAt(bhtab[..], i) == (KeyAt(fmap[..], ec, i) != KeyAt(fmap[..], ec, i - 1))
  {
    hide BitAt, Words;
    var cc: int := -1;
    for i: nat := l to r + 1
      invariant Words(bhtab[..]) && (i == l ==> cc == -1) && (i > l ==> cc == KeyAt(fmap[..], ec, i - 1))
      invariant forall x: nat :: x < 32 * bhtab.Length && !(l < x < i) ==>
                  BitAt(bhtab[..], x) == BitAt(old(bhtab[..]), x)
      invariant forall x: nat :: l < x < i ==>
                  BitAt(bhtab[..], x) == (KeyAt(fmap[..], ec, x) != KeyAt(fmap[..], ec, x - 1))
    {
      var cc1 := ec[fmap[i]];
      if cc != cc1 {
        PutBit(bhtab, i, true);
        cc := cc1;
      }
    }
  }

  /** What holds within a pass, with the buckets before place k refined. */
  ghost predicate Passing(b: seq<byte>, f: seq<nat>, tab: seq<Word>, bits: seq<bool>, ec: seq<nat>, H: nat, k: nat) {
    && Words(tab) && |b| + 97 <= 32 * |tab| && Sentinels(tab, |b|) && k <= |b| && BitAt(tab, k) && BitAt(tab, 0)
    && Bucketed(b, f) && Level(b, f, bits, H) && Ahead(b, ec, H) && 0 < H
    && Refined(bits, BitsOf(tab, |b|), f, ec, k) && TailKept(bits, BitsOf(tab, |b|), k)
  }

  lemma PassStart(b: seq<byte>, f: seq<nat>, tab: seq<Word>, ec: seq<nat>, H: nat)
    requires Words(tab) && |b| + 97 <= 32 * |tab| && Sentinels(tab, |b|) && 0 < |b| && 0 < H && BitAt(tab, 0)
    requires Bucketed(b, f) && Level(b, f, BitsOf(tab, |b|), H) && Ahead(b, ec, H)
    ensures Passing(b, f, tab, BitsOf(tab, |b|), ec, H, 0)
  {
    hide BitAt;
  }

  /** The singletons before the next bucket. */
  lemma PassSkip(b: seq<byte>, f: seq<nat>, tab: seq<Word>, bits: seq<bool>, ec: seq<nat>, H: nat, k: nat, l: nat)
    requires Passing(b, f, tab, bits, ec, H, k) && k <= l <= |b| && Run(tab, k, l, true) && BitAt(tab, l)
    ensures Passing(b, f, tab, bits, ec, H, l)
    ensures forall i :: k <= i < l ==> bits[i]
  {
    hide BitAt, BitsOf, Level, Bucketed, Ahead, Sentinels, Refined, TailKept;
    var bits' := BitsOf(tab, |b|);
    RefinedSize(bits, bits', f, ec, k);
    assert forall i: nat :: k <= i < l ==> bits'[i] == BitAt(tab, i);
    RefinedSkip(bits, bits', f, ec, k, l);
  }

  lemma RefinedSize(bits: seq<bool>, bits': seq<bool>, f: seq<nat>, ec: seq<nat>, k: nat)
    requires Refined(bits, bits', f, ec, k)
    ensures |bits| == |bits'| == |f|
  {}

  /** Sorting the bucket from l to r rearranges it, and its bytes do not change. */
  lemma PassSort(b: seq<byte>, f: seq<nat>, f': seq<nat>, tab: seq<Word>, bits: seq<bool>, ec: seq<nat>, H: nat, l: nat,
                 r: nat)
    requires Passing(b, f, tab, bits, ec, H, l) && l < r < |b| && Run(tab, l + 1, r + 1, false)
             && Shuffled(f, f', l, r + 1)
    ensures Bucketed(b, f') && Level(b, f', bits, H) && forall k :: l < k <= r ==> !bits[k]
  {
    hide BitAt, Ahead, Sentinels, Refined, Shuffled, LeH, Below, Header, InBucket;
    assert TailKept(bits, BitsOf(tab, |b|), l);
    forall k | l < k <= r
      ensures !bits[k]
    {
      assert BitsOf(tab, |b|)[k] == BitAt(tab, k) == bits[k];
    }
    LevelShuffle(b, f, f', bits, H, l, r);
    forall i | 0 <= i < |b|
      ensures InBucket(b, b[f'[i]], i)
    {
      assert InBucket(b, b[f[i]], i) && b[f'[i]] == b[f[i]];
    }
  }

  /** A bucket sorted and marked. */
  lemma PassBucket(b: seq<byte>, f: seq<nat>, f': seq<nat>, tab: seq<Word>, tab': seq<Word>, bits: seq<bool>,
                   ec: seq<nat>,
                   H: nat, l: nat, r: nat)
    requires Passing(b, f, tab, bits, ec, H, l) && l < r < |b| && Run(tab, l + 1, r + 1, false) && BitAt(tab, r + 1)
    requires Shuffled(f, f', l, r + 1) && Into(f', ec, 0, |f'|) && InOrder(f', ec, l, r + 1)
    requires Words(tab') && |tab'| == |tab|
    requires forall x: nat :: x < 32 * |tab| && !(l < x <= r) ==> BitAt(tab', x) == BitAt(tab, x)
    requires forall i: nat :: l < i <= r ==> BitAt(tab', i) == (KeyAt(f', ec, i) != KeyAt(f', ec, i - 1))
    ensures Passing(b, f', tab', bits, ec, H, r + 1)
  {
    hide BitAt, Level, Ahead, Refined, TailKept, Shuffled, Bucketed;
    PassSort(b, f, f', tab, bits, ec, H, l, r);
    var bits', bits'' := BitsOf(tab, |b|), BitsOf(tab', |b|);
    LevelSize(b, f', bits, H);
    RefinedSize(bits, bits', f, ec, l);
    forall i | 0 <= i < |f'|
      ensures KeyAt(f', ec, i) == ec[f'[i]]
    {}
    RefinedBucket(bits, bits', bits'', f, f', ec, l, r);
    assert Sentinels(tab', |b|);
  }

  lemma LevelSize(b: seq<byte>, f: seq<nat>, bits: seq<bool>, H: nat)
    requires Level(b, f, bits, H)
    ensures |f| == |b| == |bits|
  {}

  /** The end of a pass: the depth has doubled. */
  lemma PassEnd(b: seq<byte>, f: seq<nat>, tab: seq<Word>, bits: seq<bool>, ec: seq<nat>, H: nat, H2: nat)
    requires Passing(b, f, tab, bits, ec, H, |b|) && H2 == H + H
    ensures Level(b, f, BitsOf(tab, |b|), H2) && Bucketed(b, f) && Words(tab) && Sentinels(tab, |b|)
    ensures BitAt(tab, 0) && |bits| == |b|
    ensures (forall i :: 0 <= i < |b| ==> bits[i]) ==> forall i :: 0 <= i < |b| ==> BitsOf(tab, |b|)[i]
  {
    hide BitAt, Level, Ahead, Header;
    LevelDoubled(b, f, bits, BitsOf(tab, |b|), ec, H, H2);
    RefinedHeaders(bits, BitsOf(tab, |b|), f, ec);
  }

  lemma RefinedHeaders(bits: seq<bool>, bits': seq<bool>, f: seq<nat>, ec: seq<nat>)
    requires Refined(bits, bits', f, ec, |bits|)
    ensures |bits| == |bits'| && forall i :: 0 < i < |bits| && bits[i] ==> bits'[i]
  {
    forall i: nat | 0 < i < |bits| && bits[i]
      ensures bits'[i]
    {
      RefinedAt(bits, bits', f, ec, |bits|, i);
    }
  }

  lemma RefinedAt(bits: seq<bool>, bits': seq<bool>, f: seq<nat>, ec: seq<nat>, k: nat, i: nat)
    requires Refined(bits, bits', f, ec, k) && 0 < i < k
    ensures f[i] < |ec| && f[i - 1] < |ec| && bits'[i] == (bits[i] || ec[f[i]] != ec[f[i - 1]])
  {}

  /** One pass over the buckets: each with more than one entry is sorted by the keys and marked. */
  method RefineBuckets(fmap: array<nat>, ec: seq<nat>, bhtab: array<Word>, nblock: nat, ghost b: seq<byte>, H: nat,
                       ghost H2: nat)
    returns (nNotDone: nat)
    requires nblock == |b| <= fmap.Length && 0 < nblock && nblock + 1 < BLOCK_LIMIT && H2 == H + H
    requires (fmap as object) != (bhtab as object) && Words(bhtab[..])
    requires |b| + 97 <= 32 * bhtab.Length && Passing(b, fmap[..nblock], bhtab[..], BitsOf(bhtab[..], nblock), ec, H, 0)
    modifies fmap, bhtab
    ensures Words(bhtab[..]) && Sentinels(bhtab[..], nblock) && Bucketed(b, fmap[..nblock])
    ensures Level(b, fmap[..nblock], BitsOf(bhtab[..], nblock), H2)
    ensures BitAt(bhtab[..], 0) && (nNotDone == 0 ==> forall i :: 0 <= i < nblock ==> BitsOf(bhtab[..], nblock)[i])
  {
    hide *;
    nNotDone := 0;
    ghost var bits := BitsOf(bhtab[..], nblock);
    var k0 := 0;
    while true
      invariant k0 <= nblock && Words(bhtab[..]) && Passing(b, fmap[..nblock], bhtab[..], bits, ec, H, k0)
      invariant nNotDone == 0 ==> forall i :: 0 <= i < k0 ==> bits[i]
      decreases nblock - k0
    {
      ghost var f, tab := fmap[..nblock], bhtab[..];
      PassReady(b, f, tab, bits, ec, H, k0);
      var found, l, r := NextBucket(bhtab, k0, nblock);
      if !found {
        PassSkip(b, f, tab, bits, ec, H, k0, nblock);
        break;
      }
      RunParts(tab, k0, l);
      PassSkip(b, f, tab, bits, ec, H, k0, l);
      nNotDone := nNotDone + (r - l + 1);
      RefineOne(fmap, ec, bhtab, nblock, b, H, bits, l, r);
      k0 := r + 1;
    }
    PassEnd(b, fmap[..nblock], bhtab[..], bits, ec, H, H2);
  }

  lemma PassReady(b: seq<byte>, f: seq<nat>, tab: seq<Word>, bits: seq<bool>, ec: seq<nat>, H: nat, k: nat)
    requires Passing(b, f, tab, bits, ec, H, k)
    ensures Words(tab) && |b| + 97 <= 32 * |tab| && Sentinels(tab, |b|) && BitAt(tab, k) && BitAt(tab, |b|)
            && |bits| == |b| == |f|
  {
    assert BitAt(tab, |b| + 2 * 0);
  }

  lemma RunParts(tab: seq<Word>, k0: nat, l: nat)
    requires Words(tab) && k0 <= l < 32 * |tab| && Run(tab, k0, l + 1, true)
    ensures Run(tab, k0, l, true) && BitAt(tab, l)
  {}

  /** Sorts and marks the bucket from l to r. */
  method RefineOne(fmap: array<nat>, ec: seq<nat>, bhtab: array<Word>, nblock: nat, ghost b: seq<byte>, ghost H: nat,
                   ghost bits: seq<bool>,
                   l: nat, r: nat)
    requires nblock == |b| <= fmap.Length && nblock + 1 < BLOCK_LIMIT && l < r < nblock && Words(bhtab[..])
    requires (fmap as object) != (bhtab as object) && |b| + 97 <= 32 * bhtab.Length
    requires Passing(b, fmap[..nblock], bhtab[..], bits, ec, H, l) && Run(bhtab[..], l + 1, r + 1, false)
             && BitAt(bhtab[..], r + 1)
    modifies fmap, bhtab
    ensures Words(bhtab[..]) && Passing(b, fmap[..nblock], bhtab[..], bits, ec, H, r + 1)
  {
    hide *;
    ghost var f, tab, whole := fmap[..nblock], bhtab[..], fmap[..];
    assert whole[..nblock] == f;
    PassInto(b, f, tab, bits, ec, H, l);
    WholeInto(whole, ec, l, r + 1, nblock);
    FallbackQSort3(fmap, ec, l, r);
    ShuffledPrefix(whole, fmap[..], l, r + 1, nblock);
    assert fmap[..][..nblock] == fmap[..nblock];
    RunClear(tab, l, r);
    MarkChanges(fmap, ec, bhtab, l, r);
    PrefixKeys(fmap[..], ec, l, r + 1, nblock);
    ShuffledInto(f, fmap[..nblock], ec, 0, nblock) by { ShuffledWider(f, fmap[..nblock], l, r + 1, 0, nblock); }
    PassBucket(b, f, fmap[..nblock], tab, bhtab[..], bits, ec, H, l, r);
  }

  lemma PassInto(b: seq<byte>, f: seq<nat>, tab: seq<Word>, bits: seq<bool>, ec: seq<nat>, H: nat, k: nat)
    requires Passing(b, f, tab, bits, ec, H, k)
    ensures Into(f, ec, 0, |f|) && |f| == |b| && BitAt(tab, k)
  {}

  lemma WholeInto(a: seq<nat>, key: seq<nat>, lo: nat, end: nat, n: nat)
    requires end <= n <= |a| && Into(a[..n], key, 0, n)
    ensures Into(a, key, lo, end)
  {
    forall i | lo <= i < end
      ensures a[i] < |key|
    {
      assert a[..n][i] == a[i];
    }
  }

  lemma RunClear(tab: seq<Word>, l: nat, r: nat)
    requires Words(tab) && r + 1 <= 32 * |tab| && Run(tab, l + 1, r + 1, false)
    ensures forall i: nat :: l < i <= r ==> !BitAt(tab, i)
  {}

  lemma PrefixKeys(a: seq<nat>, key: seq<nat>, lo: nat, end: nat, n: nat)
    requires end <= n <= |a| && InOrder(a, key, lo, end)
    ensures InOrder(a[..n], key, lo, end) && forall i :: 0 <= i < n ==> KeyAt(a[..n], key, i) == KeyAt(a, key, i)
  {
    assert forall i :: 0 <= i < n ==> KeyAt(a[..n], key, i) == KeyAt(a, key, i);
  }

  // ---------- restoring the block ----------

  /** How many places of bucket c are at or past place i. */
  function Left(b: seq<byte>, c: nat, i: nat): nat {
    if i <= Below(b, 0, c) then Count(b, c) else if i < Below(b, 0, c + 1) then Below(b, 0, c + 1) - i else 0
  }

  ghost predicate AllLeft(left: seq<nat>, b: seq<byte>, i: nat) {
    |left| == 256 && forall c: nat :: c < 256 ==> left[c] == Left(b, c, i)
  }

  lemma LeftStep(left: seq<nat>, b: seq<byte>, c: nat, i: nat)
    requires AllLeft(left, b, i) && c < 256 && InBucket(b, c, i)
    ensures left[c] > 0 && AllLeft(left[c := left[c] - 1], b, i + 1)
    ensures forall d: nat :: d < c ==> left[d] == 0
  {
    hide Below, Count;
    forall d: nat | d < 256
      ensures Left(b, d, i + 1) == if d == c then Left(b, d, i) - 1 else Left(b, d, i)
      ensures d < c ==> Left(b, d, i) == 0
      ensures Left(b, c, i) > 0
    {
      BelowAdds(b, d);
      BelowAdds(b, c);
      if d < c { BelowMono(b, 0, d + 1, c); BelowMono(b, 0, d, d + 1); }
      if d > c { BelowMono(b, 0, c + 1, d); }
    }
  }

  lemma AtMostBucket(b: seq<byte>, j: nat, c: nat, i: nat)
    requires Below(b, 0, j) <= i && InBucket(b, c, i)
    ensures j <= c
  {
    if j > c { BelowMono(b, 0, c + 1, j); }
  }

  /** Writes each byte back: the sorted rotations begin with the bytes in order. */
  method Reconstruct(fmap: array<nat>, arr2: array<byte>, ftabCopy: array<nat>, nblock: nat, ghost b: seq<byte>)
    requires nblock == |b| <= fmap.Length && nblock <= arr2.Length && fmap != ftabCopy
    requires (arr2 as object) != (fmap as object) && (arr2 as object) != (ftabCopy as object)
    requires Bucketed(b, fmap[..nblock]) && AllLeft(ftabCopy[..], b, 0)
    modifies arr2, ftabCopy
    ensures arr2[..nblock] == b
  {
    hide *;
    ghost var f := fmap[..nblock];
    BucketedAt(b, f);
    LeftSize(ftabCopy[..], b, 0);
    BelowAdds(b, 0);
    var j := 0;
    for i := 0 to nblock
      invariant j < 256 && Below(b, 0, j) <= i && AllLeft(ftabCopy[..], b, i)
      invariant forall x :: 0 <= x < i ==> arr2[f[x]] == b[f[x]]
    {
      ghost var c: nat := b[f[i]];
      ghost var left := ftabCopy[..];
      LeftStep(left, b, c, i);
      AtMostBucket(b, j, c, i);
      while ftabCopy[j] == 0
        invariant j <= c && ftabCopy[..] == left
        decreases c - j
      {
        assert left[j] == 0;
        j := j + 1;
      }
      assert j == c;
      BucketStart(b, c, i);
      ftabCopy[j] := ftabCopy[j] - 1;
      assert f[i] == fmap[i];
      arr2[fmap[i]] := j;
    }
    AllRestored(b, f, arr2[..nblock]);
  }

  lemma BucketStart(b: seq<byte>, c: nat, i: nat)
    requires InBucket(b, c, i)
    ensures Below(b, 0, c) <= i + 1
  {}

  lemma BucketedAt(b: seq<byte>, f: seq<nat>)
    requires Bucketed(b, f)
    ensures |f| == |b| && IsPerm(f, |b|) && forall i :: 0 <= i < |b| ==> f[i] < |b| && InBucket(b, b[f[i]], i)
  {}

  lemma LeftSize(left: seq<nat>, b: seq<byte>, i: nat)
    requires AllLeft(left, b, i)
    ensures |left| == 256
  {}

  lemma AllRestored(b: seq<byte>, f: seq<nat>, m: seq<byte>)
    requires IsPerm(f, |b|) && |m| == |b| && forall x :: 0 <= x < |b| ==> f[x] < |b| && m[f[x]] == b[f[x]]
    ensures m == b
  {
    forall y | 0 <= y < |b|
      ensures m[y] == b[y]
    {
      var x := PermOnto(f, |b|, y);
    }
  }

  // ---------- the whole sort ----------

  /**
   fallbackSort: fmap lists all rotations in order, and the block, overwritten meanwhile by eclass, is back in place.
  */
  method FallbackSort(fmap: array<nat>, arr2: array<byte>, bhtab: array<Word>, nblock: nat)
    requires 0 < nblock <= fmap.Length && nblock + 1 < BLOCK_LIMIT && 4 * nblock <= arr2.Length
    requires nblock + 97 <= 32 * bhtab.Length && Words(bhtab[..])
    requires (arr2 as object) != (fmap as object) && (arr2 as object) != (bhtab as object)
             && (fmap as object) != (bhtab as object)
    modifies fmap, arr2, bhtab
    ensures IsSorted(old(arr2[..nblock]), fmap[..nblock])
    ensures arr2[..nblock] == old(arr2[..nblock]) && Words(bhtab[..])
  {
    hide *;
    var eclass8 := arr2[..nblock];
    ghost var b := eclass8;
    var ftabCopy := RadixSort(fmap, bhtab, eclass8);
    var H := 1;
    while true
      invariant 1 <= H <= nblock && Words(bhtab[..]) && Sentinels(bhtab[..], nblock) && Bucketed(b, fmap[..nblock])
      invariant Level(b, fmap[..nblock], BitsOf(bhtab[..], nblock), H) && BitAt(bhtab[..], 0)
      invariant AllLeft(ftabCopy[..], b, 0)
      decreases nblock - H
    {
      var nNotDone := Deepen(fmap, arr2, bhtab, nblock, b, H);
      H := H * 2;
      if H > nblock || nNotDone == 0 {
        LevelSorted(b, fmap[..nblock], BitsOf(bhtab[..], nblock), H);
        break;
      }
    }
    Reconstruct(fmap, arr2, ftabCopy, nblock, b);
  }

  /** The initial sort by first byte. */
  method RadixSort(fmap: array<nat>, bhtab: array<Word>, b: seq<byte>) returns (ftabCopy: array<nat>)
    requires 0 < |b| <= fmap.Length && |b| + 97 <= 32 * bhtab.Length && Words(bhtab[..])
    requires (fmap as object) != (bhtab as object)
    modifies fmap, bhtab
    ensures fresh(ftabCopy) && AllLeft(ftabCopy[..], b, 0)
    ensures Words(bhtab[..]) && Sentinels(bhtab[..], |b|) && Bucketed(b, fmap[..|b|])
    ensures Level(b, fmap[..|b|], BitsOf(bhtab[..], |b|), 1) && BitAt(bhtab[..], 0)
  {
    hide *;
    var ftab := new nat[257];
    CountBytes(ftab, b);
    ftabCopy := CopyCounts(ftab, b);
    CumulateBytes(ftab, b);
    PlaceBytes(fmap, ftab, b);
    MarkBuckets(bhtab, ftab[..], b);
    FirstLevel(b, fmap[..|b|], bhtab[..]);
    FirstMarked(bhtab[..], b);
  }

  method CopyCounts(ftab: array<nat>, b: seq<byte>) returns (ftabCopy: array<nat>)
    requires ftab.Length == 257 && Counted(ftab[..], b)
    ensures fresh(ftabCopy) && AllLeft(ftabCopy[..], b, 0)
  {
    hide Count, Below;
    ftabCopy := new nat[256];
    for i := 0 to 256
      invariant forall c :: 0 <= c < i ==> ftabCopy[c] == ftab[c]
    {
      ftabCopy[i] := ftab[i];
    }
    assert forall c :: 0 <= c < 256 ==> ftab[..][c] == ftab[c];
  }

  /** One round of the main loop: keys for depth H, then all buckets refined. */
  method Deepen(fmap: array<nat>, arr2: array<byte>, bhtab: array<Word>, nblock: nat, ghost b: seq<byte>, H: nat)
    returns (nNotDone: nat)
    requires nblock == |b| && 1 <= H <= nblock <= fmap.Length && nblock + 1 < BLOCK_LIMIT && 4 * nblock <= arr2.Length
    requires nblock + 97 <= 32 * bhtab.Length && Words(bhtab[..]) && Sentinels(bhtab[..], nblock)
             && Bucketed(b, fmap[..nblock])
    requires Level(b, fmap[..nblock], BitsOf(bhtab[..], nblock), H) && BitAt(bhtab[..], 0)
    requires (arr2 as object) != (fmap as object) && (arr2 as object) != (bhtab as object)
             && (fmap as object) != (bhtab as object)
    modifies fmap, arr2, bhtab
    ensures Words(bhtab[..]) && Sentinels(bhtab[..], nblock) && Bucketed(b, fmap[..nblock])
    ensures Level(b, fmap[..nblock], BitsOf(bhtab[..], nblock), 2 * H)
    ensures BitAt(bhtab[..], 0) && (nNotDone == 0 ==> forall i :: 0 <= i < nblock ==> BitsOf(bhtab[..], nblock)[i])
  {
    hide *;
    BucketedAt(b, fmap[..nblock]);
    MakeKeys(fmap, arr2, bhtab, H, nblock);
    var ec := WordsOf(arr2[..], nblock);
    KeysFrom(b, fmap[..nblock], BitsOf(bhtab[..], nblock), ec, arr2[..], H);
    PassStart(b, fmap[..nblock], bhtab[..], ec, H);
    nNotDone := RefineBuckets(fmap, ec, bhtab, nblock, b, H, 2 * H);
  }

  lemma FirstMarked(tab: seq<Word>, b: seq<byte>)
    requires Words(tab) && |b| + 64 <= 32 * |tab| && Marked(tab, b, 256) && 0 < |b|
    ensures BitAt(tab, 0)
  {
    hide BitAt;
    assert Below(b, 0, 0) == 0;
    assert IsStart(b, 256, 0);
  }

  lemma KeysFrom(b: seq<byte>, f: seq<nat>, bits: seq<bool>, ec: seq<nat>, mem: seq<byte>, H: nat)
    requires Level(b, f, bits, H) && 1 <= H <= |b| && 4 * |b| <= |mem| && ec == WordsOf(mem, |b|)
    requires forall i :: 0 <= i < |b| ==> f[i] < |b| && WordAt(mem, Back(|b|, f[i], H)) == Header(bits, i)
    ensures Ahead(b, ec, H)
  {
    hide WordAt, Header, Level;
    KeysAhead(b, f, bits, ec, H);
  }
}
