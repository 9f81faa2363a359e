/** mainSort: a two-byte radix sort, then big bucket by big bucket to the full order. */
module MainSort {
  import opened Bits
  import opened Permutations
  import opened Occurrences
  import opened RadixBuckets
  import opened Rotations
  import opened Shuffles
  import opened MainCompare
  import opened MainQuickSort
  import opened BucketScan

  // ---------- counting two-byte values ----------

  lemma {:induction false} CountFront(x: nat, s: seq<nat>, v: nat)
    ensures Count([x] + s, v) == Count(s, v) + if x == v then 1 else 0
    decreases |s|
  {
    if s != [] {
      var k := |s| - 1;
      CountFront(x, s[..k], v);
      assert ([x] + s)[..|s|] == [x] + s[..k];
    } else {
      assert [x] + s == [x] && [x][..0] == [];
    }
  }

  lemma CountFrom(s: seq<nat>, i: nat, v: nat)
    requires i < |s|
    ensures Count(s[i..], v) == Count(s[i + 1..], v) + if s[i] == v then 1 else 0
  {
    CountFront(s[i], s[i + 1..], v);
    assert s[i..] == [s[i]] + s[i + 1..];
  }

  /** ftab counts the keys from place i on. */
  ghost predicate CountedFrom(ftab: seq<nat>, keys: seq<nat>, i: nat) {
    |ftab| == 0x1_0001 && i <= |keys| && forall v: nat :: v <= 0x1_0000 ==> ftab[v] == Count(keys[i..], v)
  }

  lemma CountedStep(ftab: seq<nat>, keys: seq<nat>, i: nat)
    requires i < |keys| && CountedFrom(ftab, keys, i + 1) && keys[i] <= 0x1_0000
    ensures CountedFrom(ftab[keys[i] := ftab[keys[i]] + 1], keys, i)
  {
    forall v: nat | v <= 0x1_0000
      ensures ftab[keys[i] := ftab[keys[i]] + 1][v] == Count(keys[i..], v)
    {
      CountFrom(keys, i, v);
    }
  }

  /**
   j holds the byte at place i + 1 in its high half; shifting it down and the byte at i in gives the two bytes at i.
  */
  lemma ShiftIn(b: seq<byte>, j: nat, i: nat)
    requires i < |b| && j < 0x1_0000 && j / 256 == b[Next(|b|, i)]
    ensures j / 256 + 256 * (b[i] as nat) == Two(b, i) && Two(b, i) / 256 == b[i]
  {}

  method CountPairs(ftab: array<nat>, block: array<byte>, quadrant: array<nat>, nblock: nat, ghost b: seq<byte>)
    requires ftab != quadrant && ftab.Length == 0x1_0001 && 2 <= nblock == |b| <= block.Length
             && nblock <= quadrant.Length
    requires block[..nblock] == b
    modifies ftab, quadrant
    ensures CountedFrom(ftab[..], Pairs(b), 0) && forall i :: 0 <= i < nblock ==> quadrant[i] == 0
  {
    hide Count, Two, Pairs, Next;
    for i := 0 to 0x1_0001
      invariant forall v: nat :: v < i ==> ftab[v] == 0
    {
      ftab[i] := 0;
    }
    NoneCounted(ftab[..], Pairs(b));
    var j := 256 * block[0] as nat;
    var i: int := nblock - 1;
    LastNext(nblock);
    while i >= 0
      invariant -1 <= i < nblock && j < 0x1_0000 && j / 256 == block[if i + 1 == nblock then 0 else i + 1]
      invariant CountedFrom(ftab[..], Pairs(b), i + 1)
      invariant forall x :: i < x < nblock ==> quadrant[x] == 0
    {
      quadrant[i] := 0;
      NextOf(nblock, i);
      ShiftIn(b, j, i);
      CountedStep(ftab[..], Pairs(b), i);
      j := j / 256 + 256 * block[i] as nat;
      ftab[j] := ftab[j] + 1;
      i := i - 1;
    }
  }

  lemma NoneCounted(ftab: seq<nat>, keys: seq<nat>)
    requires |ftab| == 0x1_0001 && forall v: nat :: v < 0x1_0001 ==> ftab[v] == 0
    ensures CountedFrom(ftab, keys, |keys|)
  {
    assert keys[|keys|..] == [];
  }

  lemma LastNext(n: nat)
    requires n > 0
    ensures Next(n, n - 1) == 0
  {}

  lemma NextOf(n: nat, i: nat)
    requires i < n
    ensures Next(n, i) == (if i + 1 == n then 0 else i + 1) < n
  {}

  /** The repeated bytes behind the block, with quadrant zero. */
  method Overshoot(block: array<byte>, quadrant: array<nat>, nblock: nat, ghost b: seq<byte>)
    requires |b| == nblock > N_OVERSHOOT && nblock + N_OVERSHOOT <= block.Length
             && nblock + N_OVERSHOOT <= quadrant.Length
    requires block[..nblock] == b && (block as object) != (quadrant as object)
             && forall i :: 0 <= i < nblock ==> quadrant[i] == 0
    modifies block, quadrant
    ensures block[..nblock] == b && Extends(block[..], b) && Sound(quadrant[..], b)
  {
    hide Le;
    for i := 0 to N_OVERSHOOT
      invariant block[..nblock] == b
      invariant forall x :: nblock <= x < nblock + i ==> block[x] == b[x - nblock]
      invariant forall x :: 0 <= x < nblock + i ==> quadrant[x] == 0
    {
      assert block[i] == block[..nblock][i];
      block[nblock + i] := block[i];
      quadrant[nblock + i] := 0;
    }
    assert forall x :: 0 <= x < nblock ==> block[x] == block[..nblock][x];
  }

  /** ftab[v] is one past the last place of bucket v. */
  ghost predicate EndsAt(ftab: seq<nat>, keys: seq<nat>) {
    |ftab| == 0x1_0001 && forall v: nat :: v <= 0x1_0000 ==> ftab[v] == Below(keys, 0, v + 1)
  }

  method CumulatePairs(ftab: array<nat>, ghost keys: seq<nat>)
    requires CountedFrom(ftab[..], keys, 0)
    modifies ftab
    ensures EndsAt(ftab[..], keys)
  {
    hide Below, Count;
    assert keys[0..] == keys;
    BelowAdds(keys, 0);
    for v: nat := 1 to 0x1_0001
      invariant forall u: nat :: u < v ==> ftab[u] == Below(keys, 0, u + 1)
      invariant forall u: nat :: v <= u <= 0x1_0000 ==> ftab[u] == Count(keys, u)
    {
      BelowAdds(keys, v);
      ftab[v] := ftab[v] + ftab[v - 1];
    }
  }

  // ---------- placing ----------

  /** Place p holds an index already handled, with the key of its bucket, and pos points back at it. */
  ghost predicate PlacedAt(f: seq<nat>, keys: seq<nat>, pos: seq<nat>, i: nat, v: nat, p: nat) {
    p < |f| && i <= f[p] < |keys| == |pos| && keys[f[p]] == v && pos[f[p]] == p
  }

  /** The placement of the indices from i on: each bucket is filled from its end down to ftab[v]. */
  ghost predicate PlacingFrom(f: seq<nat>, ftab: seq<nat>, keys: seq<nat>, pos: seq<nat>, i: nat) {
    && |ftab| == 0x1_0001 && i <= |keys|
    && (forall v: nat :: v <= 0x1_0000 ==> ftab[v] + Count(keys[i..], v) == Below(keys, 0, v + 1))
    && forall v: nat,
       p: nat :: v <= 0x1_0000 && ftab[v] <= p < Below(keys, 0, v + 1) ==> PlacedAt(f, keys, pos, i, v, p)
  }

  lemma PlaceRoom(f: seq<nat>, ftab: seq<nat>, keys: seq<nat>, pos: seq<nat>, i: nat)
    requires PlacingFrom(f, ftab, keys, pos, i + 1) && i < |keys| && forall x :: 0 <= x < |keys| ==> keys[x] < 0x1_0000
    ensures var v := keys[i]; 0 <= Below(keys, 0, v) <= ftab[v] - 1 < Below(keys, 0, v + 1) <= |keys|
  {
    var v := keys[i];
    CountFrom(keys, i, v);
    CountSuffix(keys, i, v);
    BelowAdds(keys, v);
    BelowAll(keys, 0, 0x1_0000);
    BelowMono(keys, 0, v + 1, 0x1_0000);
  }

  lemma {:induction false} CountSuffix(s: seq<nat>, i: nat, v: nat)
    requires i <= |s|
    ensures Count(s[i..], v) <= Count(s, v)
    decreases i
  {
    if i == 0 {
      assert s[0..] == s;
    } else {
      CountSuffix(s, i - 1, v);
      CountFrom(s, i - 1, v);
    }
  }

  lemma PlaceStep(f: seq<nat>, ftab: seq<nat>, keys: seq<nat>, pos: seq<nat>, i: nat)
    requires PlacingFrom(f, ftab, keys, pos, i + 1) && i < |keys| <= |f| && |pos| == |keys|
             && forall x :: 0 <= x < |keys| ==> keys[x] < 0x1_0000
    ensures ftab[keys[i]] > 0
    ensures var k: nat := ftab[keys[i]] - 1;
            k < |keys| && PlacingFrom(f[k := i], ftab[keys[i] := k], keys, pos[i := k], i)
  {
    hide Below, Count;
    PlaceRoom(f, ftab, keys, pos, i);
    var k: nat := ftab[keys[i]] - 1;
    var f', ftab', pos' := f[k := i], ftab[keys[i] := k], pos[i := k];
    forall v: nat | v <= 0x1_0000
      ensures ftab'[v] + Count(keys[i..], v) == Below(keys, 0, v + 1)
    {
      CountFrom(keys, i, v);
    }
    forall v: nat, p: nat | v <= 0x1_0000 && ftab'[v] <= p < Below(keys, 0, v + 1)
      ensures PlacedAt(f', keys, pos', i, v, p)
    {
      if !(v == keys[i] && p == k) {
        assert PlacedAt(f, keys, pos, i + 1, v, p);
        if p == k {
          BelowAdds(keys, v);
          CountSuffix(keys, i + 1, v);
          BucketsApart(keys, v, keys[i], p);
        }
      }
    }
  }

  method PlacePairs(ptr: array<nat>, ftab: array<nat>, block: array<byte>, nblock: nat, ghost b: seq<byte>)
    requires ptr != ftab && 2 <= nblock == |b| <= block.Length && nblock <= ptr.Length && block[..nblock] == b
             && EndsAt(ftab[..], Pairs(b))
    modifies ptr, ftab
    ensures Bucketed(Pairs(b), ptr[..nblock])
    ensures |ftab[..]| == 0x1_0001 && forall v: nat :: v <= 0x1_0000 ==> ftab[v] == Below(Pairs(b), 0, v)
  {
    hide Count, Two, Pairs, Next, Below, PlacingFrom, EndsAt;
    ghost var keys := Pairs(b);
    ghost var pos: seq<nat> := seq(nblock, _ => 0 as nat);
    PlaceStart(ptr[..], ftab[..], keys, pos);
    var s := 256 * block[0] as nat;
    var i: int := nblock - 1;
    LastNext(nblock);
    while i >= 0
      invariant -1 <= i < nblock && s < 0x1_0000 && s / 256 == block[if i + 1 == nblock then 0 else i + 1]
      invariant |pos| == nblock && ftab.Length == 0x1_0001 && PlacingFrom(ptr[..], ftab[..], keys, pos, i + 1)
    {
      NextOf(nblock, i);
      ShiftIn(b, s, i);
      PlaceStep(ptr[..], ftab[..], keys, pos, i);
      s := s / 256 + 256 * block[i] as nat;
      var j := ftab[s] - 1;
      ftab[s] := j;
      ptr[j] := i;
      pos := pos[i := j];
      i := i - 1;
    }
    PlaceEnd(ptr[..], ftab[..], keys, pos);
  }

  lemma PlaceStart(f: seq<nat>, ftab: seq<nat>, keys: seq<nat>, pos: seq<nat>)
    requires EndsAt(ftab, keys) && |pos| == |keys|
    ensures PlacingFrom(f, ftab, keys, pos, |keys|) && |ftab| == 0x1_0001
  {
    assert keys[|keys|..] == [];
  }

  lemma PlaceEnd(f: seq<nat>, ftab: seq<nat>, keys: seq<nat>, pos: seq<nat>)
    requires PlacingFrom(f, ftab, keys, pos, 0) && |keys| <= |f| && forall x :: 0 <= x < |keys| ==> keys[x] < 0x1_0000
    ensures Bucketed(keys, f[..|keys|])
    ensures forall v: nat :: v <= 0x1_0000 ==> ftab[v] == Below(keys, 0, v)
  {
    hide Below, Count;
    assert keys[0..] == keys;
    forall v: nat | v <= 0x1_0000
      ensures ftab[v] == Below(keys, 0, v)
    {
      BelowAdds(keys, v);
    }
    BelowAll(keys, 0, 0x1_0000);
    var g := f[..|keys|];
    forall i: nat | i < |keys|
      ensures g[i] < |keys| && g[i] < |pos| && pos[g[i]] == i && InBucket(keys, keys[g[i]], i)
    {
      var v := FindBucket(keys, i, 0x1_0000);
      assert PlacedAt(f, keys, pos, 0, v, i);
    }
  }

  // ---------- running order ----------

  /** The shell sort of the big buckets by size; whatever it compares, every big bucket comes up once. */
  method RunningOrder(ftab: array<nat>) returns (order: array<nat>)
    requires ftab.Length == 0x1_0001
    ensures fresh(order) && order.Length == 256 && IsPerm(order[..], 256)
  {
    hide IsPerm, Shuffled;
    order := new nat[256](i => i);
    IdentityPerm(order[..]);
    ghost var was := order[..];
    SameShuffled(was, 0, 256);
    var h: nat := 4;
    while h <= 256
      invariant Increment(h) && h > 1
      decreases 364 - h
    {
      h := 3 * h + 1;
    }
    while true
      invariant Increment(h) && h > 1 && Shuffled(was, order[..], 0, 256)
      decreases h
    {
      h := h / 3;
      for i := h to 256
        invariant Shuffled(was, order[..], 0, 256)
      {
        InsertBig(order, ftab, i, h, was);
      }
      if h == 1 { break; }
    }
    ShuffledMultiset(was, order[..], 0, 256);
    ShuffledPerm(was, order[..], 256);
  }

  predicate Increment(h: nat) {
    h == 1 || h == 4 || h == 13 || h == 40 || h == 121 || h == 364
  }

  lemma IdentityPerm(s: seq<nat>)
    requires |s| == 256 && forall i :: 0 <= i < 256 ==> s[i] == i
    ensures IsPerm(s, 256)
  {}

  /** BIGFREQ. */
  function BigFreq(ftab: seq<nat>, c: nat): int
    requires c < 256 && |ftab| == 0x1_0001
  {
    ftab[256 * (c + 1)] as int - ftab[256 * c] as int
  }

  method InsertBig(order: array<nat>, ftab: array<nat>, i: nat, h: nat, ghost was: seq<nat>)
    requires order.Length == 256 && ftab.Length == 0x1_0001 && order != ftab && 1 <= h <= i < 256
    requires Shuffled(was, order[..], 0, 256) && forall k :: 0 <= k < |was| ==> was[k] < 256
    modifies order
    ensures Shuffled(was, order[..], 0, 256)
  {
    hide Shuffled;
    ghost var g := order[..];
    AllBelow(was, order[..]);
    var vv, j := order[i], i;
    while BigFreq(ftab[..], order[j - h]) > BigFreq(ftab[..], vv)
      invariant h <= j <= i && |g| == 256 && g == order[..][j := vv] && Shuffled(was, g, 0, 256)
      invariant forall k :: 0 <= k < 256 ==> order[k] < 256
      decreases j
    {
      SwapMore(was, g, j - h, j, 0, 256);
      assert Swapped(g, j - h, j)
             == g[j - h := vv][j := order[j - h]] by { assert g[j] == vv && g[j - h] == order[j - h]; }
      g := g[j - h := vv][j := order[j - h]];
      order[j] := order[j - h];
      j := j - h;
      if j <= h - 1 { break; }
    }
    order[j] := vv;
    assert order[..] == g;
  }

  lemma AllBelow(was: seq<nat>, a: seq<nat>)
    requires Shuffled(was, a, 0, 256) && forall k :: 0 <= k < |was| ==> was[k] < 256
    ensures forall k :: 0 <= k < 256 ==> a[k] < 256
  {
    forall k | 0 <= k < 256
      ensures a[k] < 256
    {
      var m := ShuffledFrom(was, a, 0, 256, k);
    }
  }

  // ---------- the marks ----------

  /** ftab holds the starts of the small buckets, with bit 21 for those marked. */
  ghost predicate Table(ftab: seq<nat>, b: seq<byte>, marks: seq<bool>) {
    && |ftab| == 0x1_0001 && |marks| == 0x1_0000 && |b| < SETMASK && ftab[0x1_0000] == Below(Pairs(b), 0, 0x1_0000)
    && forall v: nat :: v < 0x1_0000 ==> ftab[v] == Below(Pairs(b), 0, v) + if marks[v] then SETMASK else 0
  }

  lemma TableStarts(ftab: seq<nat>, b: seq<byte>, marks: seq<bool>)
    requires Table(ftab, b, marks)
    ensures Starts(ftab, b) && |ftab| == 0x1_0001 && |marks| == 0x1_0000
    ensures forall v: nat :: v < 0x1_0000 ==> (ftab[v] >= SETMASK <==> marks[v])
  {
    hide Below;
    forall v: nat | v <= 0x1_0000
      ensures Below(Pairs(b), 0, v) <= |b|
    {
      BelowAll(Pairs(b), 0, 0x1_0000);
      BelowMono(Pairs(b), 0, v, 0x1_0000);
    }
  }

  /** ftab[v] |= SETMASK. */
  method Mark(ftab: array<nat>, v: nat, ghost b: seq<byte>, ghost marks: seq<bool>)
    requires v < 0x1_0000 && Table(ftab[..], b, marks)
    modifies ftab
    ensures Table(ftab[..], b, marks[v := true])
  {
    TableStarts(ftab[..], b, marks);
    if ftab[v] < SETMASK { ftab[v] := ftab[v] + SETMASK; }
  }

  /** Every marked small bucket is in order. */
  ghost predicate MarkedSorted(b: seq<byte>, f: seq<nat>, marks: seq<bool>) {
    |marks| == 0x1_0000
    && forall v: nat :: v < 0x1_0000 && marks[v] ==> InTurn(b, f, Below(Pairs(b), 0, v), Below(Pairs(b), 0, v + 1))
  }

  /** What the main loop keeps of the pointers. */
  ghost predicate Sorted(b: seq<byte>, f: seq<nat>, marks: seq<bool>) {
    Bucketed(Pairs(b), f) && MarkedSorted(b, f, marks)
  }

  /** Consecutive marked buckets are in order together. */
  lemma RangeInTurn(b: seq<byte>, f: seq<nat>, marks: seq<bool>, v: nat, w: nat)
    requires Sorted(b, f, marks) && v <= w <= 0x1_0000 && (forall u :: v <= u < w ==> marks[u]) && |b| >= 2
    ensures InTurn(b, f, Below(Pairs(b), 0, v), Below(Pairs(b), 0, w))
  {
    hide Below, Ord, Two;
    var p := Pairs(b);
    BelowAll(p, 0, 0x1_0000);
    BelowMono(p, 0, w, 0x1_0000);
    forall i: nat, j: nat | Below(p, 0, v) <= i < j < Below(p, 0, w)
      ensures Ord(b, f[i], f[j])
    {
      PlaceKey(b, f, v, w, i);
      PlaceKey(b, f, v, w, j);
      PairsOrder(b, f[i], f[j]);
      StartsOrder(p, p[f[j]], p[f[i]], j, i);
      if p[f[i]] == p[f[j]] {
        assert InTurn(b, f, Below(p, 0, p[f[i]]), Below(p, 0, p[f[i]] + 1));
      } else if p[f[i]] > p[f[j]] {
        BelowMono(p, 0, p[f[j]] + 1, p[f[i]]);
      }
    }
  }

  lemma PlaceKey(b: seq<byte>, f: seq<nat>, v: nat, w: nat, i: nat)
    requires Bucketed(Pairs(b), f) && Below(Pairs(b), 0, v) <= i < Below(Pairs(b), 0, w) && i < |b|
    ensures f[i] < |b| && Pairs(b)[f[i]] == Two(b, f[i]) && v <= Two(b, f[i]) < w && InBucket(Pairs(b), Two(b, f[i]), i)
  {
    hide Below;
    var p := Pairs(b);
    var u := p[f[i]];
    assert InBucket(p, u, i);
    if u < v { BelowMono(p, 0, u + 1, v); }
    if u >= w { BelowMono(p, 0, w, u); }
  }

  /** A small bucket's rotations agree on two bytes. */
  lemma BucketShares(b: seq<byte>, f: seq<nat>, v: nat)
    requires Bucketed(Pairs(b), f) && |b| >= 2 && v < 0x1_0000
    ensures Share(b, f, Below(Pairs(b), 0, v), Below(Pairs(b), 0, v + 1), 2)
  {
    hide Below, Agree, Two;
    var p := Pairs(b);
    BelowAll(p, 0, 0x1_0000);
    BelowMono(p, 0, v + 1, 0x1_0000);
    forall i: nat | Below(p, 0, v) <= i < Below(p, 0, v + 1)
      ensures f[i] < |b| && Two(b, f[i]) == v
    {
      PlaceKey(b, f, v, v + 1, i);
    }
    forall i: nat, j: nat | Below(p, 0, v) <= i < Below(p, 0, v + 1) && Below(p, 0, v) <= j < Below(p, 0, v + 1)
      ensures Agree(b, f[i], f[j], 2)
    {
      PairsOrder(b, f[i], f[j]);
    }
  }

  /** Sorting one small bucket leaves the others as they are. */
  lemma BucketSorted(b: seq<byte>, f: seq<nat>, f': seq<nat>, marks: seq<bool>, v: nat)
    requires Sorted(b, f, marks) && v < 0x1_0000 && |b| >= 2 && Below(Pairs(b), 0, v + 1) <= |b|
    requires Shuffled(f, f', Below(Pairs(b), 0, v), Below(Pairs(b), 0, v + 1))
    requires InTurn(b, f', Below(Pairs(b), 0, v), Below(Pairs(b), 0, v + 1))
    ensures Sorted(b, f', marks[v := true])
  {
    hide Below, Ord, Two, Shuffled;
    var p := Pairs(b);
    var lo, hi := Below(p, 0, v), Below(p, 0, v + 1);
    ShuffledMultiset(f, f', lo, hi);
    ShuffledPerm(f, f', |b|);
    forall i: nat | i < |b|
      ensures f'[i] < |b| && InBucket(p, p[f'[i]], i)
    {
      if lo <= i < hi {
        var j := ShuffledFrom(f, f', lo, hi, i);
        PlaceKey(b, f, v, v + 1, j);
      } else {
        ShuffledOut(f, f', lo, hi, i);
        assert InBucket(p, p[f[i]], i);
      }
    }
    forall u: nat | u < 0x1_0000 && marks[v := true][u]
      ensures InTurn(b, f', Below(p, 0, u), Below(p, 0, u + 1))
    {
      if u != v {
        OtherKept(b, f, f', v, u);
      }
    }
  }

  lemma OtherKept(b: seq<byte>, f: seq<nat>, f': seq<nat>, v: nat, u: nat)
    requires u != v && Shuffled(f, f', Below(Pairs(b), 0, v), Below(Pairs(b), 0, v + 1))
    requires InTurn(b, f, Below(Pairs(b), 0, u), Below(Pairs(b), 0, u + 1))
    ensures InTurn(b, f', Below(Pairs(b), 0, u), Below(Pairs(b), 0, u + 1))
  {
    hide Below, Ord;
    var p := Pairs(b);
    forall i | Below(p, 0, u) <= i < Below(p, 0, u + 1)
      ensures f'[i] == f[i]
    {
      BucketsApart(p, u, v, i);
    }
  }

  // ---------- step 1 ----------

  /** marks' is marks with the buckets [ss, j] for j below k marked, but for [ss, ss]. */
  ghost predicate RowMarked(marks: seq<bool>, marks': seq<bool>, ss: nat, k: nat) {
    && |marks| == |marks'| == 0x1_0000 && ss < 256
    && forall v: nat :: v < 0x1_0000 ==> marks'[v] == (marks[v] || (v / 256 == ss && v % 256 != ss && v % 256 < k))
  }

  lemma RowStep(marks: seq<bool>, marks': seq<bool>, ss: nat, j: nat)
    requires RowMarked(marks, marks', ss, j) && j < 256
    ensures |marks'| == 0x1_0000
            && RowMarked(marks, if j != ss then marks'[256 * ss + j := true] else marks', ss, j + 1)
  {
    var m := if j != ss then marks'[256 * ss + j := true] else marks';
    forall v: nat | v < 0x1_0000
      ensures m[v] == (marks[v] || (v / 256 == ss && v % 256 != ss && v % 256 < j + 1))
    {
      assert v == 256 * (v / 256) + v % 256;
    }
  }

  /** One small bucket, sorted unless marked, and then marked. */
  method SortSmall(ptr: array<nat>, block: seq<byte>, quadrant: seq<nat>, ftab: array<nat>, nblock: nat, sb: nat,
                   budget: int,
                   ghost b: seq<byte>, ghost marks: seq<bool>) returns (budget': int)
    requires nblock == |b| <= ptr.Length && Extends(block, b) && Sound(quadrant, b) && ptr != ftab && budget >= 0
             && sb < 0x1_0000
    requires nblock + 1 < BLOCK_LIMIT && Table(ftab[..], b, marks) && Sorted(b, ptr[..nblock], marks)
    modifies ptr, ftab
    ensures budget' <= budget
    ensures budget' >= 0 ==> Table(ftab[..], b, marks[sb := true]) && Sorted(b, ptr[..nblock], marks[sb := true])
  {
    hide *;
    TableStarts(ftab[..], b, marks);
    StartsAt(ftab[..], b, sb);
    StartsAt(ftab[..], b, sb + 1);
    BlockBounds(block, b, sb);
    budget' := budget;
    ghost var whole, f := ptr[..], ptr[..nblock];
    assert whole[..nblock] == f;
    if !(ftab[sb] >= SETMASK) {
      var lo := Clear(ftab[sb]);
      var hi: int := Clear(ftab[sb + 1]) as int - 1;
      if hi > lo {
        BucketShares(b, f, sb) by { SortedParts(b, f, marks); }
        ShareWhole(b, whole, nblock, lo, hi + 1);
        DepthTwo();
        budget' := MainQSort3(ptr, block, quadrant, nblock, lo, hi, N_RADIX, budget, b);
        if budget' < 0 { return; }
        ShuffledPrefix(whole, ptr[..], lo, hi + 1, nblock);
        assert ptr[..][..nblock] == ptr[..nblock];
        InTurnPrefix(b, ptr[..], nblock, lo, hi + 1);
      } else {
        SameShuffled(f, lo, hi + 1);
        FewInTurn(b, f, lo, hi + 1);
      }
      BucketSorted(b, f, ptr[..nblock], marks, sb);
    } else {
      MarkedAlready(marks, sb);
    }
    Mark(ftab, sb, b, marks);
  }

  lemma MarkedAlready(marks: seq<bool>, v: nat)
    requires v < |marks| && marks[v]
    ensures marks[v := true] == marks
  {}

  lemma DepthTwo()
    ensures N_RADIX == 2 <= MAX_DEPTH
  {}

  lemma BlockBounds(block: seq<byte>, b: seq<byte>, v: nat)
    requires Extends(block, b) && v < 0x1_0000
    ensures |b| >= 2 && Below(Pairs(b), 0, v) <= Below(Pairs(b), 0, v + 1) <= |b|
  {
    BelowAll(Pairs(b), 0, 0x1_0000);
    BelowMono(Pairs(b), 0, v + 1, 0x1_0000);
    BelowMono(Pairs(b), 0, v, v + 1);
  }

  lemma SortedParts(b: seq<byte>, f: seq<nat>, marks: seq<bool>)
    requires Sorted(b, f, marks)
    ensures Bucketed(Pairs(b), f) && |marks| == 0x1_0000 && |f| == |b|
  {}

  lemma ShareWhole(b: seq<byte>, a: seq<nat>, n: nat, lo: nat, end: nat)
    requires n <= |a| && Share(b, a[..n], lo, end, 2)
    ensures Share(b, a, lo, end, 2)
  {
    hide Agree;
    assert forall i :: 0 <= i < n ==> a[..n][i] == a[i];
  }

  lemma InTurnPrefix(b: seq<byte>, a: seq<nat>, n: nat, lo: nat, end: nat)
    requires end <= n <= |a| && InTurn(b, a, lo, end)
    ensures InTurn(b, a[..n], lo, end)
  {
    hide Ord;
  }

  /** Step 1: the small buckets [ss, j] for j != ss. */
  method SortBig(ptr: array<nat>, block: seq<byte>, quadrant: seq<nat>, ftab: array<nat>, nblock: nat, ss: nat,
                 budget: int,
                 ghost b: seq<byte>, ghost marks: seq<bool>) returns (budget': int, ghost marks': seq<bool>)
    requires nblock == |b| <= ptr.Length && Extends(block, b) && Sound(quadrant, b) && ptr != ftab && budget >= 0
             && ss < 256
    requires nblock + 1 < BLOCK_LIMIT && Table(ftab[..], b, marks) && Sorted(b, ptr[..nblock], marks)
    modifies ptr, ftab
    ensures budget' <= budget
    ensures budget' >= 0 ==>
              Table(ftab[..], b, marks') && Sorted(b, ptr[..nblock], marks') && RowMarked(marks, marks', ss, 256)
  {
    hide *;
    budget', marks' := budget, marks;
    RowStart(b, ptr[..nblock], marks, ss);
    for j := 0 to 256
      invariant 0 <= budget' <= budget
      invariant Table(ftab[..], b, marks') && Sorted(b, ptr[..nblock], marks') && RowMarked(marks, marks', ss, j)
    {
      RowStep(marks, marks', ss, j);
      if j != ss {
        budget' := SortSmall(ptr, block, quadrant, ftab, nblock, 256 * ss + j, budget', b, marks');
        if budget' < 0 { return; }
        marks' := marks'[256 * ss + j := true];
      }
    }
  }

  lemma RowStart(b: seq<byte>, f: seq<nat>, marks: seq<bool>, ss: nat)
    requires Sorted(b, f, marks) && ss < 256
    ensures RowMarked(marks, marks, ss, 0)
  {}

  // ---------- step 2 ----------

  /** marks' is marks with the buckets [j, ss] for j below k marked. */
  ghost predicate ColumnMarked(marks: seq<bool>, marks': seq<bool>, ss: nat, k: nat) {
    && |marks| == |marks'| == 0x1_0000 && ss < 256
    && forall v: nat :: v < 0x1_0000 ==> marks'[v] == (marks[v] || (v % 256 == ss && v / 256 < k))
  }

  lemma ColumnStep(marks: seq<bool>, marks': seq<bool>, ss: nat, j: nat)
    requires ColumnMarked(marks, marks', ss, j) && j < 256
    ensures |marks'| == 0x1_0000 && ColumnMarked(marks, marks'[256 * j + ss := true], ss, j + 1)
  {
    forall v: nat | v < 0x1_0000
      ensures marks'[256 * j + ss := true][v] == (marks[v] || (v % 256 == ss && v / 256 < j + 1))
    {
      assert v == 256 * (v / 256) + v % 256;
    }
  }

  /** The rows and columns of the big buckets done are marked. */
  ghost predicate DoneMarked(marks: seq<bool>, done: seq<bool>) {
    && |marks| == 0x1_0000 && |done| == 256
    && forall v: nat :: v < 0x1_0000 && (done[v / 256] || done[v % 256]) ==> marks[v]
  }

  lemma ReadyHere(b: seq<byte>, f: seq<nat>, marks: seq<bool>, ss: nat, done: seq<bool>)
    requires Sorted(b, f, marks) && |b| >= 2 && ss < 256 && |done| == 256 && !done[ss]
    requires forall v: nat :: v < 0x1_0000 && v / 256 == ss && v % 256 != ss ==> marks[v]
    ensures Ready(Ctx(b, f, ss, done))
  {
    hide Below, InTurn;
    RangeInTurn(b, f, marks, 256 * ss, 256 * ss + ss);
    RangeInTurn(b, f, marks, 256 * ss + ss + 1, 256 * ss + 256);
  }

  lemma AfterScan(c: Ctx, f': seq<nat>, marks: seq<bool>, marks': seq<bool>)
    requires Sorted(c.b, c.f0, marks) && StepTwo(c, f') && DoneMarked(marks, c.done)
             && ColumnMarked(marks, marks', c.ss, 256)
    ensures Sorted(c.b, f', marks')
  {
    hide InTurn, Below, Target, Two;
    forall v: nat | v < 0x1_0000 && marks'[v]
      ensures InTurn(c.b, f', Below(Pairs(c.b), 0, v), Below(Pairs(c.b), 0, v + 1))
    {
      assert v == 256 * (v / 256) + v % 256;
      if v % 256 == c.ss && !c.done[v / 256] {
        assert InTurn(c.b, f', From(c, v / 256), To(c, v / 256));
      } else {
        assert marks[v];
        UntouchedKept(c, f', v);
      }
    }
  }

  lemma UntouchedKept(c: Ctx, f': seq<nat>, v: nat)
    requires Ready(c) && |f'| == |c.b| && (forall p: nat :: p < |c.b| && !Target(c, p) ==> f'[p] == c.f0[p])
             && v < 0x1_0000
    requires !(v % 256 == c.ss && !c.done[v / 256])
             && InTurn(c.b, c.f0, Below(Pairs(c.b), 0, v), Below(Pairs(c.b), 0, v + 1))
    ensures InTurn(c.b, f', Below(Pairs(c.b), 0, v), Below(Pairs(c.b), 0, v + 1))
  {
    hide Below, Ord;
    var p := Pairs(c.b);
    ReadySize(c);
    forall i: nat | Below(p, 0, v) <= i < Below(p, 0, v + 1)
      ensures f'[i] == c.f0[i]
    {
      PlaceKey(c.b, c.f0, v, v + 1, i);
    }
  }

  /** Step 2 and its marks. */
  method ScanAndMark(ptr: array<nat>, block: seq<byte>, ftab: array<nat>, nblock: nat, ss: nat, bigDone: seq<bool>,
                     ghost b: seq<byte>, ghost marks: seq<bool>) returns (ghost marks': seq<bool>)
    requires nblock == |b| <= ptr.Length && Extends(block, b) && ptr != ftab && ss < 256 && |bigDone| == 256
             && !bigDone[ss]
    requires Table(ftab[..], b, marks) && Sorted(b, ptr[..nblock], marks) && DoneMarked(marks, bigDone)
    requires forall v: nat :: v < 0x1_0000 && v / 256 == ss && v % 256 != ss ==> marks[v]
    modifies ptr, ftab
    ensures Table(ftab[..], b, marks') && Sorted(b, ptr[..nblock], marks') && ColumnMarked(marks, marks', ss, 256)
  {
    hide *;
    ghost var c := Ctx(b, ptr[..nblock], ss, bigDone);
    BlockBounds(block, b, 0);
    ExtendsPrefix(block, b);
    TableStarts(ftab[..], b, marks);
    ReadyHere(b, ptr[..nblock], marks, ss, bigDone);
    ScanBucket(ptr, block, nblock, ss, bigDone, ftab, c);
    marks' := marks;
    ColumnStart(marks, ss);
    for j := 0 to 256
      invariant Table(ftab[..], b, marks') && ColumnMarked(marks, marks', ss, j) && StepTwo(c, ptr[..nblock])
    {
      ColumnStep(marks, marks', ss, j);
      Mark(ftab, 256 * j + ss, b, marks');
      marks' := marks'[256 * j + ss := true];
    }
    AfterScan(c, ptr[..nblock], marks, marks');
  }

  lemma ColumnStart(marks: seq<bool>, ss: nat)
    requires |marks| == 0x1_0000 && ss < 256
    ensures ColumnMarked(marks, marks, ss, 0)
  {}

  lemma ExtendsPrefix(block: seq<byte>, b: seq<byte>)
    requires Extends(block, b)
    ensures |b| <= |block| && forall i :: 0 <= i < |b| ==> block[i] == b[i]
  {}

  // ---------- step 3 ----------

  /** j >> shifts. */
  lemma {:induction false} ShrMono(i: nat, j: nat, k: nat)
    requires i <= j
    ensures Shr(i, k) <= Shr(j, k) <= j
    decreases k, j
  {
    if k > 0 { ShrMono(i / 2, j / 2, k - 1); }
  }

  /** How far the quadrant values must be shifted to fit sixteen bits. */
  method Shifts(bbSize: nat) returns (shifts: nat)
    ensures Shr(bbSize, shifts) <= 65534
  {
    shifts := 0;
    while Shr(bbSize, shifts) > 65534
      decreases Shr(bbSize, shifts)
    {
      ShrHalf(bbSize, shifts);
      shifts := shifts + 1;
    }
  }

  /**
   The quadrants of big bucket ss from its place m on tell its rotations apart by place; all others are as they were.
  */
  ghost predicate Quadrants(q0: seq<nat>, q: seq<nat>, b: seq<byte>, f: seq<nat>, ss: nat, left: nat, right: nat,
                            m: nat, shifts: nat) {
    && |q| == |q0| >= |b| + N_OVERSHOOT && |b| > N_OVERSHOOT && |f| == |b| && left <= m <= right <= |b|
    && (forall x: nat :: m <= x < right ==> f[x] < |b| && q[f[x]] == Shr(x - left, shifts))
    && (forall i: nat :: i < |b| && b[i] != ss ==> q[i] == q0[i])
    && forall i: nat :: |b| <= i < |b| + N_OVERSHOOT ==> q[i] == q[i - |b|]
  }

  /** Big bucket ss is exactly the places from left to right. */
  ghost predicate BigBucket(b: seq<byte>, f: seq<nat>, ss: nat, left: nat, right: nat) {
    && left <= right <= |b| && IsPerm(f, |b|)
    && forall x: nat :: x < |b| ==> f[x] < |b| && (b[f[x]] == ss <==> left <= x < right)
  }

  lemma BigBucketIs(b: seq<byte>, f: seq<nat>, ss: nat)
    requires Bucketed(Pairs(b), f) && ss < 256
    ensures BigBucket(b, f, ss, Below(Pairs(b), 0, 256 * ss), Below(Pairs(b), 0, 256 * ss + 256))
  {
    hide Below;
    var p := Pairs(b);
    BelowAll(p, 0, 0x1_0000);
    BelowMono(p, 0, 256 * ss, 256 * ss + 256);
    BelowMono(p, 0, 256 * ss + 256, 0x1_0000);
    forall x: nat | x < |b|
      ensures f[x] < |b| && (b[f[x]] == ss <==> Below(p, 0, 256 * ss) <= x < Below(p, 0, 256 * ss + 256))
    {
      var v := p[f[x]];
      assert InBucket(p, v, x) && v / 256 == b[f[x]];
      if v < 256 * ss { BelowMono(p, 0, v + 1, 256 * ss); }
      if v >= 256 * ss + 256 { BelowMono(p, 0, 256 * ss + 256, v); }
      if 256 * ss <= v < 256 * ss + 256 {
        BelowMono(p, 0, 256 * ss, v);
        BelowMono(p, 0, v + 1, 256 * ss + 256);
      }
    }
  }

  /** Places in an ordered big bucket make sound quadrants. */
  lemma QuadrantsSound(q0: seq<nat>, q: seq<nat>, b: seq<byte>, f: seq<nat>, ss: nat, left: nat, right: nat,
                       shifts: nat)
    requires Sound(q0, b) && Quadrants(q0, q, b, f, ss, left, right, left, shifts) && BigBucket(b, f, ss, left, right)
             && InTurn(b, f, left, right)
    ensures Sound(q, b)
  {
    hide Le;
    forall i: nat, j: nat | i < |b| && j < |b| && b[i] == b[j] && q[i] < q[j]
      ensures Le(b, i, j)
    {
      if b[i] == ss {
        var x := PermOnto(f, |b|, i);
        var y := PermOnto(f, |b|, j);
        if x >= y { ShrMono(y - left, x - left, shifts); }
        assert Ord(b, f[x], f[y]);
      }
    }
  }

  /** One quadrant, in the overshoot too where it has a copy there. */
  lemma QuadrantStep(q0: seq<nat>, q: seq<nat>, q': seq<nat>, b: seq<byte>, f: seq<nat>, ss: nat, left: nat, right: nat,
                     m: nat, shifts: nat)
    requires Quadrants(q0, q, b, f, ss, left, right, m + 1, shifts) && BigBucket(b, f, ss, left, right)
             && left <= m < right && f[m] < |b|
    requires |q'| == |q|
             && forall i: nat :: i < |q| && i != f[m] && !(f[m] < N_OVERSHOOT && i == f[m] + |b|) ==> q'[i] == q[i]
    requires q'[f[m]] == Shr(m - left, shifts) && (f[m] < N_OVERSHOOT ==> q'[f[m] + |b|] == q'[f[m]])
    ensures Quadrants(q0, q', b, f, ss, left, right, m, shifts)
  {
    hide Shr;
    OthersDiffer(b, f, ss, left, right, m);
  }

  lemma QuadrantSizes(q0: seq<nat>, q: seq<nat>, b: seq<byte>, f: seq<nat>, ss: nat, left: nat, right: nat, m: nat,
                      shifts: nat)
    requires Quadrants(q0, q, b, f, ss, left, right, m, shifts)
    ensures |q| >= |b| + N_OVERSHOOT && |f| == |b|
  {}

  method UpdateQuadrants(ptr: array<nat>, quadrant: array<nat>, nblock: nat, ss: nat, left: nat, right: nat,
                         ghost b: seq<byte>)
    requires nblock == |b| <= ptr.Length && ptr != quadrant && Sound(quadrant[..], b) && ss < 256
    requires BigBucket(b, ptr[..nblock], ss, left, right) && InTurn(b, ptr[..nblock], left, right)
    modifies quadrant
    ensures Sound(quadrant[..], b)
  {
    assert N_OVERSHOOT == 34;
    hide *;
    ghost var q0, f := quadrant[..], ptr[..nblock];
    BigBucketBounds(b, f, ss, left, right);
    var bbSize := right - left;
    var shifts := Shifts(bbSize);
    QuadrantsStart(q0, b, f, ss, left, right, shifts);
    var j: int := bbSize - 1;
    while j >= 0
      invariant -1 <= j < bbSize && Quadrants(q0, quadrant[..], b, f, ss, left, right, left + (j + 1), shifts)
    {
      ghost var q := quadrant[..];
      QuadrantSizes(q0, q, b, f, ss, left, right, left + (j + 1), shifts);
      OthersDiffer(b, f, ss, left, right, left + j);
      assert f[left + j] == ptr[left + j];
      var a2update := ptr[left + j];
      var qVal := Shr(j, shifts);
      ShrMono(j, bbSize, shifts);
      assert qVal < 0x1_0000;
      quadrant[a2update] := qVal;
      if a2update < N_OVERSHOOT { quadrant[a2update + nblock] := qVal; }
      QuadrantStep(q0, q, quadrant[..], b, f, ss, left, right, left + j, shifts);
      j := j - 1;
    }
    QuadrantsSound(q0, quadrant[..], b, f, ss, left, right, shifts);
  }

  lemma BigBucketBounds(b: seq<byte>, f: seq<nat>, ss: nat, left: nat, right: nat)
    requires BigBucket(b, f, ss, left, right)
    ensures left <= right <= |b| == |f|
  {}

  lemma QuadrantsStart(q0: seq<nat>, b: seq<byte>, f: seq<nat>, ss: nat, left: nat, right: nat, shifts: nat)
    requires Sound(q0, b) && BigBucket(b, f, ss, left, right)
    ensures Quadrants(q0, q0, b, f, ss, left, right, right, shifts)
  {
    SoundMirror(q0, b);
  }

  lemma OthersDiffer(b: seq<byte>, f: seq<nat>, ss: nat, left: nat, right: nat, m: nat)
    requires BigBucket(b, f, ss, left, right) && left <= m < right
    ensures |f| == |b| && f[m] < |b| && b[f[m]] == ss && forall x: nat :: m < x < right ==> f[x] < |b| && f[x] != f[m]
  {}

  lemma SoundMirror(q: seq<nat>, b: seq<byte>)
    requires Sound(q, b)
    ensures |b| > N_OVERSHOOT && |q| >= |b| + N_OVERSHOOT
            && forall i: nat :: |b| <= i < |b| + N_OVERSHOOT ==> q[i] == q[i - |b|]
  {
    hide Le;
    forall i: nat | |b| <= i < |b| + N_OVERSHOOT
      ensures q[i] == q[i - |b|]
    {
      MirrorAt(q, b, i);
    }
  }

  lemma MirrorAt(q: seq<nat>, b: seq<byte>, i: nat)
    requires Sound(q, b) && |b| <= i < |b| + N_OVERSHOOT
    ensures q[i] == q[i - |b|]
  {
    hide Le;
    assert q[i] == q[Wrap(|b|, i)];
  }

  // ---------- the whole sort ----------

  /** The first i of the running order are done, the others not. */
  ghost predicate InProgress(order: seq<nat>, done: seq<bool>, i: nat) {
    && IsPerm(order, 256) && |done| == 256 && i <= 256
    && forall x: nat :: x < 256 ==> (done[order[x]] <==> x < i)
  }

  lemma ProgressStep(order: seq<nat>, done: seq<bool>, i: nat)
    requires InProgress(order, done, i) && i < 256
    ensures |order| == 256 && order[i] < 256 && |done| == 256 && !done[order[i]]
            && InProgress(order, done[order[i] := true], i + 1)
  {}

  lemma AllDone(order: seq<nat>, done: seq<bool>)
    requires InProgress(order, done, 256)
    ensures forall c: nat :: c < 256 ==> done[c]
  {
    forall c: nat | c < 256
      ensures done[c]
    {
      var x := PermOnto(order, 256, c);
    }
  }

  lemma DoneStep(marks: seq<bool>, marks1: seq<bool>, marks2: seq<bool>, done: seq<bool>, ss: nat)
    requires DoneMarked(marks, done) && RowMarked(marks, marks1, ss, 256) && ColumnMarked(marks1, marks2, ss, 256)
    ensures DoneMarked(marks2, done[ss := true])
  {
    forall v: nat | v < 0x1_0000 && (done[ss := true][v / 256] || done[ss := true][v % 256])
      ensures marks2[v]
    {
      assert marks1[v] == (marks[v] || (v / 256 == ss && v % 256 != ss && v % 256 < 256));
      assert marks2[v] == (marks1[v] || (v % 256 == ss && v / 256 < 256));
    }
  }

  lemma RowFacts(marks: seq<bool>, marks1: seq<bool>, done: seq<bool>, ss: nat)
    requires DoneMarked(marks, done) && RowMarked(marks, marks1, ss, 256)
    ensures DoneMarked(marks1, done) && forall v: nat :: v < 0x1_0000 && v / 256 == ss && v % 256 != ss ==> marks1[v]
  {}

  /** One round of the main loop. */
  method BigRound(ptr: array<nat>, block: array<byte>, quadrant: array<nat>, ftab: array<nat>, bigDone: array<bool>,
                  nblock: nat,
                  i: nat, order: array<nat>, budget: int, ghost b: seq<byte>, ghost marks: seq<bool>)
    returns (budget': int, ghost marks': seq<bool>)
    requires nblock == |b| <= ptr.Length && nblock + 1 < BLOCK_LIMIT && ptr != ftab && ptr != quadrant
             && ftab != quadrant && ptr != order && ftab != order && quadrant != order
    requires (block as object) != (ptr as object) && (block as object) != (ftab as object)
             && (block as object) != (quadrant as object)
    requires (bigDone as object) != (ptr as object) && (bigDone as object) != (ftab as object)
             && (bigDone as object) != (quadrant as object)
    requires (bigDone as object) != (block as object) && (bigDone as object) != (order as object)
    requires Extends(block[..], b) && Sound(quadrant[..], b) && budget >= 0 && i < 256
             && InProgress(order[..], bigDone[..], i)
    requires Table(ftab[..], b, marks) && Sorted(b, ptr[..nblock], marks) && DoneMarked(marks, bigDone[..])
    modifies ptr, quadrant, ftab, bigDone
    ensures budget' <= budget && order[..] == old(order[..])
    ensures budget' >= 0 ==>
              InProgress(order[..], bigDone[..], i + 1) && Table(ftab[..], b, marks') && DoneMarked(marks', bigDone[..])
    ensures budget' >= 0 ==> Sorted(b, ptr[..nblock], marks') && (i < 255 ==> Sound(quadrant[..], b))
  {
    hide *;
    ProgressStep(order[..], bigDone[..], i);
    var ss := order[i];
    ghost var marks1;
    budget', marks1 := SortBig(ptr, block[..], quadrant[..], ftab, nblock, ss, budget, b, marks);
    marks' := marks1;
    if budget' < 0 { return; }
    assert !bigDone[ss];
    RowFacts(marks, marks1, bigDone[..], ss);
    marks' := ScanAndMark(ptr, block[..], ftab, nblock, ss, bigDone[..], b, marks1);
    DoneStep(marks, marks1, marks', bigDone[..], ss);
    bigDone[ss] := true;
    if i < 255 {
      TableStarts(ftab[..], b, marks');
      StartsAt(ftab[..], b, 256 * ss);
      StartsAt(ftab[..], b, 256 * ss + 256);
      BigInTurn(b, ptr[..nblock], marks', bigDone[..], ss, block[..]);
      UpdateQuadrants(ptr, quadrant, nblock, ss, Clear(ftab[256 * ss]), Clear(ftab[256 * (ss + 1)]), b);
    }
  }

  lemma BigInTurn(b: seq<byte>, f: seq<nat>, marks: seq<bool>, done: seq<bool>, ss: nat, block: seq<byte>)
    requires Sorted(b, f, marks) && DoneMarked(marks, done) && ss < 256 && done[ss] && Extends(block, b)
    ensures BigBucket(b, f, ss, Below(Pairs(b), 0, 256 * ss), Below(Pairs(b), 0, 256 * ss + 256))
    ensures InTurn(b, f, Below(Pairs(b), 0, 256 * ss), Below(Pairs(b), 0, 256 * ss + 256))
  {
    hide Below, InTurn, BigBucket;
    BigBucketIs(b, f, ss);
    RangeInTurn(b, f, marks, 256 * ss, 256 * ss + 256);
  }

  lemma AllSorted(b: seq<byte>, f: seq<nat>, marks: seq<bool>, done: seq<bool>)
    requires Sorted(b, f, marks) && DoneMarked(marks, done) && (forall c: nat :: c < 256 ==> done[c]) && |b| >= 2
    ensures IsSorted(b, f)
  {
    hide Below, Le;
    RangeInTurn(b, f, marks, 0, 0x1_0000);
    BelowAll(Pairs(b), 0, 0x1_0000);
    BelowAdds(Pairs(b), 0);
    forall i, j | 0 <= i < j < |b|
      ensures Le(b, f[i], f[j])
    {
      assert Ord(b, f[i], f[j]);
    }
  }

  /** mainSort: unless the budget runs out, ptr lists all rotations in order; the block itself is never changed. */
  method MainSort(ptr: array<nat>, block: array<byte>, quadrant: array<nat>, ftab: array<nat>, nblock: nat, budget: int)
    returns (budget': int)
    requires N_OVERSHOOT < nblock <= ptr.Length && nblock + 1 < BLOCK_LIMIT && budget >= 0
    requires nblock + N_OVERSHOOT <= block.Length && nblock + N_OVERSHOOT <= quadrant.Length && ftab.Length == 0x1_0001
    requires ptr != ftab && ptr != quadrant && ftab != quadrant
    requires (block as object) != (ptr as object) && (block as object) != (ftab as object)
             && (block as object) != (quadrant as object)
    modifies ptr, block, quadrant, ftab
    ensures block[..nblock] == old(block[..nblock])
    ensures budget' >= 0 ==> IsSorted(block[..nblock], ptr[..nblock])
  {
    assert N_OVERSHOOT == 34 && BLOCK_LIMIT <= SETMASK;
    hide *;
    ghost var b := block[..nblock];
    CountPairs(ftab, block, quadrant, nblock, b);
    Overshoot(block, quadrant, nblock, b);
    CumulatePairs(ftab, Pairs(b));
    PlacePairs(ptr, ftab, block, nblock, b);
    var order := RunningOrder(ftab);
    var bigDone := new bool[256](_ => false);
    ghost var marks := seq(0x1_0000, _ => false);
    MainStart(b, ptr[..nblock], ftab[..], order[..], bigDone[..], marks);
    budget' := budget;
    for i := 0 to 256
      invariant budget' >= 0 && Extends(block[..], b) && block[..nblock] == b && InProgress(order[..], bigDone[..], i)
      invariant Table(ftab[..], b, marks) && Sorted(b, ptr[..nblock], marks) && DoneMarked(marks, bigDone[..])
      invariant i < 256 ==> Sound(quadrant[..], b)
    {
      budget', marks := BigRound(ptr, block, quadrant, ftab, bigDone, nblock, i, order, budget', b, marks);
      if budget' < 0 { return; }
    }
    AllDone(order[..], bigDone[..]);
    AllSorted(b, ptr[..nblock], marks, bigDone[..]);
  }

  lemma MainStart(b: seq<byte>, f: seq<nat>, ftab: seq<nat>, order: seq<nat>, done: seq<bool>, marks: seq<bool>)
    requires Bucketed(Pairs(b), f) && |ftab| == 0x1_0001
             && (forall v: nat :: v <= 0x1_0000 ==> ftab[v] == Below(Pairs(b), 0, v)) && |b| < SETMASK
    requires |marks| == 0x1_0000 && |done| == 256 && (forall v :: 0 <= v < 0x1_0000 ==> !marks[v])
             && (forall c :: 0 <= c < 256 ==> !done[c])
    requires IsPerm(order, 256)
    ensures Table(ftab, b, marks) && Sorted(b, f, marks) && DoneMarked(marks, done) && InProgress(order, done, 0)
  {
    hide Below;
  }
}
