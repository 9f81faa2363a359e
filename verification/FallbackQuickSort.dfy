/** fallbackQSort3 and fallbackSimpleSort: sorting a part of fmap by eclass. */
module FallbackQuickSort {
  import opened Bits
  import opened Permutations
  import opened Shuffles

  // ---------- fallbackSimpleSort ----------

  /** In order, but for the entry at hole, which no entry before it exceeds. */
  ghost predicate InOrderBut(a: seq<nat>, key: seq<nat>, lo: nat, end: nat, hole: nat) {
    && (forall x, y :: lo <= x < y < end && x != hole && y != hole ==> KeyAt(a, key, x) <= KeyAt(a, key, y))
    && (forall x :: lo <= x < hole && hole < end ==> KeyAt(a, key, x) <= KeyAt(a, key, hole))
  }

  lemma HoleUp(a: seq<nat>, key: seq<nat>, lo: nat, end: nat, hole: nat)
    requires lo <= hole && hole + 1 < end <= |a| && InOrderBut(a, key, lo, end, hole)
    requires KeyAt(a, key, hole) > KeyAt(a, key, hole + 1)
    ensures InOrderBut(Swapped(a, hole, hole + 1), key, lo, end, hole + 1)
  {
    hide KeyAt, Swapped;
    SwapKeys(a, Swapped(a, hole, hole + 1), key, hole, hole + 1);
  }

  lemma HoleFilled(a: seq<nat>, key: seq<nat>, lo: nat, end: nat, hole: nat)
    requires lo <= hole < end <= |a| && InOrderBut(a, key, lo, end, hole)
    requires hole + 1 < end ==> KeyAt(a, key, hole) <= KeyAt(a, key, hole + 1)
    ensures InOrder(a, key, lo, end)
  {}

  lemma HoleStart(a: seq<nat>, key: seq<nat>, lo: nat, end: nat)
    requires lo < end <= |a| && InOrder(a, key, lo + 1, end)
    ensures InOrderBut(a, key, lo, end, lo)
  {}

  /** One insertion: entry i moves up past the smaller entries, stride places at a time. */
  method Insert(fmap: array<nat>, eclass: seq<nat>, i: nat, hi: nat, stride: nat, ghost lo: nat)
    requires lo <= i <= hi < fmap.Length && stride >= 1 && Into(fmap[..], eclass, lo, hi + 1)
    modifies fmap
    ensures Shuffled(old(fmap[..]), fmap[..], lo, hi + 1) && Into(fmap[..], eclass, lo, hi + 1)
    ensures stride == 1 && InOrder(old(fmap[..]), eclass, i + 1, hi + 1) ==> InOrder(fmap[..], eclass, i, hi + 1)
  {
    hide *;
    IntoAll(fmap[..], eclass, lo, hi + 1);
    ghost var was, h := fmap[..], fmap[..];
    ghost var sorting := stride == 1 && InOrder(was, eclass, i + 1, hi + 1);
    var tmp := fmap[i];
    var ecTmp := eclass[tmp];
    var j := i + stride;
    SameShuffled(was, lo, hi + 1);
    if sorting { HoleStart(was, eclass, i, hi + 1); }
    while j <= hi && ecTmp > eclass[fmap[j]]
      invariant i + stride <= j && lo <= j - stride <= hi && |h| == fmap.Length && Into(h, eclass, lo, hi + 1)
      invariant h == fmap[..][j - stride := tmp] && forall k :: lo <= k <= hi ==> fmap[k] < |eclass|
      invariant Shuffled(was, h, lo, hi + 1)
      invariant sorting ==> InOrderBut(h, eclass, i, hi + 1, j - stride)
    {
      assert h[j] == fmap[j] && h[j - stride] == tmp;
      SameKey(h, j - stride, h, j - stride, eclass);
      SameKey(h, j, h, j, eclass);
      InsertStep(was, h, eclass, lo, i, hi, j - stride, j, sorting);
      h := h[j - stride := fmap[j]][j := tmp];
      fmap[j - stride] := fmap[j];
      j := j + stride;
    }
    assert j <= hi ==> h[j] == fmap[j];
    fmap[j - stride] := tmp;
    assert fmap[..] == h;
    SameKey(h, j - stride, h, j - stride, eclass);
    if j <= hi { SameKey(h, j, h, j, eclass); }
    if sorting { HoleFilled(h, eclass, i, hi + 1, j - stride); }
  }

  lemma IntoAll(a: seq<nat>, key: seq<nat>, lo: nat, end: nat)
    requires end <= |a|
    ensures Into(a, key, lo, end) <==> forall k :: lo <= k < end ==> a[k] < |key|
  {}

  lemma InsertStep(was: seq<nat>, h: seq<nat>, key: seq<nat>, lo: nat, i: nat, hi: nat, hole: nat, j: nat,
                   sorting: bool)
    requires lo <= i <= hole < j <= hi < |h| && Into(h, key, lo, hi + 1) && Shuffled(was, h, lo, hi + 1)
             && KeyAt(h, key, hole) > KeyAt(h, key, j)
    requires sorting ==> j == hole + 1 && InOrderBut(h, key, i, hi + 1, hole)
    ensures var h' := h[hole := h[j]][j := h[hole]];
            Into(h', key, lo, hi + 1) && Shuffled(was, h', lo, hi + 1)
            && (sorting ==> InOrderBut(h', key, i, hi + 1, j))
  {
    hide Shuffled, InOrderBut;
    SwapMore(was, h, hole, j, lo, hi + 1);
    if sorting { HoleUp(h, key, i, hi + 1, hole); }
  }

  /** fallbackSimpleSort: a pass of stride four when the part is long enough, then a plain one. */
  method FallbackSimpleSort(fmap: array<nat>, eclass: seq<nat>, lo: nat, hi: int)
    requires lo <= hi + 1 <= fmap.Length && Into(fmap[..], eclass, lo, hi + 1)
    modifies fmap
    ensures Shuffled(old(fmap[..]), fmap[..], lo, hi + 1) && Into(fmap[..], eclass, lo, hi + 1)
    ensures InOrder(fmap[..], eclass, lo, hi + 1)
  {
    hide Shuffled, InOrder;
    ghost var was := fmap[..];
    SameShuffled(was, lo, hi + 1);
    if lo == hi { ShortInOrder(was, eclass, lo, hi + 1); }
    if lo == hi { return; }
    if hi - lo > 3 {
      var i := hi - 4;
      while i >= lo
        invariant lo - 1 <= i < hi && Shuffled(was, fmap[..], lo, hi + 1) && Into(fmap[..], eclass, lo, hi + 1)
      {
        ghost var now := fmap[..];
        Insert(fmap, eclass, i, hi, 4, lo);
        ShuffledTrans(was, now, fmap[..], lo, hi + 1);
        i := i - 1;
      }
    }
    var i := hi - 1;
    LastInOrder(fmap[..], eclass, hi + 1);
    while i >= lo
      invariant lo - 1 <= i + 1 <= hi && Shuffled(was, fmap[..], lo, hi + 1) && Into(fmap[..], eclass, lo, hi + 1)
      invariant lo <= hi ==> lo <= i + 1 && InOrder(fmap[..], eclass, i + 1, hi + 1)
    {
      ghost var now := fmap[..];
      Insert(fmap, eclass, i, hi, 1, lo);
      ShuffledTrans(was, now, fmap[..], lo, hi + 1);
      i := i - 1;
    }
    ShortInOrder(fmap[..], eclass, lo, hi + 1);
  }

  lemma ShortInOrder(a: seq<nat>, key: seq<nat>, lo: nat, end: nat)
    requires end <= |a|
    ensures end <= lo + 1 ==> InOrder(a, key, lo, end)
  {}

  lemma LastInOrder(a: seq<nat>, key: seq<nat>, end: nat)
    requires end <= |a|
    ensures end > 0 ==> InOrder(a, key, end - 1, end)
  {}

  // ---------- fallbackQSort3 ----------

  const SMALL_THRESH := 10
  const STACK_SIZE := 100
  /** Blocks are smaller than this. */
  const BLOCK_LIMIT := 0x10_0000

  /** The stacked ranges lie apart within lo0..hi0; some may be empty. */
  ghost predicate Ranges(los: seq<int>, his: seq<int>, lo0: nat, hi0: int) {
    && |los| == |his|
    && (forall k :: 0 <= k < |los| ==> lo0 <= los[k] <= his[k] + 1 && his[k] <= hi0)
    && (forall k, m :: 0 <= k < m < |los| ==> his[k] < los[m] || his[m] < los[k])
  }

  /** Places i and j lie in one stacked range. */
  ghost predicate InOne(los: seq<int>, his: seq<int>, i: int, j: int)
    requires |los| == |his|
  {
    exists k :: 0 <= k < |los| && los[k] <= i && j <= his[k]
  }

  /** Everything is in order but for places within one stacked range. */
  ghost predicate Done(a: seq<nat>, key: seq<nat>, los: seq<int>, his: seq<int>, lo0: nat, hi0: int)
    requires |los| == |his|
  {
    forall i, j :: lo0 <= i < j <= hi0 ==> KeyAt(a, key, i) <= KeyAt(a, key, j) || InOne(los, his, i, j)
  }

  /** The k-th stacked range has at most N / 2^k places. */
  ghost predicate Sizes(los: seq<int>, his: seq<int>, N: nat)
    requires |los| == |his|
  {
    forall k :: 0 <= k < |los| ==> his[k] - los[k] + 1 <= Shr(N, k)
  }

  /** Every place counted twice, every range once. */
  function Load(los: seq<int>, his: seq<int>): int
    requires |los| == |his|
  {
    if los == [] then 0
    else
      var k := |los| - 1;
      Load(los[..k], his[..k]) + 2 * (his[k] - los[k] + 1) + 1
  }

  lemma {:induction false} LoadPositive(los: seq<int>, his: seq<int>, lo0: nat, hi0: int)
    requires Ranges(los, his, lo0, hi0)
    ensures Load(los, his) >= |los|
  {
    if los != [] {
      var k := |los| - 1;
      LoadPositive(los[..k], his[..k], lo0, hi0);
    }
  }

  /** Places not both in the range just rearranged keep their order, or their range. */
  lemma Cross(a: seq<nat>, a': seq<nat>, key: seq<nat>, los: seq<int>, his: seq<int>, lo: int, hi: int, lo0: nat,
              hi0: int, i: int, j: int)
    requires |los| == |his| && Ranges(los + [lo], his + [hi], lo0, hi0) && hi0 < |a|
    requires Done(a, key, los + [lo], his + [hi], lo0, hi0) && 0 <= lo && 0 <= hi + 1 && Shuffled(a, a', lo, hi + 1)
    requires lo0 <= i < j <= hi0 && !(lo <= i && j <= hi)
    ensures KeyAt(a', key, i) <= KeyAt(a', key, j) || InOne(los, his, i, j)
  {
    hide Shuffled, Done, Ranges, KeyAt;
    RangesPop(los, his, lo, hi, lo0, hi0);
    var i', j' := i, j;
    if lo <= i <= hi { i' := ShuffledFrom(a, a', lo, hi + 1, i); } else { ShuffledOut(a, a', lo, hi + 1, i); }
    if lo <= j <= hi { j' := ShuffledFrom(a, a', lo, hi + 1, j); } else { ShuffledOut(a, a', lo, hi + 1, j); }
    SameKey(a, i', a', i, key);
    SameKey(a, j', a', j, key);
    DoneAt(a, key, los + [lo], his + [hi], lo0, hi0, i', j');
    if !(KeyAt(a, key, i') <= KeyAt(a, key, j')) {
      var k :| 0 <= k < |los| + 1 && (los + [lo])[k] <= i' && j' <= (his + [hi])[k];
      assert k < |los| && (los + [lo])[|los|] == lo && (his + [hi])[|los|] == hi;
      assert i' == i && j' == j;
      assert los[k] <= i && j <= his[k];
    }
  }

  lemma ShuffledOut(s: seq<nat>, t: seq<nat>, lo: nat, end: nat, i: nat)
    requires Shuffled(s, t, lo, end) && i < |s| && !(lo <= i < end)
    ensures |s| == |t| && t[i] == s[i]
  {}

  lemma DoneAt(a: seq<nat>, key: seq<nat>, los: seq<int>, his: seq<int>, lo0: nat, hi0: int, i: int, j: int)
    requires |los| == |his| && Done(a, key, los, his, lo0, hi0) && lo0 <= i < j <= hi0
    ensures KeyAt(a, key, i) <= KeyAt(a, key, j) || InOne(los, his, i, j)
  {}

  lemma SortedPop(a: seq<nat>, a': seq<nat>, key: seq<nat>, los: seq<int>, his: seq<int>, lo: int, hi: int, lo0: nat,
                  hi0: int)
    requires |los| == |his| && Ranges(los + [lo], his + [hi], lo0, hi0) && hi0 < |a|
    requires Done(a, key, los + [lo], his + [hi], lo0, hi0) && 0 <= lo && 0 <= hi + 1 && Shuffled(a, a', lo, hi + 1)
    requires |a'| == |a| && InOrder(a', key, lo, hi + 1)
    ensures Done(a', key, los, his, lo0, hi0) && Ranges(los, his, lo0, hi0)
  {
    hide Shuffled, Done, InOne;
    RangesPop(los, his, lo, hi, lo0, hi0);
    forall i, j | lo0 <= i < j <= hi0
      ensures KeyAt(a', key, i) <= KeyAt(a', key, j) || InOne(los, his, i, j)
    {
      if !(lo <= i && j <= hi) { Cross(a, a', key, los, his, lo, hi, lo0, hi0, i, j); }
    }
    DoneIs(a', key, los, his, lo0, hi0);
  }

  lemma DoneIs(a: seq<nat>, key: seq<nat>, los: seq<int>, his: seq<int>, lo0: nat, hi0: int)
    requires |los| == |his|
    requires forall i, j :: lo0 <= i < j <= hi0 ==> KeyAt(a, key, i) <= KeyAt(a, key, j) || InOne(los, his, i, j)
    ensures Done(a, key, los, his, lo0, hi0)
  {}

  lemma RangesPop(los: seq<int>, his: seq<int>, lo: int, hi: int, lo0: nat, hi0: int)
    requires |los| == |his| && Ranges(los + [lo], his + [hi], lo0, hi0)
    ensures Ranges(los, his, lo0, hi0) && lo0 <= lo <= hi + 1 && hi <= hi0
    ensures forall k :: 0 <= k < |los| ==> his[k] < lo || hi < los[k]
  {
    var ls, hs := los + [lo], his + [hi];
    assert ls[|los|] == lo && hs[|los|] == hi;
    assert forall k :: 0 <= k < |los| ==> ls[k] == los[k] && hs[k] == his[k];
  }

  /** What is stacked after a range has been parted: both outer parts, in either order. */
  ghost predicate Outer(lo1: int, hi1: int, lo2: int, hi2: int, lo: int, n: int, m: int, hi: int) {
    (lo1 == lo && hi1 == n && lo2 == m && hi2 == hi) || (lo1 == m && hi1 == hi && lo2 == lo && hi2 == n)
  }

  lemma InTwo(los: seq<int>, his: seq<int>, lo1: int, hi1: int, lo2: int, hi2: int, i: int, j: int)
    requires |los| == |his|
    requires InOne(los, his, i, j) || (lo1 <= i && j <= hi1) || (lo2 <= i && j <= hi2)
    ensures InOne(los + [lo1, lo2], his + [hi1, hi2], i, j)
  {
    var ls, hs := los + [lo1, lo2], his + [hi1, hi2];
    if InOne(los, his, i, j) {
      var k :| 0 <= k < |los| && los[k] <= i && j <= his[k];
      assert ls[k] <= i && j <= hs[k];
    } else if lo1 <= i && j <= hi1 {
      assert ls[|los|] <= i && j <= hs[|los|];
    } else {
      assert ls[|los| + 1] <= i && j <= hs[|los| + 1];
    }
  }

  lemma PartedPush(a: seq<nat>, a': seq<nat>, key: seq<nat>, los: seq<int>, his: seq<int>, lo: nat, hi: int, lo0: nat,
                   hi0: int,
                   n: int, m: int, med: nat, lo1: int, hi1: int, lo2: int, hi2: int)
    requires |los| == |his| && Ranges(los + [lo], his + [hi], lo0, hi0) && hi0 < |a| == |a'|
    requires Done(a, key, los + [lo], his + [hi], lo0, hi0) && 0 <= hi + 1 && Shuffled(a, a', lo, hi + 1)
    requires 0 <= n + 1 && 0 <= m && Parted(a', key, lo, n + 1, m, hi + 1, med)
             && Outer(lo1, hi1, lo2, hi2, lo, n, m, hi)
    ensures Done(a', key, los + [lo1, lo2], his + [hi1, hi2], lo0, hi0)
  {
    hide Shuffled, Done, InOne, Parted, Ranges;
    forall i, j | lo0 <= i < j <= hi0
      ensures KeyAt(a', key, i) <= KeyAt(a', key, j) || InOne(los + [lo1, lo2], his + [hi1, hi2], i, j)
    {
      if lo <= i && j <= hi {
        PartedAt(a', key, lo, n + 1, m, hi + 1, med, i, j);
      } else {
        Cross(a, a', key, los, his, lo, hi, lo0, hi0, i, j);
      }
      if !(KeyAt(a', key, i) <= KeyAt(a', key, j)) { InTwo(los, his, lo1, hi1, lo2, hi2, i, j); }
    }
    DoneIs(a', key, los + [lo1, lo2], his + [hi1, hi2], lo0, hi0);
  }

  lemma PartedAt(a: seq<nat>, key: seq<nat>, lo: nat, le: nat, ge: nat, end: nat, med: nat, i: nat, j: nat)
    requires Parted(a, key, lo, le, ge, end, med) && lo <= i < j < end
    ensures (KeyAt(a, key, i) <= KeyAt(a, key, j) || (lo <= i && j < le) || (ge <= i && j < end))
  {
    PartedSide(a, key, lo, le, ge, end, med, i);
    PartedSide(a, key, lo, le, ge, end, med, j);
  }

  lemma PartedSide(a: seq<nat>, key: seq<nat>, lo: nat, le: nat, ge: nat, end: nat, med: nat, i: nat)
    requires Parted(a, key, lo, le, ge, end, med) && lo <= i < end
    ensures Compare(KeyAt(a, key, i), med) == if i < le then Less else if i < ge then Equal else Greater
  {}

  lemma RangesPush(los: seq<int>, his: seq<int>, lo: int, hi: int, lo0: nat, hi0: int, n: int, m: int,
                   lo1: int, hi1: int, lo2: int, hi2: int)
    requires |los| == |his| && Ranges(los + [lo], his + [hi], lo0, hi0)
    requires lo <= n + 1 && n < m <= hi + 1 && Outer(lo1, hi1, lo2, hi2, lo, n, m, hi)
    ensures Ranges(los + [lo1, lo2], his + [hi1, hi2], lo0, hi0)
  {
    RangesPop(los, his, lo, hi, lo0, hi0);
  }

  lemma SizesPush(los: seq<int>, his: seq<int>, lo: int, hi: int, N: nat, lo1: int, hi1: int, lo2: int, hi2: int)
    requires |los| == |his| && Sizes(los + [lo], his + [hi], N)
    requires hi2 - lo2 <= hi1 - lo1 && (hi1 - lo1 + 1) + (hi2 - lo2 + 1) <= hi - lo + 1
    requires lo1 <= hi1 + 1 && lo2 <= hi2 + 1
    ensures Sizes(los + [lo1, lo2], his + [hi1, hi2], N)
  {
    var k := |los|;
    assert (los + [lo])[k] == lo && (his + [hi])[k] == hi;
    ShrHalf(N, k);
    var ls, hs := los + [lo1, lo2], his + [hi1, hi2];
    forall i | 0 <= i < |ls|
      ensures hs[i] - ls[i] + 1 <= Shr(N, i)
    {
      if i < k { assert (los + [lo])[i] == los[i] && (his + [hi])[i] == his[i]; }
    }
  }

  lemma LoadPush(los: seq<int>, his: seq<int>, lo: int, hi: int)
    requires |los| == |his|
    ensures Load(los + [lo], his + [hi]) == Load(los, his) + 2 * (hi - lo + 1) + 1
  {
    assert (los + [lo])[..|los|] == los && (his + [hi])[..|los|] == his;
  }

  lemma LoadPushTwo(los: seq<int>, his: seq<int>, lo1: int, hi1: int, lo2: int, hi2: int)
    requires |los| == |his|
    ensures Load(los + [lo1, lo2], his + [hi1, hi2]) == Load(los, his) + 2 * (hi1 - lo1 + 1) + 2 * (hi2 - lo2 + 1) + 2
  {
    LoadPush(los, his, lo1, hi1);
    LoadPush(los + [lo1], his + [hi1], lo2, hi2);
    assert los + [lo1, lo2] == los + [lo1] + [lo2] && his + [hi1, hi2] == his + [hi1] + [hi2];
  }

  /** What the main loop of fallbackQSort3 keeps. */
  ghost predicate Sorting(was: seq<nat>, a: seq<nat>, key: seq<nat>, los: seq<int>, his: seq<int>, lo0: nat, hi0: nat) {
    && |los| == |his| && hi0 < |a| && lo0 <= hi0 && Into(a, key, lo0, hi0 + 1) && Shuffled(was, a, lo0, hi0 + 1)
    && Ranges(los, his, lo0, hi0) && Sizes(los, his, hi0 - lo0 + 1) && Done(a, key, los, his, lo0, hi0)
  }

  /** The top range lies within the part being sorted, and is empty once the stack is twenty deep. */
  lemma TopRange(was: seq<nat>, a: seq<nat>, key: seq<nat>, los: seq<int>, his: seq<int>, lo: int, hi: int, lo0: nat,
                 hi0: nat)
    requires |los| == |his| && Sorting(was, a, key, los + [lo], his + [hi], lo0, hi0) && hi0 + 1 < BLOCK_LIMIT
    ensures hi0 < |a| && Into(a, key, lo0, hi0 + 1) && lo0 <= lo <= hi + 1 && hi <= hi0 && (lo <= hi ==> |los| < 20)
  {
    hide Done, Shuffled;
    RangesPop(los, his, lo, hi, lo0, hi0);
    var k := |los|;
    assert (los + [lo])[k] == lo && (his + [hi])[k] == hi;
    if lo <= hi && k >= 20 {
      Pow2Values();
      ShrGone(hi0 - lo0 + 1, k, 20);
    }
  }

  lemma SortedStep(was: seq<nat>, a: seq<nat>, a': seq<nat>, key: seq<nat>, los: seq<int>, his: seq<int>, lo: int,
                   hi: int, lo0: nat, hi0: nat)
    requires |los| == |his| && Sorting(was, a, key, los + [lo], his + [hi], lo0, hi0)
    requires 0 <= lo <= hi + 1 <= |a| && Shuffled(a, a', lo, hi + 1) && |a'| == |a| && InOrder(a', key, lo, hi + 1)
    requires lo0 <= hi0
    ensures Sorting(was, a', key, los, his, lo0, hi0)
    ensures 0 <= Load(los, his) < Load(los + [lo], his + [hi])
  {
    hide *;
    var N := hi0 - lo0 + 1;
    SortingParts(was, a, key, los + [lo], his + [hi], lo0, hi0, N);
    SortedPop(a, a', key, los, his, lo, hi, lo0, hi0);
    RangesPop(los, his, lo, hi, lo0, hi0);
    ShuffledWider(a, a', lo, hi + 1, lo0, hi0 + 1);
    ShuffledInto(a, a', key, lo0, hi0 + 1);
    ShuffledTrans(was, a, a', lo0, hi0 + 1);
    SizesPop(los, his, lo, hi, N);
    SortingFrom(was, a', key, los, his, lo0, hi0, N);
    LoadPush(los, his, lo, hi);
    LoadPositive(los, his, lo0, hi0);
  }

  lemma SizesPop(los: seq<int>, his: seq<int>, lo: int, hi: int, N: nat)
    requires |los| == |his| && Sizes(los + [lo], his + [hi], N)
    ensures Sizes(los, his, N)
  {
    var ls, hs := los + [lo], his + [hi];
    assert forall k :: 0 <= k < |los| ==> ls[k] == los[k] && hs[k] == his[k];
  }

  lemma PartedStep(was: seq<nat>, a: seq<nat>, a': seq<nat>, key: seq<nat>, los: seq<int>, his: seq<int>, lo: nat,
                   hi: nat,
                   lo0: nat, hi0: nat, n: int, m: int, med: nat, lo1: int, hi1: int, lo2: int, hi2: int)
    requires |los| == |his| && Sorting(was, a, key, los + [lo], his + [hi], lo0, hi0)
    requires lo <= hi < |a| == |a'| && Shuffled(a, a', lo, hi + 1)
    requires lo <= n + 1 < m <= hi + 1 && Parted(a', key, lo, n + 1, m, hi + 1, med)
    requires Outer(lo1, hi1, lo2, hi2, lo, n, m, hi) && hi2 - lo2 <= hi1 - lo1 && lo0 <= hi0
    ensures Sorting(was, a', key, los + [lo1, lo2], his + [hi1, hi2], lo0, hi0)
    ensures 0 <= Load(los + [lo1, lo2], his + [hi1, hi2]) < Load(los + [lo], his + [hi])
  {
    hide *;
    var N := hi0 - lo0 + 1;
    SortingParts(was, a, key, los + [lo], his + [hi], lo0, hi0, N);
    RangesPop(los, his, lo, hi, lo0, hi0);
    OuterSum(lo1, hi1, lo2, hi2, lo, n, m, hi);
    PartedPush(a, a', key, los, his, lo, hi, lo0, hi0, n, m, med, lo1, hi1, lo2, hi2);
    RangesPush(los, his, lo, hi, lo0, hi0, n, m, lo1, hi1, lo2, hi2);
    ShuffledWider(a, a', lo, hi + 1, lo0, hi0 + 1);
    ShuffledInto(a, a', key, lo0, hi0 + 1);
    ShuffledTrans(was, a, a', lo0, hi0 + 1);
    SizesPush(los, his, lo, hi, N, lo1, hi1, lo2, hi2);
    SortingFrom(was, a', key, los + [lo1, lo2], his + [hi1, hi2], lo0, hi0, N);
    LoadPush(los, his, lo, hi);
    LoadPushTwo(los, his, lo1, hi1, lo2, hi2);
    LoadPositive(los, his, lo0, hi0);
  }

  lemma SortingParts(was: seq<nat>, a: seq<nat>, key: seq<nat>, los: seq<int>, his: seq<int>, lo0: nat, hi0: nat,
                     N: nat)
    requires Sorting(was, a, key, los, his, lo0, hi0) && N == hi0 - lo0 + 1
    ensures |los| == |his| && hi0 < |a| && lo0 <= hi0 && Into(a, key, lo0, hi0 + 1) && Shuffled(was, a, lo0, hi0 + 1)
    ensures Ranges(los, his, lo0, hi0) && Sizes(los, his, N) && Done(a, key, los, his, lo0, hi0)
  {}

  lemma SortingFrom(was: seq<nat>, a: seq<nat>, key: seq<nat>, los: seq<int>, his: seq<int>, lo0: nat, hi0: nat, N: nat)
    requires |los| == |his| && hi0 < |a| && lo0 <= hi0 && Into(a, key, lo0, hi0 + 1) && Shuffled(was, a, lo0, hi0 + 1)
    requires Ranges(los, his, lo0, hi0) && Sizes(los, his, N) && Done(a, key, los, his, lo0, hi0) && N == hi0 - lo0 + 1
    ensures Sorting(was, a, key, los, his, lo0, hi0)
  {}

  /** The pivot's own entry keeps the middle part from being empty. */
  lemma MiddleFull(a: seq<nat>, a': seq<nat>, key: seq<nat>, lo: nat, le: nat, ge: nat, end: nat, med: nat, p: nat)
    requires Shuffled(a, a', lo, end) && Parted(a', key, lo, le, ge, end, med) && lo <= p < end && end <= |a|
    requires a[p] < |key| && KeyAt(a, key, p) == med
    ensures le < ge
  {
    hide Shuffled;
    ShuffledSym(a, a', lo, end);
    var q := ShuffledFrom(a', a, lo, end, p);
    PartedSide(a', key, lo, le, ge, end, med, q);
  }

  lemma AllEqualInOrder(a: seq<nat>, key: seq<nat>, lo: nat, ltLo: nat, unLo: nat, gtEnd: nat, end: nat, med: nat)
    requires Split(a, key, lo, ltLo, unLo, unLo, gtEnd, end, med) && gtEnd <= ltLo
    ensures Into(a, key, lo, end) && InOrder(a, key, lo, end)
  {
    assert AllAre(a, key, lo, end, med, Equal);
    forall i, j | lo <= i < j < end
      ensures KeyAt(a, key, i) <= KeyAt(a, key, j)
    {
      assert Compare(KeyAt(a, key, i), med) == Equal && Compare(KeyAt(a, key, j), med) == Equal;
    }
  }

  /** One round of partitioning, around the key of entry p. */
  method PartRange(fmap: array<nat>, eclass: seq<nat>, lo: nat, hi: nat, p: nat) returns (same: bool, n: int, m: int)
    requires lo <= p <= hi < fmap.Length && Into(fmap[..], eclass, lo, hi + 1)
    modifies fmap
    ensures Shuffled(old(fmap[..]), fmap[..], lo, hi + 1) && Into(fmap[..], eclass, lo, hi + 1)
    ensures same ==> InOrder(fmap[..], eclass, lo, hi + 1)
    ensures !same ==> lo <= n + 1 < m <= hi + 1 && old(fmap[p]) < |eclass|
                      && Parted(fmap[..], eclass, lo, n + 1, m, hi + 1, eclass[old(fmap[p])])
  {
    hide *;
    ghost var a := fmap[..];
    IntoAll(a, eclass, lo, hi + 1);
    var med := eclass[fmap[p]];
    var ltLo, unLo, unHi, gtHi := Partition(fmap, eclass, lo, hi, med);
    n, m, same := 0, 0, gtHi < ltLo;
    if same {
      AllEqualInOrder(fmap[..], eclass, lo, ltLo, unLo, gtHi + 1, hi + 1, med);
    } else {
      ghost var mid := fmap[..];
      n, m := Gather(fmap, eclass, lo, hi, med, ltLo, unLo, unHi, gtHi);
      ShuffledTrans(a, mid, fmap[..], lo, hi + 1);
      PartedInto(fmap[..], eclass, lo, n + 1, m, hi + 1, med);
      SameKey(a, p, a, p, eclass);
      MiddleFull(a, fmap[..], eclass, lo, n + 1, m, hi + 1, med, p);
    }
  }

  /** Two entries onto one half of the stack. */
  method Push(stack: array<int>, sp: nat, x: int, y: int)
    requires sp + 2 <= stack.Length
    modifies stack
    ensures stack[..sp + 2] == old(stack[..sp]) + [x, y]
  {
    stack[sp], stack[sp + 1] := x, y;
  }

  /** The next pseudo-random number, and the low end, the middle or the high end by its remainder. */
  method PickPivot(r: nat, lo: nat, hi: nat) returns (r': nat, p: nat)
    requires lo <= hi
    ensures lo <= p <= hi && r' < 32768
  {
    r' := (r * 7621 + 1) % 32768;
    var r3 := r' % 3;
    p := if r3 == 0 then lo else if r3 == 1 then (lo + hi) / 2 else hi;
  }

  /** Partitions the range just taken off the stack and stacks what is left of it, the larger part below. */
  method SplitTop(fmap: array<nat>, eclass: seq<nat>, stackLo: array<int>, stackHi: array<int>, sp: nat,
                  lo: nat, hi: nat, p: nat, ghost was: seq<nat>, ghost loSt: nat, ghost hiSt: nat) returns (sp': nat)
    requires stackLo != stackHi && sp + 2 <= stackLo.Length && sp + 2 <= stackHi.Length
    requires loSt <= hiSt < fmap.Length && lo <= p <= hi < fmap.Length && Into(fmap[..], eclass, lo, hi + 1)
    requires (fmap as object) != (stackLo as object) && (fmap as object) != (stackHi as object)
    requires Sorting(was, fmap[..], eclass, stackLo[..sp] + [lo], stackHi[..sp] + [hi], loSt, hiSt)
    modifies fmap, stackLo, stackHi
    ensures sp' <= sp + 2 && Sorting(was, fmap[..], eclass, stackLo[..sp'], stackHi[..sp'], loSt, hiSt)
    ensures 0 <= Load(stackLo[..sp'], stackHi[..sp']) < old(Load(stackLo[..sp] + [lo], stackHi[..sp] + [hi]))
  {
    hide *;
    sp' := sp;
    ghost var a, los, his := fmap[..], stackLo[..sp], stackHi[..sp];
    var same, n, m := PartRange(fmap, eclass, lo, hi, p);
    if same {
      SortedStep(was, a, fmap[..], eclass, los, his, lo, hi, loSt, hiSt);
    } else {
      OuterHere(lo, n, m, hi);
      var lo1, hi1, lo2, hi2 := m, hi, lo, n;
      if n - lo > hi - m { lo1, hi1, lo2, hi2 := lo, n, m, hi; }
      PartedStep(was, a, fmap[..], eclass, los, his, lo, hi, loSt, hiSt, n, m, eclass[a[p]], lo1, hi1, lo2, hi2);
      Push(stackLo, sp, lo1, lo2);
      Push(stackHi, sp, hi1, hi2);
      sp' := sp + 2;
    }
  }

  /** Takes one range off the stack: a short one is sorted, a long one partitioned. */
  method SortTop(fmap: array<nat>, eclass: seq<nat>, stackLo: array<int>, stackHi: array<int>, sp: nat, r: nat,
                 ghost was: seq<nat>, ghost loSt: nat, ghost hiSt: nat) returns (sp': nat, r': nat)
    requires stackLo != stackHi && stackLo.Length == stackHi.Length == STACK_SIZE && 0 < sp <= 21
    requires loSt <= hiSt < fmap.Length && hiSt + 1 < BLOCK_LIMIT
    requires (fmap as object) != (stackLo as object) && (fmap as object) != (stackHi as object)
    requires Sorting(was, fmap[..], eclass, stackLo[..sp], stackHi[..sp], loSt, hiSt)
    modifies fmap, stackLo, stackHi
    ensures sp' <= 21 && Sorting(was, fmap[..], eclass, stackLo[..sp'], stackHi[..sp'], loSt, hiSt)
    ensures 0 <= Load(stackLo[..sp'], stackHi[..sp']) < old(Load(stackLo[..sp], stackHi[..sp]))
  {
    assert STACK_SIZE == 100 && SMALL_THRESH == 10;
    hide *;
    ghost var a := fmap[..];
    r' := r;
    sp' := sp - 1;
    var lo, hi := stackLo[sp'], stackHi[sp'];
    ghost var los, his := stackLo[..sp'], stackHi[..sp'];
    assert stackLo[..sp] == los + [lo] && stackHi[..sp] == his + [hi];
    TopRange(was, a, eclass, los, his, lo, hi, loSt, hiSt);
    if hi - lo < SMALL_THRESH {
      FallbackSimpleSort(fmap, eclass, lo, hi);
      SortedStep(was, a, fmap[..], eclass, los, his, lo, hi, loSt, hiSt);
    } else {
      var p;
      r', p := PickPivot(r, lo, hi);
      sp' := SplitTop(fmap, eclass, stackLo, stackHi, sp', lo, hi, p, was, loSt, hiSt);
    }
  }

  /** fallbackQSort3: the range comes out in order of eclass, and the stack never comes near its limit. */
  method FallbackQSort3(fmap: array<nat>, eclass: seq<nat>, loSt: nat, hiSt: nat)
    requires loSt <= hiSt < fmap.Length && Into(fmap[..], eclass, loSt, hiSt + 1) && hiSt + 1 < BLOCK_LIMIT
    modifies fmap
    ensures Shuffled(old(fmap[..]), fmap[..], loSt, hiSt + 1) && Into(fmap[..], eclass, loSt, hiSt + 1)
    ensures InOrder(fmap[..], eclass, loSt, hiSt + 1)
  {
    assert STACK_SIZE == 100;
    hide *;
    var stackLo, stackHi := new int[STACK_SIZE], new int[STACK_SIZE];
    ghost var was := fmap[..];
    stackLo[0], stackHi[0] := loSt, hiSt;
    var sp, r := 1, 0;
    assert stackLo[..1] == [loSt] && stackHi[..1] == [hiSt];
    SortingStart(was, eclass, loSt, hiSt);
    while sp > 0
      invariant 0 <= sp <= 21
      invariant Sorting(was, fmap[..], eclass, stackLo[..sp], stackHi[..sp], loSt, hiSt)
      decreases Load(stackLo[..sp], stackHi[..sp])
    {
      assert sp < STACK_SIZE - 1;
      sp, r := SortTop(fmap, eclass, stackLo, stackHi, sp, r, was, loSt, hiSt);
    }
    assert stackLo[..sp] == [] && stackHi[..sp] == [];
    SortingEnd(was, fmap[..], eclass, loSt, hiSt);
  }

  lemma OuterSum(lo1: int, hi1: int, lo2: int, hi2: int, lo: int, n: int, m: int, hi: int)
    requires Outer(lo1, hi1, lo2, hi2, lo, n, m, hi) && lo <= n + 1 < m <= hi + 1
    ensures (hi1 - lo1 + 1) + (hi2 - lo2 + 1) <= hi - lo && lo1 <= hi1 + 1 && lo2 <= hi2 + 1
  {}

  lemma OuterHere(lo: int, n: int, m: int, hi: int)
    ensures Outer(lo, n, m, hi, lo, n, m, hi) && Outer(m, hi, lo, n, lo, n, m, hi)
  {}

  lemma PartedInto(a: seq<nat>, key: seq<nat>, lo: nat, le: nat, ge: nat, end: nat, med: nat)
    requires Parted(a, key, lo, le, ge, end, med)
    ensures Into(a, key, lo, end) && lo <= le <= ge <= end <= |a|
  {}

  lemma SortingStart(a: seq<nat>, key: seq<nat>, lo: nat, hi: nat)
    requires lo <= hi < |a| && Into(a, key, lo, hi + 1)
    ensures Sorting(a, a, key, [lo], [hi], lo, hi)
  {
    forall i, j | lo <= i < j <= hi
      ensures InOne([lo], [hi], i, j)
    {
      assert [lo as int][0] <= i && j <= [hi as int][0];
    }
  }

  lemma SortingEnd(was: seq<nat>, a: seq<nat>, key: seq<nat>, lo: nat, hi: nat)
    requires Sorting(was, a, key, [], [], lo, hi)
    ensures Shuffled(was, a, lo, hi + 1) && hi < |a| && Into(a, key, lo, hi + 1) && InOrder(a, key, lo, hi + 1)
  {}
}
