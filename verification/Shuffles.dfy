/** Rearranging a stretch of an array by swaps, and three-way partitioning around a key. */
module Shuffles {
  import opened Permutations

  /** t is s with the entries from lo up to end rearranged. */
  ghost predicate Shuffled(s: seq<nat>, t: seq<nat>, lo: nat, end: nat) {
    && |s| == |t| && lo <= end <= |s| && multiset(s) == multiset(t)
    && (forall i :: 0 <= i < lo ==> s[i] == t[i])
    && (forall i :: end <= i < |s| ==> s[i] == t[i])
  }

  function Swapped(s: seq<nat>, i: nat, j: nat): (t: seq<nat>)
    requires i < |s| && j < |s|
  {
    s[i := s[j]][j := s[i]]
  }

  lemma SwapShuffles(s: seq<nat>, i: nat, j: nat, lo: nat, end: nat)
    requires lo <= i < end <= |s| && lo <= j < end
    ensures Shuffled(s, Swapped(s, i, j), lo, end)
  {}

  lemma ShuffledTrans(s: seq<nat>, t: seq<nat>, u: seq<nat>, lo: nat, end: nat)
    requires Shuffled(s, t, lo, end) && Shuffled(t, u, lo, end)
    ensures Shuffled(s, u, lo, end)
  {}

  /** A rearranged part is a rearrangement of any larger part. */
  lemma ShuffledWider(s: seq<nat>, t: seq<nat>, lo: nat, end: nat, lo': nat, end': nat)
    requires Shuffled(s, t, lo, end) && lo' <= lo && end <= end' <= |s|
    ensures Shuffled(s, t, lo', end')
  {}

  lemma PartsMultiset(s: seq<nat>, lo: nat, end: nat)
    requires lo <= end <= |s|
    ensures multiset(s) == multiset(s[..lo]) + multiset(s[lo..end]) + multiset(s[end..])
  {
    assert s == s[..lo] + s[lo..end] + s[end..];
  }

  lemma Cancel(a: multiset<nat>, b: multiset<nat>, b': multiset<nat>, c: multiset<nat>)
    requires a + b + c == a + b' + c
    ensures b == b'
  {
    assert b == (a + b + c) - a - c && b' == (a + b' + c) - a - c;
  }

  lemma SliceKept(s: seq<nat>, t: seq<nat>, lo: nat, end: nat)
    requires lo <= end <= |s| == |t| && multiset(s) == multiset(t) && s[..lo] == t[..lo] && s[end..] == t[end..]
    ensures multiset(s[lo..end]) == multiset(t[lo..end])
  {
    PartsMultiset(s, lo, end);
    PartsMultiset(t, lo, end);
    Cancel(multiset(s[..lo]), multiset(s[lo..end]), multiset(t[lo..end]), multiset(s[end..]));
  }

  /** What lies past the rearranged part does not matter. */
  lemma ShuffledPrefix(s: seq<nat>, t: seq<nat>, lo: nat, end: nat, n: nat)
    requires Shuffled(s, t, lo, end) && end <= n <= |s|
    ensures Shuffled(s[..n], t[..n], lo, end)
  {
    assert s[..0] == t[..0] && s[n..] == t[n..];
    SliceKept(s, t, 0, n);
    assert s[0..n] == s[..n] && t[0..n] == t[..n];
  }

  lemma FindIn(s: seq<nat>, x: nat) returns (k: nat)
    requires x in multiset(s)
    ensures k < |s| && s[k] == x
  {
    k :| 0 <= k < |s| && s[k] == x;
  }

  /** Every entry of the rearranged part came from that part. */
  lemma ShuffledFrom(s: seq<nat>, t: seq<nat>, lo: nat, end: nat, i: nat) returns (j: nat)
    requires Shuffled(s, t, lo, end) && lo <= i < end
    ensures lo <= j < end && s[j] == t[i]
  {
    assert s[..lo] == t[..lo] && s[end..] == t[end..];
    SliceKept(s, t, lo, end);
    assert t[lo..end][i - lo] in multiset(t[lo..end]);
    var k := FindIn(s[lo..end], t[i]);
    j := lo + k;
  }

  lemma ShuffledSym(s: seq<nat>, t: seq<nat>, lo: nat, end: nat)
    requires Shuffled(s, t, lo, end)
    ensures Shuffled(t, s, lo, end)
  {}

  /** A rearrangement of a permutation is a permutation. */
  lemma ShuffledPerm(s: seq<nat>, t: seq<nat>, n: nat)
    requires IsPerm(s, n) && |t| == n && multiset(s) == multiset(t)
    ensures IsPerm(t, n)
  {
    forall i | 0 <= i < n
      ensures t[i] < n
    {
      assert t[i] in multiset(t);
      assert t[i] in multiset(s);
    }
    forall i, j | 0 <= i < j < n
      ensures t[i] != t[j]
    {
      if t[i] == t[j] {
        TwiceIn(t, i, j);
        OnceIn(s, n, t[i]);
      }
    }
  }

  lemma TwiceIn(t: seq<nat>, i: nat, j: nat)
    requires i < j < |t| && t[i] == t[j]
    ensures multiset(t)[t[i]] >= 2
  {
    assert t == t[..j] + [t[j]] + t[j + 1..];
    assert t[..j][i] == t[i];
    assert t[i] in multiset(t[..j]);
  }

  lemma OnceIn(s: seq<nat>, n: nat, x: nat)
    requires IsPerm(s, n)
    ensures multiset(s)[x] <= 1
  {
    if x in s {
      var i :| 0 <= i < n && s[i] == x;
      assert s == s[..i] + [x] + s[i + 1..];
      assert x !in s[..i] && x !in s[i + 1..];
    }
  }

  // ---------- order by a key ----------

  /** The entries from lo up to end are indices of key. */
  ghost predicate Into(a: seq<nat>, key: seq<nat>, lo: nat, end: nat) {
    forall i :: lo <= i < end && i < |a| ==> a[i] < |key|
  }

  /** The key of entry i. */
  function KeyAt(a: seq<nat>, key: seq<nat>, i: int): nat {
    if 0 <= i < |a| && a[i] < |key| then key[a[i]] else 0
  }

  /** The entries from lo up to end come in order of their keys. */
  ghost predicate InOrder(a: seq<nat>, key: seq<nat>, lo: nat, end: nat) {
    forall i, j :: lo <= i < j < end ==> KeyAt(a, key, i) <= KeyAt(a, key, j)
  }

  lemma ShuffledInto(s: seq<nat>, t: seq<nat>, key: seq<nat>, lo: nat, end: nat)
    requires Shuffled(s, t, lo, end) && Into(s, key, lo, end)
    ensures Into(t, key, lo, end)
  {
    forall i | lo <= i < end
      ensures t[i] < |key|
    {
      var j := ShuffledFrom(s, t, lo, end, i);
    }
  }

  lemma SameKey(s: seq<nat>, i: nat, t: seq<nat>, j: nat, key: seq<nat>)
    requires i < |s| && j < |t| && s[i] == t[j]
    ensures KeyAt(s, key, i) == KeyAt(t, key, j) && (s[i] < |key| ==> KeyAt(s, key, i) == key[s[i]])
  {}

  lemma SwapKeys(a: seq<nat>, t: seq<nat>, key: seq<nat>, i: nat, j: nat)
    requires i < |a| && j < |a| && t == Swapped(a, i, j)
    ensures |t| == |a| && forall k :: 0 <= k < |a| && k != i && k != j ==> KeyAt(t, key, k) == KeyAt(a, key, k)
    ensures KeyAt(t, key, i) == KeyAt(a, key, j) && KeyAt(t, key, j) == KeyAt(a, key, i)
  {}

  // ---------- three-way partitioning ----------

  datatype Order = Less | Equal | Greater

  function Compare(x: nat, y: nat): Order {
    if x < y then Less else if x == y then Equal else Greater
  }

  /** All keys from lo up to end compare with med as c says. */
  ghost predicate AllAre(a: seq<nat>, key: seq<nat>, lo: nat, end: nat, med: nat, c: Order) {
    forall i :: lo <= i < end && i < |a| ==> Compare(KeyAt(a, key, i), med) == c
  }

  /** The state of the partitioning loop: equal, less, unread, greater, equal. */
  ghost predicate Split(a: seq<nat>, key: seq<nat>, lo: nat, ltLo: nat, unLo: nat, unEnd: nat, gtEnd: nat, end: nat,
                        med: nat) {
    && lo <= ltLo <= unLo <= unEnd <= gtEnd <= end <= |a| && Into(a, key, lo, end)
    && AllAre(a, key, lo, ltLo, med, Equal) && AllAre(a, key, ltLo, unLo, med, Less)
    && AllAre(a, key, unEnd, gtEnd, med, Greater) && AllAre(a, key, gtEnd, end, med, Equal)
  }

  method Swap(a: array<nat>, i: nat, j: nat)
    requires i < a.Length && j < a.Length
    modifies a
    ensures a[..] == Swapped(old(a[..]), i, j)
  {
    a[i], a[j] := a[j], a[i];
  }

  lemma SplitLow(a: seq<nat>, key: seq<nat>, lo: nat, ltLo: nat, unLo: nat, unEnd: nat, gtEnd: nat, end: nat, med: nat)
    requires Split(a, key, lo, ltLo, unLo, unEnd, gtEnd, end, med) && unLo < unEnd
    ensures KeyAt(a, key, unLo) == med ==>
              Split(Swapped(a, unLo, ltLo), key, lo, ltLo + 1, unLo + 1, unEnd, gtEnd, end, med)
    ensures KeyAt(a, key, unLo) < med ==> Split(a, key, lo, ltLo, unLo + 1, unEnd, gtEnd, end, med)
  {
    hide KeyAt;
    SwapKeys(a, Swapped(a, unLo, ltLo), key, unLo, ltLo);
  }

  lemma SplitHigh(a: seq<nat>, key: seq<nat>, lo: nat, ltLo: nat, unLo: nat, unEnd: nat, gtEnd: nat, end: nat, med: nat)
    requires Split(a, key, lo, ltLo, unLo, unEnd, gtEnd, end, med) && unLo < unEnd
    ensures KeyAt(a, key, unEnd - 1) == med ==>
              Split(Swapped(a, unEnd - 1, gtEnd - 1), key, lo, ltLo, unLo, unEnd - 1, gtEnd - 1, end, med)
    ensures KeyAt(a, key, unEnd - 1) > med ==> Split(a, key, lo, ltLo, unLo, unEnd - 1, gtEnd, end, med)
  {
    hide KeyAt;
    SwapKeys(a, Swapped(a, unEnd - 1, gtEnd - 1), key, unEnd - 1, gtEnd - 1);
  }

  lemma SplitSwap(a: seq<nat>, key: seq<nat>, lo: nat, ltLo: nat, unLo: nat, unEnd: nat, gtEnd: nat, end: nat, med: nat)
    requires Split(a, key, lo, ltLo, unLo, unEnd, gtEnd, end, med) && unLo + 1 < unEnd
    requires KeyAt(a, key, unLo) > med && KeyAt(a, key, unEnd - 1) < med
    ensures Split(Swapped(a, unLo, unEnd - 1), key, lo, ltLo, unLo + 1, unEnd - 1, gtEnd, end, med)
  {
    hide KeyAt;
    SwapKeys(a, Swapped(a, unLo, unEnd - 1), key, unLo, unEnd - 1);
  }

  /** A swap within the part, on top of earlier ones. */
  lemma SwapMore(was: seq<nat>, a: seq<nat>, i: nat, j: nat, lo: nat, end: nat)
    requires Shuffled(was, a, lo, end) && lo <= i < end && lo <= j < end
    ensures Shuffled(was, Swapped(a, i, j), lo, end)
  {
    SwapShuffles(a, i, j, lo, end);
    ShuffledTrans(was, a, Swapped(a, i, j), lo, end);
  }

  lemma SplitBounds(a: seq<nat>, key: seq<nat>, lo: nat, ltLo: nat, unLo: nat, unEnd: nat, gtEnd: nat, end: nat,
                    med: nat)
    requires Split(a, key, lo, ltLo, unLo, unEnd, gtEnd, end, med)
    ensures lo <= ltLo <= unLo <= unEnd <= gtEnd <= end <= |a|
    ensures forall i :: lo <= i < end ==> a[i] < |key|
  {}

  /** The first inner loop: equal keys go to the low end, and a greater key stops it. */
  method ScanUp(a: array<nat>, key: seq<nat>, lo: nat, ltLo0: nat, unLo0: nat, unHi: int, ghost gtEnd: nat,
                ghost end: nat,
                med: nat, ghost was: seq<nat>) returns (ltLo: nat, unLo: nat)
    requires unHi >= -1 && Split(a[..], key, lo, ltLo0, unLo0, unHi + 1, gtEnd, end, med)
             && Shuffled(was, a[..], lo, end)
    modifies a
    ensures Split(a[..], key, lo, ltLo, unLo, unHi + 1, gtEnd, end, med) && Shuffled(was, a[..], lo, end)
    ensures unLo0 <= unLo && (unLo <= unHi ==> a[unLo] < |key| && key[a[unLo]] > med)
  {
    hide Split, Shuffled, Swapped;
    ltLo, unLo := ltLo0, unLo0;
    while true
      invariant Split(a[..], key, lo, ltLo, unLo, unHi + 1, gtEnd, end, med) && Shuffled(was, a[..], lo, end)
      invariant unLo0 <= unLo
      decreases unHi + 1 - unLo
    {
      SplitBounds(a[..], key, lo, ltLo, unLo, unHi + 1, gtEnd, end, med);
      if unLo > unHi { break; }
      SplitLow(a[..], key, lo, ltLo, unLo, unHi + 1, gtEnd, end, med);
      var n: int := key[a[unLo]] - med;
      if n == 0 {
        SwapMore(was, a[..], unLo, ltLo, lo, end);
        Swap(a, unLo, ltLo);
        ltLo, unLo := ltLo + 1, unLo + 1;
      } else if n > 0 {
        break;
      } else {
        unLo := unLo + 1;
      }
    }
  }

  lemma SwapLeaves(s: seq<nat>, i: nat, j: nat, k: nat)
    requires i < |s| && j < |s| && k < |s| && k != i && k != j
    ensures Swapped(s, i, j)[k] == s[k]
  {}

  /** The second: equal keys go to the high end, and a smaller key stops it. */
  method ScanDown(a: array<nat>, key: seq<nat>, ghost lo: nat, ghost ltLo: nat, unLo: nat, unHi0: int, gtHi0: int,
                  ghost end: nat,
                  med: nat, ghost was: seq<nat>) returns (unHi: int, gtHi: int)
    requires unHi0 >= -1 && gtHi0 >= -1 && (unLo <= unHi0 ==> unLo < a.Length && a[unLo] < |key| && key[a[unLo]] > med)
    requires Split(a[..], key, lo, ltLo, unLo, unHi0 + 1, gtHi0 + 1, end, med) && Shuffled(was, a[..], lo, end)
    modifies a
    ensures -1 <= unHi <= unHi0 && gtHi >= -1
    ensures Split(a[..], key, lo, ltLo, unLo, unHi + 1, gtHi + 1, end, med) && Shuffled(was, a[..], lo, end)
    ensures unLo <= unHi ==> 0 <= unHi < a.Length && a[unHi] < |key| && key[a[unHi]] < med
    ensures unLo <= unHi ==> a[unLo] < |key| && key[a[unLo]] > med
  {
    hide Split, Shuffled, Swapped;
    unHi, gtHi := unHi0, gtHi0;
    while true
      invariant -1 <= unHi <= unHi0 && gtHi >= -1 && (unLo <= unHi ==> a[unLo] < |key| && key[a[unLo]] > med)
      invariant Split(a[..], key, lo, ltLo, unLo, unHi + 1, gtHi + 1, end, med) && Shuffled(was, a[..], lo, end)
      decreases unHi + 1 - unLo
    {
      SplitBounds(a[..], key, lo, ltLo, unLo, unHi + 1, gtHi + 1, end, med);
      if unLo > unHi { break; }
      SplitHigh(a[..], key, lo, ltLo, unLo, unHi + 1, gtHi + 1, end, med);
      var n: int := key[a[unHi]] - med;
      if n == 0 {
        assert unLo < unHi;
        SwapMore(was, a[..], unHi, gtHi, lo, end);
        SwapLeaves(a[..], unHi, gtHi, unLo);
        Swap(a, unHi, gtHi);
        gtHi, unHi := gtHi - 1, unHi - 1;
      } else if n < 0 {
        break;
      } else {
        unHi := unHi - 1;
      }
    }
  }

  /** Everything read: equal, less, greater, equal. */
  method Partition(a: array<nat>, key: seq<nat>, lo: nat, hi: nat, med: nat)
    returns (ltLo: nat, unLo: nat, unHi: int, gtHi: int)
    requires lo <= hi < a.Length && Into(a[..], key, lo, hi + 1)
    modifies a
    ensures Shuffled(old(a[..]), a[..], lo, hi + 1)
    ensures unHi == unLo - 1 && gtHi >= -1 && Split(a[..], key, lo, ltLo, unLo, unLo, gtHi + 1, hi + 1, med)
  {
    hide Shuffled, Swapped, Split;
    ghost var was := a[..];
    unLo, ltLo, unHi, gtHi := lo, lo, hi, hi;
    SplitStart(was, key, lo, hi + 1, med);
    while true
      invariant unHi >= -1 && gtHi >= -1
      invariant Split(a[..], key, lo, ltLo, unLo, unHi + 1, gtHi + 1, hi + 1, med) && Shuffled(was, a[..], lo, hi + 1)
      decreases unHi + 1 - unLo
    {
      SplitBounds(a[..], key, lo, ltLo, unLo, unHi + 1, gtHi + 1, hi + 1, med);
      ltLo, unLo := ScanUp(a, key, lo, ltLo, unLo, unHi, gtHi + 1, hi + 1, med, was);
      unHi, gtHi := ScanDown(a, key, lo, ltLo, unLo, unHi, gtHi, hi + 1, med, was);
      SplitBounds(a[..], key, lo, ltLo, unLo, unHi + 1, gtHi + 1, hi + 1, med);
      if unLo > unHi { break; }
      SplitSwap(a[..], key, lo, ltLo, unLo, unHi + 1, gtHi + 1, hi + 1, med);
      SwapMore(was, a[..], unLo, unHi, lo, hi + 1);
      Swap(a, unLo, unHi);
      unLo, unHi := unLo + 1, unHi - 1;
    }
  }

  lemma SplitStart(a: seq<nat>, key: seq<nat>, lo: nat, end: nat, med: nat)
    requires lo <= end <= |a| && Into(a, key, lo, end)
    ensures Split(a, key, lo, lo, lo, end, end, end, med) && Shuffled(a, a, lo, end)
  {}

  lemma SameShuffled(s: seq<nat>, lo: nat, end: nat)
    requires lo <= end <= |s|
    ensures Shuffled(s, s, lo, end)
  {}

  /** Two blocks of n entries change places. */
  ghost predicate BlocksSwapped(s: seq<nat>, t: seq<nat>, p: nat, q: nat, n: nat) {
    && |s| == |t| && p + n <= q && q + n <= |s|
    && (forall i :: p <= i < p + n ==> t[i] == s[i - p + q])
    && (forall i :: q <= i < q + n ==> t[i] == s[i - q + p])
    && (forall i :: 0 <= i < |s| && !(p <= i < p + n) && !(q <= i < q + n) ==> t[i] == s[i])
  }

  /** fvswap and mvswap. */
  method SwapBlocks(a: array<nat>, p: nat, q: nat, n: nat, ghost lo: nat, ghost end: nat)
    requires lo <= p && p + n <= q && q + n <= end <= a.Length
    modifies a
    ensures BlocksSwapped(old(a[..]), a[..], p, q, n) && Shuffled(old(a[..]), a[..], lo, end)
  {
    hide Swapped, Shuffled;
    ghost var was := a[..];
    var yyp1, yyp2, yyn := p, q, n;
    SameShuffled(was, lo, end);
    while yyn > 0
      invariant 0 <= yyn <= n && yyp1 == p + (n - yyn) && yyp2 == q + (n - yyn)
      invariant BlocksSwapped(was, a[..], p, q, n - yyn) && Shuffled(was, a[..], lo, end)
    {
      SwapMore(was, a[..], yyp1, yyp2, lo, end);
      BlocksStep(was, a[..], p, q, n - yyn);
      Swap(a, yyp1, yyp2);
      yyp1, yyp2, yyn := yyp1 + 1, yyp2 + 1, yyn - 1;
    }
  }

  lemma BlocksStep(s: seq<nat>, t: seq<nat>, p: nat, q: nat, n: nat)
    requires BlocksSwapped(s, t, p, q, n) && p + n < q && q + n < |s|
    ensures BlocksSwapped(s, Swapped(t, p + n, q + n), p, q, n + 1)
  {}

  /** The entries from lo to end in three parts: less than med up to le, equal up to ge, greater from there. */
  ghost predicate Parted(a: seq<nat>, key: seq<nat>, lo: nat, le: nat, ge: nat, end: nat, med: nat) {
    && lo <= le <= ge <= end <= |a| && Into(a, key, lo, end)
    && AllAre(a, key, lo, le, med, Less) && AllAre(a, key, le, ge, med, Equal) && AllAre(a, key, ge, end, med, Greater)
  }

  function Min(x: int, y: int): int { if x < y then x else y }

  /** Moving the equal keys from the ends to the middle. */
  method Gather(a: array<nat>, key: seq<nat>, lo: nat, hi: nat, med: nat, ltLo: nat, unLo: nat, unHi: int, gtHi: int)
    returns (n: int, m: int)
    requires lo <= hi < a.Length && gtHi >= -1 && unHi == unLo - 1
    requires Split(a[..], key, lo, ltLo, unLo, unLo, gtHi + 1, hi + 1, med)
    modifies a
    ensures lo - 1 <= n && 0 <= m && n + 1 <= m && Shuffled(old(a[..]), a[..], lo, hi + 1)
    ensures n == lo + unLo - ltLo - 1 && m == hi - (gtHi - unHi) + 1
    ensures Parted(a[..], key, lo, n + 1, m, hi + 1, med)
  {
    hide Shuffled, BlocksSwapped, Parted, AllAre, Split;
    ghost var was := a[..];
    SplitBounds(was, key, lo, ltLo, unLo, unLo, gtHi + 1, hi + 1, med);
    n := Min(ltLo - lo, unLo - ltLo);
    SwapBlocks(a, lo, unLo - n, n, lo, hi + 1);
    ghost var mid := a[..];
    m := Min(hi - gtHi, gtHi - unHi);
    SwapBlocks(a, unLo, hi - m + 1, m, lo, hi + 1);
    ShuffledTrans(was, mid, a[..], lo, hi + 1);
    GatherParts(was, mid, a[..], key, lo, ltLo, unLo, gtHi + 1, hi + 1, n, m, med);
    n := lo + unLo - ltLo - 1;
    m := hi - (gtHi - unHi) + 1;
  }

  lemma GatherParts(was: seq<nat>, mid: seq<nat>, a: seq<nat>, key: seq<nat>,
                    lo: nat, ltLo: nat, unLo: nat, gtEnd: nat, end: nat, n: nat, m: nat, med: nat)
    requires Split(was, key, lo, ltLo, unLo, unLo, gtEnd, end, med)
    requires n == Min(ltLo - lo, unLo - ltLo) && m == Min(end - gtEnd, gtEnd - unLo)
    requires BlocksSwapped(was, mid, lo, unLo - n, n) && Shuffled(was, mid, lo, end)
    requires BlocksSwapped(mid, a, unLo, end - m, m) && Shuffled(mid, a, lo, end)
    ensures Parted(a, key, lo, lo + unLo - ltLo, end - (gtEnd - unLo), end, med)
  {
    hide Shuffled, BlocksSwapped, Parted, AllAre, Into;
    ShuffledMultiset(was, mid, lo, end);
    ShuffledMultiset(mid, a, lo, end);
    ShuffledInto(was, mid, key, lo, end);
    ShuffledInto(mid, a, key, lo, end);
    var le, ge := lo + unLo - ltLo, end - (gtEnd - unLo);
    GatherLow(was, mid, key, lo, ltLo, unLo, n, med);
    GatherKeeps(was, mid, key, unLo, gtEnd, lo, unLo - n, n, med, Greater);
    GatherKeeps(was, mid, key, gtEnd, end, lo, unLo - n, n, med, Equal);
    GatherHigh(mid, a, key, unLo, gtEnd, end, m, med);
    GatherKeeps(mid, a, key, lo, le, unLo, end - m, m, med, Less);
    GatherKeeps(mid, a, key, le, unLo, unLo, end - m, m, med, Equal);
    JoinEqual(a, key, le, unLo, ge, med);
    PartedFrom(a, key, lo, le, ge, end, med);
  }

  lemma ShuffledMultiset(s: seq<nat>, t: seq<nat>, lo: nat, end: nat)
    requires Shuffled(s, t, lo, end)
    ensures multiset(s) == multiset(t) && |s| == |t|
  {}

  lemma PartedFrom(a: seq<nat>, key: seq<nat>, lo: nat, le: nat, ge: nat, end: nat, med: nat)
    requires lo <= le <= ge <= end <= |a| && Into(a, key, lo, end)
    requires AllAre(a, key, lo, le, med, Less) && AllAre(a, key, le, ge, med, Equal)
             && AllAre(a, key, ge, end, med, Greater)
    ensures Parted(a, key, lo, le, ge, end, med)
  {}

  lemma JoinEqual(a: seq<nat>, key: seq<nat>, lo: nat, mid: nat, end: nat, med: nat)
    requires AllAre(a, key, lo, mid, med, Equal) && AllAre(a, key, mid, end, med, Equal)
    ensures AllAre(a, key, lo, end, med, Equal)
  {}

  lemma BlocksKeys(s: seq<nat>, t: seq<nat>, key: seq<nat>, p: nat, q: nat, n: nat)
    requires BlocksSwapped(s, t, p, q, n)
    ensures forall i :: p <= i < p + n ==> KeyAt(t, key, i) == KeyAt(s, key, i - p + q)
    ensures forall i :: q <= i < q + n ==> KeyAt(t, key, i) == KeyAt(s, key, i - q + p)
    ensures forall i :: 0 <= i < |s| && !(p <= i < p + n) && !(q <= i < q + n) ==> KeyAt(t, key, i) == KeyAt(s, key, i)
  {}

  lemma GatherLow(s: seq<nat>, t: seq<nat>, key: seq<nat>, lo: nat, ltLo: nat, unLo: nat, n: nat, med: nat)
    requires lo <= ltLo <= unLo <= |s| && n == Min(ltLo - lo, unLo - ltLo)
    requires AllAre(s, key, lo, ltLo, med, Equal) && AllAre(s, key, ltLo, unLo, med, Less)
    requires BlocksSwapped(s, t, lo, unLo - n, n)
    ensures AllAre(t, key, lo, lo + unLo - ltLo, med, Less) && AllAre(t, key, lo + unLo - ltLo, unLo, med, Equal)
  {
    hide KeyAt;
    BlocksKeys(s, t, key, lo, unLo - n, n);
  }

  lemma GatherHigh(s: seq<nat>, t: seq<nat>, key: seq<nat>, unLo: nat, gtEnd: nat, end: nat, m: nat, med: nat)
    requires unLo <= gtEnd <= end <= |s| && m == Min(end - gtEnd, gtEnd - unLo)
    requires AllAre(s, key, unLo, gtEnd, med, Greater) && AllAre(s, key, gtEnd, end, med, Equal)
    requires BlocksSwapped(s, t, unLo, end - m, m)
    ensures AllAre(t, key, unLo, end - (gtEnd - unLo), med, Equal)
            && AllAre(t, key, end - (gtEnd - unLo), end, med, Greater)
  {
    hide KeyAt;
    BlocksKeys(s, t, key, unLo, end - m, m);
  }

  lemma GatherKeeps(s: seq<nat>, t: seq<nat>, key: seq<nat>, lo: nat, end: nat, p: nat, q: nat, n: nat, med: nat,
                    c: Order)
    requires AllAre(s, key, lo, end, med, c) && BlocksSwapped(s, t, p, q, n)
    requires end <= p || q + n <= lo || (p + n <= lo && end <= q)
    ensures AllAre(t, key, lo, end, med, c)
  {
    hide KeyAt;
    BlocksKeys(s, t, key, p, q, n);
  }
}
