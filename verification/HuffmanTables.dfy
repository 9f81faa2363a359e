/** The loops that fill the code table of the encoder and the decode tables of the decoder. */
module HuffmanTables {
  import opened Bits
  import opened Occurrences
  import opened Huffman

  /** BZ2_hbAssignCodes. */
  method AssignCodes(code: array<nat>, length: seq<nat>, minLen: nat, maxLen: nat)
    requires |length| <= code.Length && minLen <= maxLen + 1
    modifies code
    ensures forall i :: 0 <= i < |length| && minLen <= length[i] <= maxLen ==> code[i] == Code(length, minLen, i)
  {
    var vec := 0;
    var n := minLen;
    while n <= maxLen
      invariant minLen <= n <= maxLen + 1
      invariant vec == First(length, minLen, n)
      invariant forall i :: 0 <= i < |length| && minLen <= length[i] < n ==> code[i] == Code(length, minLen, i)
    {
      var i := 0;
      while i < |length|
        invariant i <= |length|
        invariant vec == First(length, minLen, n) + Count(length[..i], n)
        invariant forall k :: 0 <= k < |length| && minLen <= length[k] < n ==> code[k] == Code(length, minLen, k)
        invariant forall k :: 0 <= k < i && length[k] == n ==> code[k] == Code(length, minLen, k)
      {
        CountStep(length, i, n);
        if length[i] == n {
          code[i] := vec;
          vec := vec + 1;
        }
        i := i + 1;
      }
      assert length[..i] == length;
      vec := 2 * vec;
      n := n + 1;
    }
  }

  /** What the decoder's three arrays must hold for a length table. */
  ghost predicate TablesFor(limit: seq<int>, base: seq<int>, perm: seq<nat>, lens: seq<nat>, lo: nat, hi: nat) {
    && |limit| >= MAX_CODE_LEN && |base| >= MAX_CODE_LEN && |perm| >= |lens|
    && (forall n :: 0 <= n < MAX_CODE_LEN ==> limit[n] == LimitAt(lens, lo, hi, n))
    && (forall n :: 0 <= n < MAX_CODE_LEN ==> base[n] == BaseAt(lens, lo, hi, n))
    && perm[..|lens|] == Buckets(lens, lo, hi + 1)
  }

  /** BZ2_hbCreateDecodeTables. */
  method CreateDecodeTables(limit: array<int>, base: array<int>, perm: array<nat>,
                            length: seq<nat>, minLen: nat, maxLen: nat)
    requires limit != base && limit.Length >= MAX_CODE_LEN && base.Length >= MAX_CODE_LEN
    requires |length| <= perm.Length
    requires LensIn(length, minLen, maxLen) && minLen <= maxLen <= LONGEST
    modifies limit, base, perm
    ensures TablesFor(limit[..], base[..], perm[..], length, minLen, maxLen)
  {
    FillPerm(perm, length, minLen, maxLen);
    CumulateLengths(base, length, minLen, maxLen);
    FillLimit(limit, base, length, minLen, maxLen);
    FinishBase(limit, base, length, minLen, maxLen);
    assert perm[..][..|length|] == perm[..|length|];
  }

  /** The symbols in order of code length, then of index. */
  method FillPerm(perm: array<nat>, length: seq<nat>, minLen: nat, maxLen: nat)
    requires |length| <= perm.Length && LensIn(length, minLen, maxLen) && minLen <= maxLen
    modifies perm
    ensures perm[..|length|] == Buckets(length, minLen, maxLen + 1)
  {
    var pp := 0;
    var i := minLen;
    BelowAll(length, minLen, maxLen + 1);
    while i <= maxLen
      invariant minLen <= i <= maxLen + 1 && pp == |Buckets(length, minLen, i)| <= |length|
      invariant perm[..pp] == Buckets(length, minLen, i)
    {
      BucketFits(length, minLen, i, maxLen + 1);
      pp := FillBucket(perm, length, i, pp);
      i := i + 1;
    }
    BucketsLength(length, minLen, maxLen + 1);
  }

  lemma BucketFits(s: seq<nat>, lo: nat, i: nat, end: nat)
    requires lo <= i < end && Below(s, lo, end) == |s|
    ensures Buckets(s, lo, i + 1) == Buckets(s, lo, i) + Occ(s, i)
    ensures |Buckets(s, lo, i)| + Count(s, i) <= |s| && |Occ(s, i)| == Count(s, i)
  {
    BucketsLength(s, lo, i);
    OccLength(s, i);
    BelowNext(s, lo, i);
    BelowMono(s, lo, i + 1, end);
  }

  /** The inner loop of FillPerm: append the symbols whose code has length n. */
  method FillBucket(perm: array<nat>, length: seq<nat>, n: nat, pp: nat) returns (end: nat)
    requires pp + Count(length, n) <= perm.Length
    modifies perm
    ensures end == pp + |Occ(length, n)| <= perm.Length && perm[..end] == old(perm[..pp]) + Occ(length, n)
  {
    end := pp;
    var j := 0;
    OccLength(length, n);
    while j < |length|
      invariant j <= |length| && end == pp + |Occ(length[..j], n)| <= perm.Length
      invariant perm[..end] == old(perm[..pp]) + Occ(length[..j], n)
    {
      OccStep(length, j, n);
      OccPrefix(length, j + 1, n);
      if length[j] == n {
        perm[end] := j;
        end := end + 1;
        assert perm[..end] == perm[..end - 1] + [j];
      }
      j := j + 1;
    }
    assert length[..j] == length;
  }

  lemma {:induction false} BelowFrom(s: seq<nat>, lo: nat, c: nat)
    requires forall i :: 0 <= i < |s| ==> lo <= s[i]
    ensures Below(s, 0, c) == Below(s, lo, c)
    decreases c
  {
    if c > 0 {
      BelowFrom(s, lo, c - 1);
      if c <= lo { NoCount(s, c - 1); }
    }
  }

  lemma {:induction false} NoCount(s: seq<nat>, c: nat)
    requires forall i :: 0 <= i < |s| ==> s[i] != c
    ensures Count(s, c) == 0
  {
    if s != [] { NoCount(s[..|s| - 1], c); }
  }

  /** How many elements of s equal n - 1. */
  function ShorterByOne(s: seq<nat>, n: nat): nat {
    if n == 0 then 0 else Count(s, n - 1)
  }

  /** base[n] := how many symbols have a code shorter than n. */
  method CumulateLengths(base: array<int>, length: seq<nat>, minLen: nat, maxLen: nat)
    requires base.Length >= MAX_CODE_LEN && LensIn(length, minLen, maxLen) && maxLen <= LONGEST
    modifies base
    ensures forall n :: 0 <= n < MAX_CODE_LEN ==> base[n] == Below(length, minLen, n)
  {
    var i := 0;
    while i < MAX_CODE_LEN
      invariant i <= MAX_CODE_LEN
      invariant forall n :: 0 <= n < i ==> base[n] == 0
    {
      base[i] := 0;
      i := i + 1;
    }
    i := 0;
    while i < |length|
      invariant i <= |length| && base[0] == 0
      invariant forall n :: 0 <= n < MAX_CODE_LEN ==> base[n] == ShorterByOne(length[..i], n)
    {
      forall n | 0 <= n < MAX_CODE_LEN
        ensures ShorterByOne(length[..i + 1], n) == ShorterByOne(length[..i], n) + if n == length[i] + 1 then 1 else 0
      {
        if n > 0 { CountStep(length, i, n - 1); }
      }
      base[length[i] + 1] := base[length[i] + 1] + 1;
      i := i + 1;
    }
    assert length[..i] == length;
    Accumulate(base, length);
    forall n | 0 <= n < MAX_CODE_LEN
      ensures Below(length, 0, n) == Below(length, minLen, n)
    {
      BelowFrom(length, minLen, n);
    }
  }

  method Accumulate(base: array<int>, length: seq<nat>)
    requires base.Length >= MAX_CODE_LEN
    requires forall n :: 0 <= n < MAX_CODE_LEN ==> base[n] == ShorterByOne(length, n)
    modifies base
    ensures forall n :: 0 <= n < MAX_CODE_LEN ==> base[n] == Below(length, 0, n)
  {
    var i := 1;
    while i < MAX_CODE_LEN
      invariant 1 <= i <= MAX_CODE_LEN
      invariant forall n :: 0 <= n < i ==> base[n] == Below(length, 0, n)
      invariant forall n :: i <= n < MAX_CODE_LEN ==> base[n] == ShorterByOne(length, n)
    {
      base[i] := base[i] + base[i - 1];
      assert base[i] == Below(length, 0, i);
      i := i + 1;
    }
  }

  method FillLimit(limit: array<int>, base: array<int>, length: seq<nat>, minLen: nat, maxLen: nat)
    requires limit != base && limit.Length >= MAX_CODE_LEN && base.Length >= MAX_CODE_LEN
    requires minLen <= maxLen <= LONGEST
    requires forall n :: 0 <= n < MAX_CODE_LEN ==> base[n] == Below(length, minLen, n)
    modifies limit
    ensures forall n :: 0 <= n < MAX_CODE_LEN ==> limit[n] == LimitAt(length, minLen, maxLen, n)
  {
    var i := 0;
    while i < MAX_CODE_LEN
      invariant i <= MAX_CODE_LEN
      invariant forall n :: 0 <= n < i ==> limit[n] == 0
    {
      limit[i] := 0;
      i := i + 1;
    }
    var vec: int := 0;
    i := minLen;
    while i <= maxLen
      invariant minLen <= i <= maxLen + 1
      invariant vec == First(length, minLen, i)
      invariant forall n :: minLen <= n < i ==> limit[n] == Past(length, minLen, n) - 1
      invariant forall n :: 0 <= n < MAX_CODE_LEN && !(minLen <= n < i) ==> limit[n] == 0
    {
      BelowNext(length, minLen, i);
      vec := vec + (base[i + 1] - base[i]);
      limit[i] := vec - 1;
      vec := 2 * vec;
      i := i + 1;
    }
  }

  method FinishBase(limit: array<int>, base: array<int>, length: seq<nat>, minLen: nat, maxLen: nat)
    requires limit != base && limit.Length >= MAX_CODE_LEN && base.Length >= MAX_CODE_LEN
    requires minLen <= maxLen <= LONGEST
    requires forall n :: 0 <= n < MAX_CODE_LEN ==> base[n] == Below(length, minLen, n)
    requires forall n :: 0 <= n < MAX_CODE_LEN ==> limit[n] == LimitAt(length, minLen, maxLen, n)
    modifies base
    ensures forall n :: 0 <= n < MAX_CODE_LEN ==> base[n] == BaseAt(length, minLen, maxLen, n)
  {
    var i := minLen + 1;
    while i <= maxLen
      invariant minLen + 1 <= i <= maxLen + 1
      invariant forall n :: 0 <= n < MAX_CODE_LEN ==> base[n] == BaseAt(length, minLen, i - 1, n)
    {
      FirstNext(length, minLen, i - 1);
      base[i] := 2 * (limit[i - 1] + 1) - base[i];
      i := i + 1;
    }
  }

  lemma FirstNext(lens: seq<nat>, lo: nat, n: nat)
    requires lo <= n
    ensures First(lens, lo, n + 1) == 2 * Past(lens, lo, n)
  {}
}
