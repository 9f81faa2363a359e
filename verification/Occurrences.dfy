/** Where values occur in a sequence, and the stable bucket order this induces. */
module Occurrences {

  /** How often c occurs in s. */
  function Count(s: seq<nat>, c: nat): nat {
    if s == [] then 0 else Count(s[..|s| - 1], c) + if s[|s| - 1] == c then 1 else 0
  }

  /** How many elements of s lie in lo..c. */
  function Below(s: seq<nat>, lo: nat, c: nat): nat
    decreases c
  {
    if c <= lo then 0 else Below(s, lo, c - 1) + Count(s, c - 1)
  }

  /** How many earlier elements equal s[i]. */
  function Rank(s: seq<nat>, i: nat): nat
    requires i < |s|
  {
    Count(s[..i], s[i])
  }

  /** The positions of c in s, in increasing order. */
  function Occ(s: seq<nat>, c: nat): seq<nat> {
    if s == [] then []
    else Occ(s[..|s| - 1], c) + if s[|s| - 1] == c then [|s| - 1] else []
  }

  /** The positions of all values in lo..hi, bucket by bucket. */
  function Buckets(s: seq<nat>, lo: nat, hi: nat): seq<nat>
    decreases hi
  {
    if hi <= lo then [] else Buckets(s, lo, hi - 1) + Occ(s, hi - 1)
  }

  lemma {:induction false} OccLength(s: seq<nat>, c: nat)
    ensures |Occ(s, c)| == Count(s, c) <= |s|
  {
    if s != [] { OccLength(s[..|s| - 1], c); }
  }

  lemma {:induction false} BucketsLength(s: seq<nat>, lo: nat, hi: nat)
    ensures |Buckets(s, lo, hi)| == Below(s, lo, hi)
    decreases hi
  {
    hide Occ, Count;
    if lo < hi {
      BucketsLength(s, lo, hi - 1);
      OccLength(s, hi - 1);
    }
  }

  lemma {:induction false} OccSound(s: seq<nat>, c: nat, t: nat)
    requires t < |Occ(s, c)|
    ensures Occ(s, c)[t] < |s| && s[Occ(s, c)[t]] == c
  {
    var r := s[..|s| - 1];
    if t < |Occ(r, c)| { OccSound(r, c, t); }
  }

  lemma {:induction false} OccPrefix(s: seq<nat>, i: nat, c: nat)
    requires i <= |s|
    ensures Occ(s[..i], c) <= Occ(s, c)
  {
    if i < |s| {
      var k := |s| - 1;
      OccPrefix(s[..k], i, c);
      assert s[..k][..i] == s[..i];
    } else {
      assert s[..i] == s;
    }
  }

  lemma CountStep(s: seq<nat>, i: nat, c: nat)
    requires i < |s|
    ensures Count(s[..i + 1], c) == Count(s[..i], c) + if s[i] == c then 1 else 0
  {
    assert s[..i + 1][..i] == s[..i];
  }

  lemma OccStep(s: seq<nat>, i: nat, c: nat)
    requires i < |s|
    ensures Occ(s[..i + 1], c) == Occ(s[..i], c) + if s[i] == c then [i] else []
  {
    assert s[..i + 1][..i] == s[..i];
  }

  lemma {:induction false} CountPrefix(s: seq<nat>, i: nat, c: nat)
    requires i <= |s|
    ensures Count(s[..i], c) <= Count(s, c)
  {
    OccPrefix(s, i, c);
    OccLength(s, c);
    OccLength(s[..i], c);
  }

  /** An element sits in its bucket at its rank. */
  lemma OccAtRank(s: seq<nat>, i: nat)
    requires i < |s|
    ensures Rank(s, i) < Count(s, s[i]) == |Occ(s, s[i])| && Occ(s, s[i])[Rank(s, i)] == i
  {
    var c := s[i];
    OccStep(s, i, c);
    OccPrefix(s, i + 1, c);
    OccLength(s[..i], c);
    OccLength(s, c);
  }

  lemma {:induction false} OccIncreasing(s: seq<nat>, c: nat)
    ensures forall t, u :: 0 <= t < u < |Occ(s, c)| ==> Occ(s, c)[t] < Occ(s, c)[u]
  {
    if s != [] {
      var k := |s| - 1;
      OccIncreasing(s[..k], c);
      forall t | 0 <= t < |Occ(s[..k], c)|
        ensures Occ(s[..k], c)[t] < k
      {
        OccSound(s[..k], c, t);
      }
    }
  }

  lemma {:induction false} BelowMono(s: seq<nat>, lo: nat, a: nat, b: nat)
    requires a <= b
    ensures Below(s, lo, a) <= Below(s, lo, b)
    decreases b
  {
    if a < b && lo < b { BelowMono(s, lo, a, b - 1); }
  }

  lemma BelowNext(s: seq<nat>, lo: nat, c: nat)
    requires lo <= c
    ensures Below(s, lo, c + 1) == Below(s, lo, c) + Count(s, c)
  {}

  /** The slot of the t-th entry of bucket c in the bucket order. */
  lemma {:induction false} BucketSlot(s: seq<nat>, lo: nat, hi: nat, c: nat, t: nat)
    requires lo <= c < hi && t < Count(s, c)
    ensures Below(s, lo, c) + t < |Buckets(s, lo, hi)| && t < |Occ(s, c)|
    ensures Buckets(s, lo, hi)[Below(s, lo, c) + t] == Occ(s, c)[t]
    decreases hi
  {
    OccLength(s, c);
    if c < hi - 1 {
      BucketSlot(s, lo, hi - 1, c, t);
    } else {
      BucketsLength(s, lo, c);
    }
  }

  /** Every slot of the bucket order belongs to the bucket of its value. */
  lemma {:induction false} SlotBucket(s: seq<nat>, lo: nat, hi: nat, p: nat)
    requires p < |Buckets(s, lo, hi)|
    ensures Buckets(s, lo, hi)[p] < |s|
    ensures var c := s[Buckets(s, lo, hi)[p]];
            lo <= c < hi && Below(s, lo, c) <= p < Below(s, lo, c) + |Occ(s, c)|
            && Buckets(s, lo, hi)[p] == Occ(s, c)[p - Below(s, lo, c)]
    decreases hi
  {
    var n := |Buckets(s, lo, hi - 1)|;
    if p < n {
      SlotBucket(s, lo, hi - 1, p);
    } else {
      BucketsLength(s, lo, hi - 1);
      OccSound(s, hi - 1, p - n);
    }
  }

  lemma CountSnoc(s: seq<nat>, x: nat, c: nat)
    ensures Count(s + [x], c) == Count(s, c) + if x == c then 1 else 0
  {
    assert (s + [x])[..|s|] == s;
  }

  lemma {:induction false} BelowSnoc(s: seq<nat>, x: nat, lo: nat, c: nat)
    requires lo <= x
    ensures Below(s + [x], lo, c) == Below(s, lo, c) + if x < c then 1 else 0
    decreases c
  {
    if lo < c {
      BelowSnoc(s, x, lo, c - 1);
      CountSnoc(s, x, c - 1);
    }
  }

  /** When all values lie in lo..hi, every position has a slot. */
  lemma {:induction false} BelowAll(s: seq<nat>, lo: nat, hi: nat)
    requires forall i :: 0 <= i < |s| ==> lo <= s[i] < hi
    ensures Below(s, lo, hi) == |s|
  {
    if s == [] {
      BelowEmpty(lo, hi);
    } else {
      var k := |s| - 1;
      BelowAll(s[..k], lo, hi);
      BelowSnoc(s[..k], s[k], lo, hi);
      assert s[..k] + [s[k]] == s;
    }
  }

  lemma {:induction false} BelowEmpty(lo: nat, hi: nat)
    ensures Below([], lo, hi) == 0
    decreases hi
  {
    if lo < hi { BelowEmpty(lo, hi - 1); }
  }
}
