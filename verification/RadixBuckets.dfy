/** Places of a list sorted into buckets by key: bucket c holds places Below(c) up to Below(c + 1). */
module RadixBuckets {
  import opened Permutations
  import opened Occurrences

  /** Bucket by bucket: f is a permutation whose place i lies in the bucket of its byte. */
  ghost predicate Bucketed(b: seq<nat>, f: seq<nat>) {
    && IsPerm(f, |b|)
    && forall i :: 0 <= i < |b| ==> InBucket(b, b[f[i]], i)
  }

  /** Place i lies in bucket c. */
  ghost predicate InBucket(b: seq<nat>, c: nat, i: int) {
    Below(b, 0, c) <= i < Below(b, 0, c + 1)
  }

  lemma BelowAdds(b: seq<nat>, c: nat)
    ensures Below(b, 0, c + 1) == Below(b, 0, c) + Count(b, c) && Below(b, 0, 0) == 0
  {}

  /** Every place below |b| lies in a bucket. */
  lemma {:induction false} FindBucket(b: seq<nat>, p: nat, hi: nat) returns (c: nat)
    requires p < Below(b, 0, hi)
    ensures c < hi && InBucket(b, c, p)
    decreases hi
  {
    if p < Below(b, 0, hi - 1) {
      c := FindBucket(b, p, hi - 1);
    } else {
      c := hi - 1;
    }
  }

  lemma StartsOrder(b: seq<nat>, c: nat, d: nat, i: nat, j: nat)
    requires InBucket(b, c, i) && InBucket(b, d, j)
    ensures Below(b, 0, c) <= Below(b, 0, d) <==> c <= d
  {
    if c <= d { BelowMono(b, 0, c, d); } else { BelowMono(b, 0, d + 1, c); }
  }

  /** No place lies in two buckets. */
  lemma BucketsApart(b: seq<nat>, c: nat, d: nat, p: nat)
    requires c != d && Below(b, 0, c) <= p < Below(b, 0, c + 1)
    ensures !(Below(b, 0, d) <= p < Below(b, 0, d + 1))
  {
    if c < d { BelowMono(b, 0, c + 1, d); } else { BelowMono(b, 0, d + 1, c); }
  }
}
