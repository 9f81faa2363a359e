/** Permutations of 0..n as sequences, and the counting facts they need. */
module Permutations {

  /** A permutation of 0..n. */
  ghost predicate IsPerm(p: seq<nat>, n: nat) {
    && |p| == n
    && (forall i :: 0 <= i < n ==> p[i] < n)
    && (forall i, j :: 0 <= i < j < n ==> p[i] != p[j])
  }

  /** The values in the first m places. */
  ghost function Prefix(p: seq<nat>, m: nat): set<nat>
    requires m <= |p|
  {
    set i | 0 <= i < m :: p[i]
  }

  ghost function Range(n: nat): set<nat> {
    if n == 0 then {} else Range(n - 1) + {n - 1}
  }

  lemma {:induction false} RangeSize(n: nat)
    ensures |Range(n)| == n && forall x :: x in Range(n) <==> 0 <= x < n
  {
    if n > 0 { RangeSize(n - 1); }
  }

  lemma {:induction false} PrefixSize(p: seq<nat>, n: nat, m: nat)
    requires IsPerm(p, n) && m <= n
    ensures |Prefix(p, m)| == m
  {
    if m > 0 {
      PrefixSize(p, n, m - 1);
      assert Prefix(p, m) == Prefix(p, m - 1) + {p[m - 1]};
      assert p[m - 1] !in Prefix(p, m - 1);
    } else {
      assert Prefix(p, 0) == {};
    }
  }

  lemma SubsetSize(a: set<nat>, b: set<nat>)
    requires a <= b
    ensures |a| <= |b|
    ensures |a| == |b| ==> a == b
  {
    var d := b - a;
    assert b == a + d && |b| == |a| + |d|;
    if |a| == |b| { assert d == {}; }
  }

  /** A permutation hits every index. */
  lemma PermOnto(p: seq<nat>, n: nat, x: nat) returns (i: nat)
    requires IsPerm(p, n) && x < n
    ensures i < n && p[i] == x
  {
    PrefixSize(p, n, n);
    RangeSize(n);
    assert Prefix(p, n) <= Range(n);
    SubsetSize(Prefix(p, n), Range(n));
    assert x in Prefix(p, n);
    i :| 0 <= i < n && p[i] == x;
  }
}
