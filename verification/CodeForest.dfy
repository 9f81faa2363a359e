/**
 Forests given by parent links to later nodes: who owns each leaf, how deep it lies, and what merging two trees does.
*/
module CodeForest {
  import opened Bits

  /** Node 0 is the sentinel; every other node is a root (-1) or has a later node as its parent. */
  ghost predicate Links(par: seq<int>) {
    forall x :: 1 <= x < |par| ==> par[x] == -1 || x < par[x] < |par|
  }

  ghost predicate IsRoot(par: seq<int>, x: nat) {
    1 <= x < |par| && par[x] == -1
  }

  function RootOf(par: seq<int>, x: nat): nat
    requires Links(par) && 1 <= x < |par|
    decreases |par| - x
  {
    if par[x] < 0 then x else RootOf(par, par[x])
  }

  /** How many links lead from x to its root. */
  function StepsUp(par: seq<int>, x: nat): nat
    requires Links(par) && 1 <= x < |par|
    decreases |par| - x
  {
    if par[x] < 0 then 0 else 1 + StepsUp(par, par[x])
  }

  lemma {:induction false} RootIsRoot(par: seq<int>, x: nat)
    requires Links(par) && 1 <= x < |par|
    ensures IsRoot(par, RootOf(par, x))
    decreases |par| - x
  {
    if par[x] >= 0 { RootIsRoot(par, par[x]); }
  }

  /** The links after making a new last node the parent of a and b. */
  function Merged(par: seq<int>, a: nat, b: nat): seq<int>
    requires a < |par| && b < |par|
  {
    par[a := |par|][b := |par|] + [-1]
  }

  lemma {:induction false} MergedLinks(par: seq<int>, a: nat, b: nat)
    requires Links(par) && IsRoot(par, a) && IsRoot(par, b)
    ensures Links(Merged(par, a, b))
  {}

  /** Merging adds a level above the leaves of the two trees and leaves the others alone. */
  lemma {:induction false} MergedAt(par: seq<int>, a: nat, b: nat, x: nat)
    requires Links(par) && IsRoot(par, a) && IsRoot(par, b) && a != b && 1 <= x < |par|
    ensures Links(Merged(par, a, b))
    ensures var r := RootOf(par, x);
            if r == a || r == b
            then RootOf(Merged(par, a, b), x) == |par| && StepsUp(Merged(par, a, b), x) == StepsUp(par, x) + 1
            else RootOf(Merged(par, a, b), x) == r && StepsUp(Merged(par, a, b), x) == StepsUp(par, x)
    decreases |par| - x
  {
    MergedLinks(par, a, b);
    var m := Merged(par, a, b);
    if par[x] >= 0 {
      assert m[x] == par[x];
      MergedAt(par, a, b, par[x]);
    } else if x == a || x == b {
      assert m[x] == |par| && m[|par|] == -1;
      assert RootOf(m, |par|) == |par| && StepsUp(m, |par|) == 0;
    } else {
      assert m[x] == -1;
    }
  }

  // ---------- leaves 1..k, listed by owner and depth ----------

  function Owners(par: seq<int>, k: nat): (o: seq<nat>)
    requires Links(par) && k < |par|
    ensures |o| == k
  {
    if k == 0 then [] else Owners(par, k - 1) + [RootOf(par, k)]
  }

  function Depths(par: seq<int>, k: nat): (d: seq<nat>)
    requires Links(par) && k < |par|
    ensures |d| == k
  {
    if k == 0 then [] else Depths(par, k - 1) + [StepsUp(par, k)]
  }

  lemma {:induction false} OwnersAt(par: seq<int>, k: nat, i: nat)
    requires Links(par) && i < k < |par|
    ensures Owners(par, k)[i] == RootOf(par, i + 1) && Depths(par, k)[i] == StepsUp(par, i + 1)
  {
    if i < k - 1 { OwnersAt(par, k - 1, i); }
  }

  /** The weight of the leaves r owns. */
  function WeightOf(own: seq<nat>, w: seq<nat>, r: nat): nat
    requires |own| == |w|
  {
    if own == [] then 0
    else
      var k := |own| - 1;
      WeightOf(own[..k], w[..k], r) + if own[k] == r then w[k] else 0
  }

  function Total(w: seq<nat>): nat {
    if w == [] then 0 else Total(w[..|w| - 1]) + w[|w| - 1]
  }

  /** The share of the code space, in units of 2^-K, of the leaves r owns. */
  function ShareOf(own: seq<nat>, dep: seq<nat>, r: nat, K: nat): nat
    requires |own| == |dep| && forall i :: 0 <= i < |dep| ==> dep[i] <= K
  {
    if own == [] then 0
    else
      var k := |own| - 1;
      ShareOf(own[..k], dep[..k], r, K) + if own[k] == r then Pow2(K - dep[k]) else 0
  }

  /** own' and dep' are own and dep after the trees of a and b have been put under n. */
  ghost predicate MergeOf(own: seq<nat>, dep: seq<nat>, own': seq<nat>, dep': seq<nat>, a: nat, b: nat, n: nat) {
    && |own| == |dep| == |own'| == |dep'| && a != b && a != n && b != n && n !in own
    && (forall i :: 0 <= i < |own| ==> own'[i] == if own[i] == a || own[i] == b then n else own[i])
    && (forall i :: 0 <= i < |own| ==> dep'[i] == if own[i] == a || own[i] == b then dep[i] + 1 else dep[i])
  }

  lemma MergeOfFront(own: seq<nat>, dep: seq<nat>, own': seq<nat>, dep': seq<nat>, a: nat, b: nat, n: nat)
    requires MergeOf(own, dep, own', dep', a, b, n) && own != []
    ensures var k := |own| - 1; MergeOf(own[..k], dep[..k], own'[..k], dep'[..k], a, b, n)
  {}

  lemma {:induction false} MergeWeight(own: seq<nat>, dep: seq<nat>, own': seq<nat>, dep': seq<nat>,
                                       w: seq<nat>, a: nat, b: nat, n: nat, r: nat)
    requires MergeOf(own, dep, own', dep', a, b, n) && |w| == |own| && r != a && r != b
    ensures WeightOf(own', w, n) == WeightOf(own, w, a) + WeightOf(own, w, b)
    ensures r != n ==> WeightOf(own', w, r) == WeightOf(own, w, r)
    decreases |own|
  {
    if own != [] {
      var k := |own| - 1;
      MergeOfFront(own, dep, own', dep', a, b, n);
      MergeWeight(own[..k], dep[..k], own'[..k], dep'[..k], w[..k], a, b, n, r);
      assert own[k] in own;
    }
  }

  lemma {:induction false} MergeShare(own: seq<nat>, dep: seq<nat>, own': seq<nat>, dep': seq<nat>,
                                      a: nat, b: nat, n: nat, r: nat, K: nat)
    requires MergeOf(own, dep, own', dep', a, b, n) && r != a && r != b
    requires forall i :: 0 <= i < |dep| ==> dep[i] < K && dep'[i] <= K
    ensures 2 * ShareOf(own', dep', n, K) == ShareOf(own, dep, a, K) + ShareOf(own, dep, b, K)
    ensures r != n ==> ShareOf(own', dep', r, K) == ShareOf(own, dep, r, K)
    decreases |own|
  {
    if own != [] {
      var k := |own| - 1;
      MergeOfFront(own, dep, own', dep', a, b, n);
      MergeShare(own[..k], dep[..k], own'[..k], dep'[..k], a, b, n, r, K);
      assert own[k] in own;
      assert Pow2(K - dep[k]) == 2 * Pow2(K - dep[k] - 1);
    }
  }

  lemma {:induction false} WeightAtMost(own: seq<nat>, w: seq<nat>, r: nat)
    requires |own| == |w|
    ensures WeightOf(own, w, r) <= Total(w)
    decreases |own|
  {
    if own != [] {
      var k := |own| - 1;
      WeightAtMost(own[..k], w[..k], r);
    }
  }

  /** When r owns every leaf its weight is the total. */
  lemma {:induction false} WeightAll(own: seq<nat>, w: seq<nat>, r: nat)
    requires |own| == |w| && forall i :: 0 <= i < |own| ==> own[i] == r
    ensures WeightOf(own, w, r) == Total(w)
    decreases |own|
  {
    if own != [] {
      var k := |own| - 1;
      WeightAll(own[..k], w[..k], r);
    }
  }

  // ---------- the least weight of a tree of a given height ----------

  /** 1, 2, 3, 5, 8, ... */
  function Fib(h: nat): nat {
    if h == 0 then 1 else if h == 1 then 2 else Fib(h - 1) + Fib(h - 2)
  }

  lemma {:induction false} FibGrows(m: nat, n: nat)
    requires m <= n
    ensures Fib(m) <= Fib(n) && Fib(n) >= 1
    decreases n
  {
    if m < n {
      FibGrows(m, n - 1);
      if n >= 2 { FibGrows(0, n - 2); }
    } else if n >= 2 {
      FibGrows(n - 1, n - 1);
      FibGrows(n - 2, n - 2);
    }
  }

  lemma FibValues()
    ensures Fib(18) == 6765 && Fib(33) == 9227465
  {
    var f0, f1, k := 1, 2, 1;
    assert Fib(0) == 1 && Fib(1) == 2 && Fib(2) == 3 && Fib(3) == 5 && Fib(4) == 8 && Fib(5) == 13;
    assert Fib(6) == 21 && Fib(7) == 34 && Fib(8) == 55 && Fib(9) == 89 && Fib(10) == 144;
    assert Fib(11) == 233 && Fib(12) == 377 && Fib(13) == 610 && Fib(14) == 987 && Fib(15) == 1597;
    assert Fib(16) == 2584 && Fib(17) == 4181 && Fib(18) == 6765 && Fib(19) == 10946 && Fib(20) == 17711;
    assert Fib(21) == 28657 && Fib(22) == 46368 && Fib(23) == 75025 && Fib(24) == 121393 && Fib(25) == 196418;
    assert Fib(26) == 317811 && Fib(27) == 514229 && Fib(28) == 832040 && Fib(29) == 1346269;
    assert Fib(30) == 2178309 && Fib(31) == 3524578 && Fib(32) == 5702887;
  }
}
