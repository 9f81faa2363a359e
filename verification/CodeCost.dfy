/**
 The cost of a code: no prefix code is cheaper than one made by putting the two lightest trees together again and
 again.
*/
module CodeCost {
  import opened Bits
  import opened Huffman
  import opened CodeForest

  function Times(u: nat, v: nat): nat {
    u * v
  }

  /** The weighted sum of code lengths. */
  function Cost(w: seq<nat>, lens: seq<nat>): nat
    requires |w| == |lens|
  {
    if w == [] then 0
    else
      var k := |w| - 1;
      Cost(w[..k], lens[..k]) + Times(w[k], lens[k])
  }

  /** What a code of x bits takes of the code space, in units of 2^-m. */
  function Share(x: nat, m: nat): nat
    requires x <= m
  {
    Pow2(m - x)
  }

  /** The code space of the live nodes, one term a node, in units of 2^-m. */
  function Terms(alive: seq<bool>, c: seq<nat>, m: nat): (t: seq<nat>)
    requires |alive| == |c| && forall x :: 0 <= x < |c| && alive[x] ==> c[x] <= m
    ensures |t| == |c| && forall x :: 0 <= x < |c| ==> t[x] == if alive[x] then Share(c[x], m) else 0
  {
    if c == [] then []
    else
      var k := |c| - 1;
      Terms(alive[..k], c[..k], m) + [if alive[k] then Share(c[k], m) else 0]
  }

  /** The cost of the live nodes, one term a node. */
  function Costs(alive: seq<bool>, wt: seq<nat>, c: seq<nat>): (t: seq<nat>)
    requires |alive| == |wt| == |c|
    ensures |t| == |c|
  {
    if c == [] then []
    else
      var k := |c| - 1;
      Costs(alive[..k], wt[..k], c[..k]) + [if alive[k] then Times(wt[k], c[k]) else 0]
  }

  lemma {:induction false} CostAt(alive: seq<bool>, wt: seq<nat>, c: seq<nat>, x: nat)
    requires |alive| == |wt| == |c| && x < |c|
    ensures Costs(alive, wt, c)[x] == if alive[x] then Times(wt[x], c[x]) else 0
  {
    var k := |c| - 1;
    if x < k { CostAt(alive[..k], wt[..k], c[..k], x); }
  }

  /** Lengths for the live nodes that leave them apart. */
  ghost predicate Coded(alive: seq<bool>, c: seq<nat>, m: nat) {
    && |alive| == |c| && (forall x :: 0 <= x < |c| && alive[x] ==> c[x] <= m)
    && Total(Terms(alive, c, m)) <= Pow2(m)
  }

  // ---------- sums ----------

  lemma {:induction false} TotalSet(s: seq<nat>, i: nat, v: nat)
    requires i < |s|
    ensures Total(s[i := v]) == Total(s) - s[i] + v
  {
    var k := |s| - 1;
    if i == k {
      assert s[i := v][..k] == s[..k];
    } else {
      TotalSet(s[..k], i, v);
      assert s[i := v][..k] == s[..k][i := v];
    }
  }

  lemma TotalSnoc(s: seq<nat>, v: nat)
    ensures Total(s + [v]) == Total(s) + v
  {
    assert (s + [v])[..|s|] == s;
  }

  /** Two entries change. */
  lemma TotalSetTwo(s: seq<nat>, t: seq<nat>, i: nat, j: nat)
    requires i < |s| == |t| && j < |s| && i != j && forall x :: 0 <= x < |s| && x != i && x != j ==> t[x] == s[x]
    ensures Total(t) == Total(s) - s[i] - s[j] + t[i] + t[j]
  {
    TotalSet(s, i, t[i]);
    TotalSet(s[i := t[i]], j, t[j]);
    assert t == s[i := t[i]][j := t[j]];
  }

  lemma {:induction false} TotalAtLeast(s: seq<nat>, i: nat)
    requires i < |s|
    ensures s[i] <= Total(s)
  {
    if i < |s| - 1 { TotalAtLeast(s[..|s| - 1], i); }
  }

  // ---------- exchanging two lengths ----------

  function Exchanged(c: seq<nat>, x: nat, y: nat): seq<nat>
    requires x < |c| && y < |c|
  {
    c[x := c[y]][y := c[x]]
  }

  lemma Rearranged(u: nat, v: nat, p: nat, q: nat)
    requires u <= v && p <= q
    ensures Times(u, q) + Times(v, p) <= Times(u, p) + Times(v, q)
  {
    assert (v - u) * (q - p) >= 0;
    assert (v - u) * (q - p) == v * q - v * p - u * q + u * p;
  }

  lemma ExchangeSpace(alive: seq<bool>, c: seq<nat>, m: nat, x: nat, y: nat)
    requires Coded(alive, c, m) && x < |c| && y < |c| && alive[x] && alive[y]
    ensures Coded(alive, Exchanged(c, x, y), m)
  {
    hide Total, Pow2, Terms;
    var d := Exchanged(c, x, y);
    if x == y {
      assert d == c;
    } else {
      TotalSetTwo(Terms(alive, c, m), Terms(alive, d, m), x, y);
    }
  }

  /** Giving the lighter of two nodes the longer code leaves the code space as it is and costs no more. */
  lemma Exchange(alive: seq<bool>, wt: seq<nat>, c: seq<nat>, m: nat, x: nat, y: nat)
    requires Coded(alive, c, m) && |wt| == |c| && x < |c| && y < |c| && alive[x] && alive[y] && wt[x] <= wt[y]
             && c[x] <= c[y]
    ensures Coded(alive, Exchanged(c, x, y), m)
    ensures Total(Costs(alive, wt, Exchanged(c, x, y))) <= Total(Costs(alive, wt, c))
  {
    hide Times, Total, Terms, Costs, Pow2;
    ExchangeSpace(alive, c, m, x, y);
    var d := Exchanged(c, x, y);
    if x == y {
      assert d == c;
    } else {
      forall z: nat | z < |c|
        ensures z != x && z != y ==> Costs(alive, wt, d)[z] == Costs(alive, wt, c)[z]
      {
        CostAt(alive, wt, c, z);
        CostAt(alive, wt, d, z);
      }
      TotalSetTwo(Costs(alive, wt, c), Costs(alive, wt, d), x, y);
      CostAt(alive, wt, c, x);
      CostAt(alive, wt, c, y);
      CostAt(alive, wt, d, x);
      CostAt(alive, wt, d, y);
      Rearranged(wt[x], wt[y], c[x], c[y]);
    }
  }

  /** A live node, other than skip, with the longest code. */
  lemma Longest(alive: seq<bool>, c: seq<nat>, skip: int, y: nat) returns (x: nat)
    requires |alive| == |c| && y < |c| && alive[y] && y != skip
    ensures x < |c| && alive[x] && x != skip && forall u :: 0 <= u < |c| && alive[u] && u != skip ==> c[u] <= c[x]
  {
    x := y;
    for k := 0 to |c|
      invariant x < |c| && alive[x] && x != skip && forall u :: 0 <= u < k && alive[u] && u != skip ==> c[u] <= c[x]
    {
      if alive[k] && k != skip && c[k] > c[x] { x := k; }
    }
  }

  // ---------- one merge ----------

  ghost predicate Lightest(alive: seq<bool>, wt: seq<nat>, a: nat, b: nat) {
    && |alive| == |wt| && a < |wt| && b < |wt| && a != b && alive[a] && alive[b]
    && (forall u :: 0 <= u < |wt| && alive[u] ==> wt[a] <= wt[u])
    && (forall u :: 0 <= u < |wt| && alive[u] && u != a ==> wt[b] <= wt[u])
  }

  function AliveMerged(alive: seq<bool>, a: nat, b: nat): (l: seq<bool>)
    requires a < |alive| && b < |alive|
    ensures |l| == |alive| + 1
  {
    alive[a := false][b := false] + [true]
  }

  /** The two lightest nodes may be given the two longest codes. */
  lemma Sink(alive: seq<bool>, wt: seq<nat>, c: seq<nat>, m: nat, a: nat, b: nat) returns (d: seq<nat>)
    requires Coded(alive, c, m) && Lightest(alive, wt, a, b) && |c| == |wt|
    ensures Coded(alive, d, m) && |d| == |c| && Total(Costs(alive, wt, d)) <= Total(Costs(alive, wt, c))
    ensures d[b] <= d[a] && forall u :: 0 <= u < |d| && alive[u] && u != a ==> d[u] <= d[b]
  {
    hide Terms, Costs, Total, Coded;
    CodedSize(alive, c, m);
    var x := Longest(alive, c, -1, a);
    Exchange(alive, wt, c, m, a, x);
    var e := Exchanged(c, a, x);
    var y := Longest(alive, e, a, b);
    Exchange(alive, wt, e, m, b, y);
    d := Exchanged(e, b, y);
  }

  lemma CodedSize(alive: seq<bool>, c: seq<nat>, m: nat)
    requires Coded(alive, c, m)
    ensures |alive| == |c|
  {}

  /** Coarser units: all but one of the nodes have codes of at most k bits. */
  lemma {:induction false} Coarser(alive: seq<bool>, c: seq<nat>, k: nat, j: nat, m: nat)
    requires |alive| == |c| && m == k + j && forall x :: 0 <= x < |c| && alive[x] ==> c[x] <= k
    ensures Total(Terms(alive, c, m)) == Times(Total(Terms(alive, c, k)), Pow2(j))
    decreases |c|
  {
    if c == [] {
      assert Terms(alive, c, m) == [] && Terms(alive, c, k) == [];
    } else {
      var n := |c| - 1;
      Coarser(alive[..n], c[..n], k, j, m);
      var e: nat := if alive[n] then k - c[n] else 0;
      Pow2Add(e, j);
      var s, t, p := Terms(alive[..n], c[..n], m), Terms(alive[..n], c[..n], k), if alive[n] then Pow2(e) else 0;
      assert Terms(alive, c, k) == t + [p];
      assert Terms(alive, c, m) == s + [Times(p, Pow2(j))];
      TotalSnoc(t, p);
      TotalSnoc(s, Times(p, Pow2(j)));
      Spread(Total(t), p, Pow2(j));
    }
  }

  lemma Spread(x: nat, y: nat, z: nat)
    ensures Times(x + y, z) == Times(x, z) + Times(y, z)
  {}

  lemma MoreIsMore(r: nat, s: nat, q: nat)
    requires r <= s
    ensures Times(r, q) <= Times(s, q)
  {
    assert (s - r) * q >= 0;
    assert (s - r) * q == s * q - r * q;
  }

  /** s units of size q and less than one more do not fill r units. */
  lemma RoomForOne(s: nat, q: nat, f: nat, r: nat)
    requires Times(s, q) + f <= Times(r, q) && f > 0
    ensures s < r && Times(s, q) + q <= Times(r, q)
  {
    hide Times;
    if s >= r {
      MoreIsMore(r, s, q);
    } else {
      MoreIsMore(s + 1, r, q);
      Spread(s, 1, q);
      OneTimes(q);
    }
  }

  lemma OneTimes(q: nat)
    ensures Times(1, q) == q
  {}

  /** Two nodes with the longest codes become one with a code a bit shorter than the second longest. */
  lemma Join(alive: seq<bool>, c: seq<nat>, m: nat, a: nat, b: nat)
    requires Coded(alive, c, m) && a < |c| && b < |c| && a != b && alive[a] && alive[b]
    requires c[b] <= c[a] && forall u :: 0 <= u < |c| && alive[u] && u != a ==> c[u] <= c[b]
    ensures 1 <= c[b] && Coded(AliveMerged(alive, a, b), c + [c[b] - 1], m)
  {
    hide Terms;
    var k, j := c[b], m - c[b];
    var rest := alive[a := false];
    var t1, coarse := Terms(rest, c, m), Terms(rest, c, k);
    RestTotal(alive, c, m, a);
    hide Times, Total;
    Coarser(rest, c, k, j, m);
    Pow2Product(k, j);
    RoomForOne(Total(coarse), Pow2(j), Pow2(m - c[a]), Pow2(k));
    assert coarse[b] == Pow2(0) == 1;
    SecondFits(coarse, b);
    hide Pow2, Terms, Coded;
    JoinTotal(alive, c, m, a, b, t1, Total(t1));
  }

  lemma RestTotal(alive: seq<bool>, c: seq<nat>, m: nat, a: nat)
    requires Coded(alive, c, m) && a < |c| && alive[a]
    ensures Total(Terms(alive[a := false], c, m)) + Pow2(m - c[a]) <= Pow2(m) && Pow2(m - c[a]) > 0
  {
    hide Terms;
    var t := Terms(alive, c, m);
    assert Terms(alive[a := false], c, m) == t[a := 0];
    TotalSet(t, a, 0);
    Pow2Positive(m - c[a]);
  }

  lemma Pow2Product(k: nat, j: nat)
    ensures Times(Pow2(k), Pow2(j)) == Pow2(k + j)
  {
    Pow2Add(k, j);
  }

  lemma Pow2Positive(n: nat)
    ensures Pow2(n) > 0
  {}

  /** A code of length 0 would leave no room for another. */
  lemma SecondFits(t: seq<nat>, b: nat)
    requires b < |t| && t[b] == 1
    ensures Total(t) >= 1
  {
    TotalAtLeast(t, b);
  }

  lemma JoinTotal(alive: seq<bool>, c: seq<nat>, m: nat, a: nat, b: nat, t1: seq<nat>, sum: nat)
    requires |alive| == |c| && a < |c| && b < |c| && a != b && alive[a] && alive[b] && 1 <= c[b]
    requires forall x :: 0 <= x < |c| && alive[x] ==> c[x] <= m
    requires t1 == Terms(alive[a := false], c, m) && Total(t1) == sum && sum + Pow2(m - c[b]) <= Pow2(m)
    ensures Coded(AliveMerged(alive, a, b), c + [c[b] - 1], m)
  {
    hide Terms;
    var q, d := Pow2(m - c[b]), c + [c[b] - 1];
    var t2 := Terms(AliveMerged(alive, a, b), d, m);
    assert Pow2(m - (c[b] - 1)) == 2 * q;
    hide Total, Pow2;
    assert t2 == t1[b := 0] + [2 * q];
    TotalSet(t1, b, 0);
    TotalSnoc(t1[b := 0], 2 * q);
  }

  /** All costs but two stay, two go, and one is added. */
  lemma CostsMerged(t: seq<nat>, t': seq<nat>, n: nat, a: nat, b: nat)
    requires n == |t| && |t'| == n + 1 && a < n && b < n && a != b && t'[a] == t'[b] == 0
    requires forall x :: 0 <= x < n && x != a && x != b ==> t'[x] == t[x]
    ensures Total(t') == Total(t) - t[a] - t[b] + t'[n]
  {
    assert t' == t'[..n] + [t'[n]];
    TotalSnoc(t'[..n], t'[n]);
    TotalSetTwo(t, t'[..n], a, b);
  }

  /** What the merged code costs. */
  lemma JoinCost(alive: seq<bool>, wt: seq<nat>, c: seq<nat>, alive': seq<bool>, wt': seq<nat>, c': seq<nat>, a: nat,
                 b: nat)
    requires |alive| == |wt| == |c| && a < |c| && b < |c| && a != b && alive[a] && alive[b] && 1 <= c[b] <= c[a]
    requires |alive'| == |wt'| == |c'| == |c| + 1 && alive'[|c|] && !alive'[a] && !alive'[b]
    requires wt'[|c|] == wt[a] + wt[b] && c'[|c|] == c[b] - 1
    requires forall x: nat :: x < |c| ==> wt'[x] == wt[x] && c'[x] == c[x]
    requires forall x: nat :: x < |c| && x != a && x != b ==> alive'[x] == alive[x]
    ensures Total(Costs(alive', wt', c')) + wt[a] + wt[b] <= Total(Costs(alive, wt, c))
  {
    hide Total, Times, Costs;
    var n, t, t' := |c|, Costs(alive, wt, c), Costs(alive', wt', c');
    forall x: nat | x < n
      ensures t'[x] == if x == a || x == b then 0 else t[x]
    {
      CostAt(alive, wt, c, x);
      CostAt(alive', wt', c', x);
    }
    CostsMerged(t, t', n, a, b);
    CostAt(alive', wt', c', n);
    CostAt(alive, wt, c, a);
    CostAt(alive, wt, c, b);
    Shorter(wt[a], wt[b], c[a], c[b], wt'[n], c'[n]);
  }

  lemma MergedAlive(alive: seq<bool>, a: nat, b: nat)
    requires a < |alive| && b < |alive|
    ensures var l := AliveMerged(alive, a, b);
            && |l| == |alive| + 1 && l[|alive|] && !l[a] && !l[b]
            && forall x :: 0 <= x < |alive| && x != a && x != b ==> l[x] == alive[x]
  {}

  lemma Shorter(u: nat, v: nat, p: nat, q: nat, sum: nat, less: nat)
    requires 1 <= q <= p && sum == u + v && less == q - 1
    ensures Times(sum, less) + u + v <= Times(u, p) + Times(v, q)
  {
    assert (u + v) * (q - 1) + u + v == u * q + v * q;
    assert u * q <= u * p;
  }

  /** Any code for the live nodes yields one for the nodes after the merge that is cheaper by the weight merged. */
  lemma Reduce(alive: seq<bool>, wt: seq<nat>, c: seq<nat>, m: nat, a: nat, b: nat) returns (e: seq<nat>)
    requires Coded(alive, c, m) && Lightest(alive, wt, a, b) && |c| == |wt|
    ensures |e| == |c| + 1 && Coded(AliveMerged(alive, a, b), e, m)
    ensures Total(Costs(AliveMerged(alive, a, b), wt + [wt[a] + wt[b]], e)) + wt[a]
            + wt[b] <= Total(Costs(alive, wt, c))
  {
    hide Terms, Costs, Total, Coded, AliveMerged;
    var d := Sink(alive, wt, c, m, a, b);
    Join(alive, d, m, a, b);
    e := d + [d[b] - 1];
    MergedAlive(alive, a, b);
    JoinCost(alive, wt, d, AliveMerged(alive, a, b), wt + [wt[a] + wt[b]], e, a, b);
  }

  // ---------- all merges ----------

  /** The code space that lengths take, in units of 2^-m. */
  function Space(lens: seq<nat>, m: nat): nat
    requires forall i :: 0 <= i < |lens| ==> lens[i] <= m
  {
    if lens == [] then 0 else Space(lens[..|lens| - 1], m) + Share(lens[|lens| - 1], m)
  }

  /** Lengths, all at most m, that some prefix code has: the Kraft inequality holds. */
  ghost predicate IsCode(lens: seq<nat>, m: nat) {
    (forall i :: 0 <= i < |lens| ==> lens[i] <= m) && Space(lens, m) <= Pow2(m)
  }

  /** Some code for the live nodes costs no more than is left of a given cost. */
  ghost predicate Leaves(alive: seq<bool>, wt: seq<nat>, m: nat, spent: nat, cost: nat)
    requires |alive| == |wt|
  {
    exists c: seq<nat> :: |c| == |wt| && Coded(alive, c, m) && Total(Costs(alive, wt, c)) + spent <= cost
  }

  /**
   However the leaves are coded, what has been spent on their depths so far, and a code for the live nodes, costs no
   more.
  */
  ghost predicate Cheapest(alive: seq<bool>, wt: seq<nat>, w: seq<nat>, dep: seq<nat>)
    requires |alive| == |wt| && |w| == |dep|
  {
    forall lens: seq<nat>, m: nat :: |lens| == |w| && IsCode(lens, m) ==>
             Leaves(alive, wt, m, Cost(w, dep), Cost(w, lens))
  }

  /** Every code for the leaves costs at least as much. */
  ghost predicate Optimal(w: seq<nat>, dep: seq<nat>)
    requires |w| == |dep|
  {
    forall lens: seq<nat>, m: nat :: |lens| == |w| && IsCode(lens, m) ==> Cost(w, dep) <= Cost(w, lens)
  }

  lemma CheapestIsOptimal(alive: seq<bool>, wt: seq<nat>, w: seq<nat>, dep: seq<nat>)
    requires |alive| == |wt| && |w| == |dep| && Cheapest(alive, wt, w, dep)
    ensures Optimal(w, dep)
  {
    forall lens: seq<nat>, m: nat | |lens| == |w| && IsCode(lens, m)
      ensures Cost(w, dep) <= Cost(w, lens)
    {
      assert Leaves(alive, wt, m, Cost(w, dep), Cost(w, lens));
    }
  }

  /** Merging the two lightest keeps it so: their weight is spent. */
  lemma CheapestMerged(alive: seq<bool>, wt: seq<nat>, w: seq<nat>, dep: seq<nat>, dep': seq<nat>, a: nat, b: nat)
    requires Lightest(alive, wt, a, b) && |w| == |dep| == |dep'| && Cheapest(alive, wt, w, dep)
    requires Cost(w, dep') == Cost(w, dep) + wt[a] + wt[b]
    ensures Cheapest(AliveMerged(alive, a, b), wt + [wt[a] + wt[b]], w, dep')
  {
    hide Cost, Coded, Costs, Total, IsCode, AliveMerged;
    forall lens: seq<nat>, m: nat | |lens| == |w| && IsCode(lens, m)
      ensures Leaves(AliveMerged(alive, a, b), wt + [wt[a] + wt[b]], m, Cost(w, dep'), Cost(w, lens))
    {
      assert Leaves(alive, wt, m, Cost(w, dep), Cost(w, lens));
      var c: seq<nat> :| |c| == |wt| && Coded(alive, c, m)
      && Total(Costs(alive, wt, c)) + Cost(w, dep) <= Cost(w, lens);
      var e := Reduce(alive, wt, c, m, a, b);
    }
  }

  /** Node 0 is the sentinel; the others are leaves, with the values t. */
  ghost predicate AtLeaves(alive: seq<bool>, s: seq<nat>, t: seq<nat>) {
    |alive| == |s| == |t| + 1 && !alive[0] && forall x :: 1 <= x < |s| ==> alive[x] && s[x] == t[x - 1]
  }

  lemma LeavesWithin(alive: seq<bool>, c: seq<nat>, lens: seq<nat>, m: nat)
    requires AtLeaves(alive, c, lens) && forall i :: 0 <= i < |lens| ==> lens[i] <= m
    ensures forall x :: 0 <= x < |c| && alive[x] ==> c[x] <= m
  {}

  lemma TermsSnoc(alive: seq<bool>, c: seq<nat>, m: nat, k: nat)
    requires |alive| == |c| == k + 1 && forall x :: 0 <= x < |c| && alive[x] ==> c[x] <= m
    ensures Total(Terms(alive, c, m)) == Total(Terms(alive[..k], c[..k], m)) + if alive[k] then Share(c[k], m) else 0
  {
    var v := if alive[k] then Share(c[k], m) else 0;
    hide Share, Total;
    TotalSnoc(Terms(alive[..k], c[..k], m), v);
  }

  lemma AtLeavesFront(alive: seq<bool>, s: seq<nat>, t: seq<nat>, k: nat)
    requires AtLeaves(alive, s, t) && k == |t| > 0
    ensures alive[k] && s[k] == t[k - 1] && AtLeaves(alive[..k], s[..k], t[..k - 1])
  {}

  lemma NoTerms(alive: seq<bool>, c: seq<nat>, m: nat)
    requires |alive| == |c| == 1 && !alive[0]
    ensures Total(Terms(alive, c, m)) == 0
  {
    TermsSnoc(alive, c, m, 0);
    assert Terms(alive[..0], c[..0], m) == [];
  }

  lemma SpaceSnoc(lens: seq<nat>, m: nat, k: nat)
    requires k + 1 == |lens| && forall i :: 0 <= i < |lens| ==> lens[i] <= m
    ensures Space(lens, m) == Space(lens[..k], m) + Share(lens[k], m)
  {
    hide Share;
  }

  lemma {:induction false} LeafTerms(alive: seq<bool>, c: seq<nat>, lens: seq<nat>, m: nat)
    requires AtLeaves(alive, c, lens) && (forall i :: 0 <= i < |lens| ==> lens[i] <= m)
    requires forall x :: 0 <= x < |c| && alive[x] ==> c[x] <= m
    ensures Total(Terms(alive, c, m)) == Space(lens, m)
    decreases |lens|
  {
    if lens == [] {
      NoTerms(alive, c, m);
    } else {
      hide Terms, Share, Total, Space;
      var k := |lens|;
      AtLeavesFront(alive, c, lens, k);
      TermsSnoc(alive, c, m, k);
      SpaceSnoc(lens, m, k - 1);
      LeafTerms(alive[..k], c[..k], lens[..k - 1], m);
    }
  }

  lemma {:induction false} LeafCosts(alive: seq<bool>, wt: seq<nat>, c: seq<nat>, w: seq<nat>, lens: seq<nat>)
    requires AtLeaves(alive, c, lens) && AtLeaves(alive, wt, w)
    ensures Total(Costs(alive, wt, c)) == Cost(w, lens)
    decreases |lens|
  {
    hide Times;
    var k := |lens|;
    var t, t0 := Costs(alive, wt, c), Costs(alive[..k], wt[..k], c[..k]);
    CostAt(alive, wt, c, k);
    assert t == t0 + [t[k]];
    TotalSnoc(t0, t[k]);
    if lens == [] {
      assert t0 == [];
    } else {
      LeafCosts(alive[..k], wt[..k], c[..k], w[..k - 1], lens[..k - 1]);
    }
  }

  lemma {:induction false} NoDepthNoCost(w: seq<nat>, dep: seq<nat>)
    requires |w| == |dep| && forall i :: 0 <= i < |dep| ==> dep[i] == 0
    ensures Cost(w, dep) == 0
  {
    if w != [] { NoDepthNoCost(w[..|w| - 1], dep[..|w| - 1]); }
  }

  /** Before the first merge nothing has been spent. */
  lemma CheapestLeaves(alive: seq<bool>, wt: seq<nat>, w: seq<nat>, dep: seq<nat>)
    requires AtLeaves(alive, wt, w) && |dep| == |w| && forall i :: 0 <= i < |w| ==> dep[i] == 0
    ensures Cheapest(alive, wt, w, dep)
  {
    hide Cost, Costs, Terms, Total, Space;
    NoDepthNoCost(w, dep);
    forall lens: seq<nat>, m: nat | |lens| == |w| && IsCode(lens, m)
      ensures Leaves(alive, wt, m, Cost(w, dep), Cost(w, lens))
    {
      var c: seq<nat> := [0] + lens;
      LeavesWithin(alive, c, lens, m);
      LeafTerms(alive, c, lens, m);
      LeafCosts(alive, wt, c, w, lens);
      assert Coded(alive, c, m);
    }
  }

  /** A merge costs the weight of the trees merged. */
  lemma {:induction false} MergeCost(own: seq<nat>, dep: seq<nat>, own': seq<nat>, dep': seq<nat>, w: seq<nat>, a: nat,
                                     b: nat, n: nat)
    requires MergeOf(own, dep, own', dep', a, b, n) && |w| == |own|
    ensures Cost(w, dep') == Cost(w, dep) + WeightOf(own, w, a) + WeightOf(own, w, b)
    decreases |own|
  {
    if own != [] {
      var k := |own| - 1;
      MergeOfFront(own, dep, own', dep', a, b, n);
      MergeCost(own[..k], dep[..k], own'[..k], dep'[..k], w[..k], a, b, n);
      OneDeeper(w[k], dep[k]);
      hide Times;
    }
  }

  lemma OneDeeper(u: nat, d: nat)
    ensures Times(u, d + 1) == Times(u, d) + u
  {}
}
