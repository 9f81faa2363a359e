/** BZ2_hbMakeCodeLengths: length-limited Huffman code lengths by repeated merging and rescaling. */
module CodeLengths {
  import opened Bits
  import opened Huffman
  import opened CodeLengthHeap
  import opened CodeForest
  import opened CodeCost

  /** Code space is counted in units of 2^-K while lengths may still exceed the limit. */
  const K := 40
  /** Total weight below which neither the weight nor the depth field of a node overflows. */
  const MAX_TOTAL := 0x80_0000

  /** WEIGHTOF and DEPTHOF: a node's weight sits above an 8-bit depth. */
  function W(key: nat): nat { key / 256 }
  function H(key: nat): nat { key % 256 }

  function Max(a: nat, b: nat): nat { if a > b then a else b }

  /** ADDWEIGHTS. */
  function AddWeights(a: nat, b: nat): nat {
    Or(256 * W(a) + 256 * W(b), 1 + Max(H(a), H(b)))
  }

  /** A weight and a depth put into one word come out again. */
  lemma Fields(x: nat, y: nat)
    requires y < 256
    ensures W(Or(256 * x, y)) == x && H(Or(256 * x, y)) == y
  {
    hide Or;
    DivModUnique(256 * x, 256, x, 0);
    DivModUnique(256 * x + y, 256, x, y);
    assert Pow2(8) == 256 by { Pow2Values(); }
    hide Pow2;
    OrDisjoint(256 * x, y, 8);
  }

  lemma AddWeightsFields(a: nat, b: nat)
    requires H(a) < 255 && H(b) < 255
    ensures W(AddWeights(a, b)) == W(a) + W(b) && H(AddWeights(a, b)) == 1 + Max(H(a), H(b))
  {
    hide Or, W, H;
    Fields(W(a) + W(b), 1 + Max(H(a), H(b)));
    assert 256 * W(a) + 256 * W(b) == 256 * (W(a) + W(b));
  }

  /**
   The invariant of the merging loop, over the roots: weights and code space add up, depths are covered, and light
   trees are low.
  */
  ghost predicate Forest(par: seq<int>, key: seq<nat>, w: seq<nat>, own: seq<nat>, dep: seq<nat>) {
    && Links(par) && |par| <= |key| && |own| == |dep| == |w| < |par|
    && (forall i :: 0 <= i < |w| ==> IsRoot(par, own[i]) && dep[i] <= H(key[own[i]]) && dep[i] < K)
    && (forall r: nat :: IsRoot(par, r) ==> RootOk(key[r], own, dep, w, r))
    && (forall r: nat, u: nat :: IsRoot(par, r) && IsRoot(par, u) && r != u ==> Shadow(key[r]) <= W(key[u]))
  }

  ghost predicate RootOk(key: nat, own: seq<nat>, dep: seq<nat>, w: seq<nat>, r: nat)
    requires |own| == |dep| == |w| && forall i :: 0 <= i < |dep| ==> dep[i] < K
  {
    && W(key) == WeightOf(own, w, r) && ShareOf(own, dep, r, K) == Pow2(K)
    && H(key) <= 32 && Fib(H(key)) <= W(key)
  }

  /** What every other tree must weigh beside a tree with this key. */
  function Shadow(key: nat): nat {
    if H(key) == 0 then 0 else Fib(H(key) - 1)
  }

  /** A tree cannot be higher than its weight allows. */
  lemma HeightBound(h: nat, weight: nat)
    requires Fib(h) <= weight < MAX_TOTAL && h <= 33
    ensures h <= 32
  {
    hide Fib;
    FibValues();
  }

  lemma FibStep(h: nat)
    ensures Fib(1 + h) == Fib(h) + if h == 0 then 1 else Fib(h - 1)
  {}

  /** Two trees that shadow each other weigh enough for one a level higher. */
  lemma FibSum(ha: nat, hb: nat, wa: nat, wb: nat)
    requires Fib(ha) <= wa && Fib(hb) <= wb && (ha == 0 || Fib(ha - 1) <= wb)
    ensures ha >= hb ==> Fib(1 + ha) <= wa + wb && Fib(ha) <= Max(wa, wb)
  {
    assert Fib(0) == 1;
    hide Fib;
    FibStep(ha);
  }

  lemma LeafKey(x: nat)
    ensures W(256 * x) == x && H(256 * x) == 0
  {}

  /** The two lightest trees, put under one new root. */
  lemma MergedKey(ka: nat, kb: nat)
    requires H(ka) <= 32 && H(kb) <= 32 && Fib(H(ka)) <= W(ka) && Fib(H(kb)) <= W(kb)
    requires Shadow(ka) <= W(kb) && Shadow(kb) <= W(ka) && W(ka) + W(kb) < MAX_TOTAL
    ensures var k := AddWeights(ka, kb);
            W(k) == W(ka) + W(kb) && H(k) == 1 + Max(H(ka), H(kb)) <= 32 && Fib(H(k)) <= W(k)
    ensures Shadow(AddWeights(ka, kb)) <= Max(W(ka), W(kb))
  {
    hide AddWeights, Fib, W, H;
    AddWeightsFields(ka, kb);
    FibSum(H(ka), H(kb), W(ka), W(kb));
    FibSum(H(kb), H(ka), W(kb), W(ka));
    HeightBound(1 + Max(H(ka), H(kb)), W(ka) + W(kb));
  }

  lemma OwnersMerge(par: seq<int>, a: nat, b: nat, k: nat)
    requires Links(par) && IsRoot(par, a) && IsRoot(par, b) && a != b && k < |par|
    ensures Links(Merged(par, a, b))
    ensures MergeOf(Owners(par, k), Depths(par, k), Owners(Merged(par, a, b), k), Depths(Merged(par, a, b), k), a, b,
                    |par|)
  {
    MergedLinks(par, a, b);
    var m := Merged(par, a, b);
    forall i | 0 <= i < k
      ensures var o := Owners(par, k)[i];
              o != |par| && IsRoot(par, o)
              && Owners(m, k)[i] == (if o == a || o == b then |par| else o)
              && Depths(m, k)[i] == (if o == a || o == b then Depths(par, k)[i] + 1 else Depths(par, k)[i])
    {
      OwnersAt(par, k, i);
      OwnersAt(m, k, i);
      MergedAt(par, a, b, i + 1);
      RootIsRoot(par, i + 1);
    }
  }

  lemma RootMerged(par: seq<int>, a: nat, b: nat, x: nat)
    requires Links(par) && IsRoot(par, a) && IsRoot(par, b) && a != b
    ensures IsRoot(Merged(par, a, b), x) <==> x == |par| || (IsRoot(par, x) && x != a && x != b)
  {}

  lemma MergeStep(par: seq<int>, key: seq<nat>, key': seq<nat>, w: seq<nat>, a: nat, b: nat)
    requires Links(par) && |w| < |par| < |key| == |key'|
    requires Forest(par, key, w, Owners(par, |w|), Depths(par, |w|)) && Total(w) < MAX_TOTAL
    requires IsRoot(par, a) && IsRoot(par, b) && a != b
    requires forall u: nat :: IsRoot(par, u) ==> key[a] <= key[u]
    requires forall u: nat :: IsRoot(par, u) && u != a ==> key[b] <= key[u]
    requires key' == key[|par| := AddWeights(key[a], key[b])]
    ensures Links(Merged(par, a, b))
    ensures Forest(Merged(par, a, b), key', w, Owners(Merged(par, a, b), |w|), Depths(Merged(par, a, b), |w|))
  {
    OwnersMerge(par, a, b, |w|);
    MergeForest(par, key, key', w, a, b, Owners(par, |w|), Depths(par, |w|),
                Owners(Merged(par, a, b), |w|), Depths(Merged(par, a, b), |w|));
  }

  lemma MergeForest(par: seq<int>, key: seq<nat>, key': seq<nat>, w: seq<nat>, a: nat, b: nat,
                    own: seq<nat>, dep: seq<nat>, own': seq<nat>, dep': seq<nat>)
    requires |par| < |key| == |key'| && Forest(par, key, w, own, dep) && Total(w) < MAX_TOTAL
    requires IsRoot(par, a) && IsRoot(par, b) && a != b
    requires forall u: nat :: IsRoot(par, u) ==> key[a] <= key[u]
    requires forall u: nat :: IsRoot(par, u) && u != a ==> key[b] <= key[u]
    requires key' == key[|par| := AddWeights(key[a], key[b])]
    requires Links(Merged(par, a, b)) && MergeOf(own, dep, own', dep', a, b, |par|)
    ensures Forest(Merged(par, a, b), key', w, own', dep')
  {
    hide WeightOf, ShareOf, Fib, AddWeights, Merged, Links, H, Total, Pow2;
    var m, n := Merged(par, a, b), |par|;
    assert |m| == n + 1 by { MergedSize(par, a, b); }
    assert W(key[a]) + W(key[b]) < MAX_TOTAL by {
      MergeWeight(own, dep, own', dep', w, a, b, n, n);
      WeightAtMost(own', w, n);
    }
    MergedKey(key[a], key[b]);
    forall x: nat | true
      ensures IsRoot(m, x) <==> x == n || (IsRoot(par, x) && x != a && x != b)
    {
      RootMerged(par, a, b, x);
    }
    forall r: nat | IsRoot(m, r)
      ensures RootOk(key'[r], own', dep', w, r)
    {
      MergeWeight(own, dep, own', dep', w, a, b, n, r);
      MergeShare(own, dep, own', dep', a, b, n, r, K);
    }
  }

  lemma MergedSize(par: seq<int>, a: nat, b: nat)
    requires a < |par| && b < |par|
    ensures |Merged(par, a, b)| == |par| + 1
  {}

  // ---------- one tree, from its leaves ----------

  /** The invariant of the merging loop, with the leaves read off the links. */
  ghost predicate Grown(par: seq<int>, key: seq<nat>, w: seq<nat>) {
    && Links(par) && |w| < |par| && Forest(par, key, w, Owners(par, |w|), Depths(par, |w|))
    && Cheapest(Alive(par), Heavy(key, |par|), w, Depths(par, |w|))
  }

  /** Which nodes are roots. */
  function Alive(par: seq<int>): (l: seq<bool>)
    ensures |l| == |par| && forall x :: 0 <= x < |par| ==> (l[x] <==> 1 <= x && par[x] == -1)
  {
    if par == [] then [] else Alive(par[..|par| - 1]) + [|par| > 1 && par[|par| - 1] == -1]
  }

  /** The weights of the first n nodes. */
  function Heavy(key: seq<nat>, n: nat): (wt: seq<nat>)
    requires n <= |key|
    ensures |wt| == n && forall x :: 0 <= x < n ==> wt[x] == W(key[x])
  {
    if n == 0 then [] else Heavy(key, n - 1) + [W(key[n - 1])]
  }

  /** The nodes in the heap are the roots. */
  ghost predicate Roots(par: seq<int>, live: multiset<nat>) {
    forall x: nat :: live[x] == if IsRoot(par, x) then 1 else 0
  }

  ghost predicate OnlyRoot(par: seq<int>, n: nat) {
    IsRoot(par, n) && forall x: nat :: IsRoot(par, x) ==> x == n
  }

  lemma {:induction false} Singles(own: seq<nat>, dep: seq<nat>, w: seq<nat>, r: nat)
    requires |own| == |dep| == |w| && forall i :: 0 <= i < |own| ==> own[i] == i + 1 && dep[i] == 0
    ensures WeightOf(own, w, r) == if 1 <= r <= |own| then w[r - 1] else 0
    ensures ShareOf(own, dep, r, K) == if 1 <= r <= |own| then Pow2(K) else 0
    decreases |own|
  {
    if own != [] {
      var k := |own| - 1;
      Singles(own[..k], dep[..k], w[..k], r);
    }
  }

  lemma LeavesCheapest(par: seq<int>, key: seq<nat>, w: seq<nat>, dep: seq<nat>)
    requires |par| == |w| + 1 <= |key| && |dep| == |w| && forall x :: 1 <= x < |par| ==> par[x] == -1
    requires forall i :: 0 <= i < |w| ==> key[i + 1] == 256 * w[i] && dep[i] == 0
    ensures Cheapest(Alive(par), Heavy(key, |par|), w, dep)
  {
    hide Alive, Heavy, Cheapest, W;
    var alive, wt := Alive(par), Heavy(key, |par|);
    forall x | 1 <= x < |par|
      ensures alive[x] && wt[x] == w[x - 1]
    {
      assert key[(x - 1) + 1] == 256 * w[x - 1];
      LeafKey(w[x - 1]);
    }
    CheapestLeaves(alive, wt, w, dep);
  }

  /** Single leaves, all roots. */
  lemma LeavesGrown(par: seq<int>, key: seq<nat>, w: seq<nat>)
    requires |par| == |w| + 1 <= |key| && forall x :: 1 <= x < |par| ==> par[x] == -1
    requires forall i :: 0 <= i < |w| ==> key[i + 1] == 256 * w[i] && w[i] >= 1
    ensures Grown(par, key, w)
  {
    hide WeightOf, ShareOf, Owners, Depths, Cheapest;
    var own, dep := Owners(par, |w|), Depths(par, |w|);
    forall i | 0 <= i < |w|
      ensures own[i] == i + 1 && dep[i] == 0
    {
      OwnersAt(par, |w|, i);
    }
    LeavesCheapest(par, key, w, dep);
    hide W, H;
    assert Fib(0) == 1;
    forall r: nat | IsRoot(par, r)
      ensures RootOk(key[r], own, dep, w, r) && Shadow(key[r]) == 0
    {
      Singles(own, dep, w, r);
      assert key[(r - 1) + 1] == 256 * w[r - 1];
      LeafKey(w[r - 1]);
    }
    assert forall i :: 0 <= i < |w| ==> IsRoot(par, own[i]);
  }

  lemma Push(h: seq<nat>, h': seq<nat>, w: seq<nat>, w': seq<nat>, n: nat, x: nat)
    requires n + 1 < |h| && Entries(h, w, n) && Ordered(h, w, n) && h' == h[n + 1 := x]
    requires x < |w| == |w'| && forall k :: 0 <= k <= n ==> w'[h[k]] == w[h[k]]
    ensures Entries(h', w', n + 1) && OrderedBut(h', w', n + 1, n + 1)
    ensures Live(h', n + 1) == Live(h, n) + multiset{x}
  {
    assert h'[1..n + 2] == h[1..n + 1] + [x];
    forall i, j | 1 <= i && Child(i, j) && j <= n + 1 && j != n + 1
      ensures w'[h'[i]] <= w'[h'[j]]
    {
      assert w[h[i]] <= w[h[j]];
    }
  }

  /** Adds the leaves 1..alphaSize to the empty heap. */
  method PlantLeaves(heap: array<nat>, weight: array<nat>, parent: array<int>, alphaSize: nat, ghost w: seq<nat>)
    requires heap != weight && alphaSize == |w| && 2 <= alphaSize <= MAX_ALPHA_SIZE
    requires heap.Length == MAX_ALPHA_SIZE + 2 && weight.Length == parent.Length == 2 * MAX_ALPHA_SIZE
    requires forall i :: 0 <= i < alphaSize ==> weight[i + 1] == 256 * w[i] && w[i] >= 1
    modifies heap, weight, parent
    ensures heap[0] == 0 && weight[..] == old(weight[..])[0 := 0]
    ensures Entries(heap[..], weight[..], alphaSize) && Ordered(heap[..], weight[..], alphaSize)
    ensures Roots(parent[..alphaSize + 1], Live(heap[..], alphaSize))
    ensures Grown(parent[..alphaSize + 1], weight[..], w) && parent[alphaSize] == -1
  {
    hide Ordered, OrderedBut, Live, Grown, Roots;
    heap[0], weight[0], parent[0] := 0, 0, -2;
    ghost var key := weight[..];
    assert Roots(parent[..1], Live(heap[..], 0))
           && Ordered(heap[..], key, 0) by { EmptyHeap(heap[..], key, parent[..1]); }
    for i: nat := 1 to alphaSize + 1
      invariant heap[0] == 0 && weight[..] == key
      invariant forall x :: 1 <= x < i ==> parent[x] == -1
      invariant Entries(heap[..], key, i - 1) && Ordered(heap[..], key, i - 1)
      invariant Roots(parent[..i], Live(heap[..], i - 1))
    {
      ghost var h, par := heap[..], parent[..i];
      parent[i] := -1;
      heap[i] := i;
      assert heap[..] == h[i := i];
      Push(h, heap[..], key, key, i - 1, i);
      RootAdded(par, Live(h, i - 1));
      assert parent[..i + 1] == par + [-1];
      UpHeap(heap, weight, i);
    }
    LeavesGrown(parent[..alphaSize + 1], key, w);
  }

  lemma EmptyHeap(h: seq<nat>, key: seq<nat>, par: seq<int>)
    requires 1 <= |h| && 1 <= |key| && |par| == 1 && h[0] == 0
    ensures Roots(par, Live(h, 0)) && Entries(h, key, 0) && Ordered(h, key, 0)
  {
    assert h[1..1] == [];
  }

  lemma RootAdded(par: seq<int>, live: multiset<nat>)
    requires 1 <= |par| && Roots(par, live)
    ensures Roots(par + [-1], live + multiset{|par| as nat})
  {
    forall x: nat | true
      ensures (live + multiset{|par| as nat})[x] == if IsRoot(par + [-1], x) then 1 else 0
    {
      assert IsRoot(par, x) <==> (IsRoot(par + [-1], x) && x != |par|);
    }
  }

  /** One round of the merging loop, on values. */
  lemma JoinStep(par: seq<int>, key: seq<nat>, h: seq<nat>, n: nat, live: multiset<nat>, w: seq<nat>, a: nat, b: nat)
    requires Grown(par, key, w) && Roots(par, live) && Total(w) < MAX_TOTAL && n + 1 < |h| && |par| < |key| && h[0] == 0
    requires a < |key| && b < |key| && Entries(h, key, n) && Ordered(h, key, n)
    requires live == Live(h, n) + multiset{b} + multiset{a}
    requires forall x :: x in live ==> x < |key| && key[a] <= key[x]
    requires forall x :: x in Live(h, n) + multiset{b} ==> x < |key| && key[b] <= key[x]
    ensures Joins(par, key, h, n, w, a, b)
  {
    hide Ordered, OrderedBut, Live, Grown, AddWeights, Merged;
    TwoLeast(par, key, live, a, b);
    assert forall k :: 0 <= k <= n ==> h[k] != |par| by { NotInHeap(h, n, par, live); }
    MergedIs(par, a, b);
    var key' := key[|par| := AddWeights(key[a], key[b])];
    Push(h, h[n + 1 := |par|], key, key', n, |par|);
    MergeGrown(par, key, key', w, a, b);
    RootsMerged(par, live, Live(h, n), a, b);
  }

  /** What putting a and b under a new node |par|, pushed as entry n + 1, gives. */
  ghost predicate Joins(par: seq<int>, key: seq<nat>, h: seq<nat>, n: nat, w: seq<nat>, a: nat, b: nat) {
    && n + 1 < |h| && |par| < |key| && a < |par| && b < |par| && a != b && a > 0 && b > 0
    && var (m, k, g) := (par[a := |par|][b := |par|] + [-1], key[|par| := AddWeights(key[a], key[b])],
                         h[n + 1 := |par|]);
       Grown(m, k, w) && Roots(m, Live(g, n + 1)) && Entries(g, k, n + 1) && OrderedBut(g, k, n + 1, n + 1)
  }

  lemma MergedIs(par: seq<int>, a: nat, b: nat)
    requires a < |par| && b < |par|
    ensures Merged(par, a, b) == par[a := |par|][b := |par|] + [-1]
  {}

  lemma TwoLeast(par: seq<int>, key: seq<nat>, live: multiset<nat>, a: nat, b: nat)
    requires Roots(par, live) && |par| <= |key| && a in live && b in live - multiset{a}
    requires forall x :: x in live ==> x < |key| && key[a] <= key[x]
    requires forall x :: x in live - multiset{a} ==> x < |key| && key[b] <= key[x]
    ensures IsRoot(par, a) && IsRoot(par, b) && a != b
    ensures forall u: nat :: IsRoot(par, u) ==> key[a] <= key[u]
    ensures forall u: nat :: IsRoot(par, u) && u != a ==> key[b] <= key[u]
  {
    forall u: nat | IsRoot(par, u) && u != a
      ensures key[b] <= key[u]
    {
      assert u in live - multiset{a};
    }
    assert (live - multiset{a})[a] == 0;
  }

  /** Takes the two lightest trees out of the heap. */
  method TakeTwo(heap: array<nat>, weight: array<nat>, n: nat, ghost par: seq<int>, ghost w: seq<nat>)
    returns (n1: nat, n2: nat)
    requires heap != weight && 2 <= n && Total(w) < MAX_TOTAL && |par| < weight.Length
    requires heap.Length > 0 && heap[0] == 0 && Entries(heap[..], weight[..], n) && Ordered(heap[..], weight[..], n)
    requires Roots(par, Live(heap[..], n)) && Grown(par, weight[..], w)
    modifies heap
    ensures heap[0] == 0 && n1 < |par| && n2 < |par| && Joins(par, weight[..], heap[..], n - 2, w, n1, n2)
  {
    hide *;
    InHeap(heap[..], weight[..], n, par);
    ghost var live := Live(heap[..], n);
    n1 := TakeLeast(heap, weight, n);
    n2 := TakeLeast(heap, weight, n - 1);
    JoinStep(par, weight[..], heap[..], n - 2, live, w, n1, n2);
    JoinsBounds(par, weight[..], heap[..], n - 2, w, n1, n2);
  }

  lemma InHeap(h: seq<nat>, key: seq<nat>, n: nat, par: seq<int>)
    requires Entries(h, key, n)
    ensures n < |h|
  {}

  lemma JoinsBounds(par: seq<int>, key: seq<nat>, h: seq<nat>, n: nat, w: seq<nat>, a: nat, b: nat)
    requires Joins(par, key, h, n, w, a, b)
    ensures n + 1 < |h| && |par| < |key| && 0 < a < |par| && 0 < b < |par| && a != b
    ensures var (m, k, g) := (par[a := |par|][b := |par|] + [-1], key[|par| := AddWeights(key[a], key[b])],
                              h[n + 1 := |par|]);
            Grown(m, k, w) && Roots(m, Live(g, n + 1)) && Entries(g, k, n + 1) && OrderedBut(g, k, n + 1, n + 1)
  {}

  lemma MergeGrown(par: seq<int>, key: seq<nat>, key': seq<nat>, w: seq<nat>, a: nat, b: nat)
    requires |par| < |key| == |key'| && Grown(par, key, w) && Total(w) < MAX_TOTAL
    requires IsRoot(par, a) && IsRoot(par, b) && a != b
    requires forall u: nat :: IsRoot(par, u) ==> key[a] <= key[u]
    requires forall u: nat :: IsRoot(par, u) && u != a ==> key[b] <= key[u]
    requires key' == key[|par| := AddWeights(key[a], key[b])]
    ensures Grown(Merged(par, a, b), key', w) && Links(par)
  {
    hide AddWeights, Forest, Owners, Depths, Alive, Heavy, Cheapest;
    MergeStep(par, key, key', w, a, b);
    MergedCheapest(par, key, key', w, a, b);
  }

  lemma LighterKey(a: nat, b: nat)
    requires a <= b
    ensures W(a) <= W(b)
  {}

  /** The roots with the least keys are the lightest. */
  lemma LeastIsLightest(par: seq<int>, key: seq<nat>, a: nat, b: nat)
    requires |par| <= |key| && IsRoot(par, a) && IsRoot(par, b) && a != b
    requires forall u: nat :: IsRoot(par, u) ==> key[a] <= key[u]
    requires forall u: nat :: IsRoot(par, u) && u != a ==> key[b] <= key[u]
    ensures Lightest(Alive(par), Heavy(key, |par|), a, b)
  {
    hide W, Alive, Heavy;
    var alive, wt := Alive(par), Heavy(key, |par|);
    forall u: nat | u < |par| && alive[u]
      ensures wt[a] <= wt[u] && (u != a ==> wt[b] <= wt[u])
    {
      assert IsRoot(par, u);
      LighterKey(key[a], key[u]);
      if u != a { LighterKey(key[b], key[u]); }
    }
  }

  lemma AliveHeavyMerged(par: seq<int>, key: seq<nat>, key': seq<nat>, a: nat, b: nat)
    requires |par| < |key| == |key'| && IsRoot(par, a) && IsRoot(par, b) && a != b
    requires key' == key[|par| := AddWeights(key[a], key[b])] && H(key[a]) < 255 && H(key[b]) < 255
    ensures Alive(Merged(par, a, b)) == AliveMerged(Alive(par), a, b)
    ensures Heavy(key', |par| + 1) == Heavy(key, |par|) + [Heavy(key, |par|)[a] + Heavy(key, |par|)[b]]
  {
    hide AddWeights, W, H, Alive, Heavy;
    AddWeightsFields(key[a], key[b]);
  }

  lemma GrownCheapest(par: seq<int>, key: seq<nat>, w: seq<nat>)
    requires Grown(par, key, w)
    ensures Links(par) && |w| < |par| <= |key| && Cheapest(Alive(par), Heavy(key, |par|), w, Depths(par, |w|))
  {
    hide Cheapest, Links, RootOk, Alive, Heavy, Depths, Owners;
  }

  lemma DepthsCost(par: seq<int>, w: seq<nat>, a: nat, b: nat)
    requires Links(par) && IsRoot(par, a) && IsRoot(par, b) && a != b && |w| < |par|
    ensures |Merged(par, a, b)| == |par| + 1 && Links(Merged(par, a, b))
    ensures var own := Owners(par, |w|);
            Cost(w, Depths(Merged(par, a, b), |w|))
            == Cost(w, Depths(par, |w|)) + WeightOf(own, w, a) + WeightOf(own, w, b)
  {
    hide Owners, Depths, WeightOf, Cost, MergeOf, Links, Merged;
    OwnersMerge(par, a, b, |w|);
    MergedSize(par, a, b);
    MergeCost(Owners(par, |w|), Depths(par, |w|), Owners(Merged(par, a, b), |w|), Depths(Merged(par, a, b), |w|), w, a,
              b, |par|);
  }

  lemma CheapestStep(alive: seq<bool>, wt: seq<nat>, alive': seq<bool>, wt': seq<nat>, w: seq<nat>, dep: seq<nat>,
                     dep': seq<nat>, a: nat, b: nat)
    requires Lightest(alive, wt, a, b) && alive' == AliveMerged(alive, a, b) && wt' == wt + [wt[a] + wt[b]]
    requires |w| == |dep| == |dep'| && Cheapest(alive, wt, w, dep) && Cost(w, dep') == Cost(w, dep) + wt[a] + wt[b]
    ensures |alive'| == |wt'| && Cheapest(alive', wt', w, dep')
  {
    hide Cheapest, Cost, AliveMerged;
    CheapestMerged(alive, wt, w, dep, dep', a, b);
  }

  /** The merge of the two lightest keeps the depths cheapest. */
  lemma MergedCheapest(par: seq<int>, key: seq<nat>, key': seq<nat>, w: seq<nat>, a: nat, b: nat)
    requires |par| < |key| == |key'| && Grown(par, key, w)
    requires IsRoot(par, a) && IsRoot(par, b) && a != b && Links(Merged(par, a, b))
    requires forall u: nat :: IsRoot(par, u) ==> key[a] <= key[u]
    requires forall u: nat :: IsRoot(par, u) && u != a ==> key[b] <= key[u]
    requires key' == key[|par| := AddWeights(key[a], key[b])]
    ensures |Merged(par, a, b)| == |par| + 1
    ensures Cheapest(Alive(Merged(par, a, b)), Heavy(key', |par| + 1), w, Depths(Merged(par, a, b), |w|))
  {
    hide *;
    GrownCheapest(par, key, w);
    var alive, wt, dep := Alive(par), Heavy(key, |par|), Depths(par, |w|);
    RootWeights(par, key, w, a);
    RootWeights(par, key, w, b);
    DepthsCost(par, w, a, b);
    LeastIsLightest(par, key, a, b);
    AliveHeavyMerged(par, key, key', a, b);
    CheapestStep(alive, wt, Alive(Merged(par, a, b)), Heavy(key', |par| + 1), w, dep, Depths(Merged(par, a, b), |w|), a,
                 b);
  }

  lemma RootWeights(par: seq<int>, key: seq<nat>, w: seq<nat>, r: nat)
    requires Grown(par, key, w) && IsRoot(par, r)
    ensures r < |par| <= |key| && Links(par) && |w| < |par|
            && W(key[r]) == WeightOf(Owners(par, |w|), w, r) == Heavy(key, |par|)[r] && H(key[r]) <= 32
  {
    hide WeightOf, ShareOf, Fib, W, H, Heavy, Cheapest, Owners, Depths;
  }

  lemma NotInHeap(h: seq<nat>, n: nat, par: seq<int>, live: multiset<nat>)
    requires n < |h| && Live(h, n) <= live && Roots(par, live) && h[0] == 0 && 0 < |par|
    ensures forall k :: 0 <= k <= n ==> h[k] != |par|
  {
    forall k | 1 <= k <= n
      ensures h[k] != |par|
    {
      assert h[1..n + 1][k - 1] == h[k];
      assert live[h[k]] > 0;
    }
  }

  lemma RootsMerged(par: seq<int>, live: multiset<nat>, rest: multiset<nat>, a: nat, b: nat)
    requires Links(par) && Roots(par, live) && IsRoot(par, a) && IsRoot(par, b) && a != b
    requires live == rest + multiset{b} + multiset{a}
    ensures Roots(Merged(par, a, b), rest + multiset{|par| as nat})
  {
    hide Merged;
    forall x: nat | true
      ensures (rest + multiset{|par| as nat})[x] == if IsRoot(Merged(par, a, b), x) then 1 else 0
    {
      RootMerged(par, a, b, x);
    }
  }

  /** The merging loop: the two lightest trees become one, until a single tree is left. */
  method MergeTrees(heap: array<nat>, weight: array<nat>, parent: array<int>, alphaSize: nat, ghost w: seq<nat>)
    returns (nNodes: nat)
    requires heap != weight && alphaSize == |w| && 2 <= alphaSize <= MAX_ALPHA_SIZE && Total(w) < MAX_TOTAL
    requires heap.Length == MAX_ALPHA_SIZE + 2 && weight.Length == parent.Length == 2 * MAX_ALPHA_SIZE
    requires heap[0] == 0 && weight[0] == 0
    requires Entries(heap[..], weight[..], alphaSize) && Ordered(heap[..], weight[..], alphaSize)
    requires Roots(parent[..alphaSize + 1], Live(heap[..], alphaSize)) && parent[alphaSize] == -1
    requires Grown(parent[..alphaSize + 1], weight[..], w)
    modifies heap, weight, parent
    ensures nNodes == 2 * alphaSize - 1 && weight[..alphaSize + 1] == old(weight[..alphaSize + 1])
    ensures Grown(parent[..nNodes + 1], weight[..], w)
    ensures OnlyRoot(parent[..nNodes + 1], nNodes)
  {
    hide *;
    nNodes := alphaSize;
    var nHeap := alphaSize;
    while nHeap > 1
      invariant 1 <= nHeap && nNodes == 2 * alphaSize - nHeap
      invariant heap[0] == 0 && weight[0] == 0 && weight[..alphaSize + 1] == old(weight[..alphaSize + 1])
      invariant Entries(heap[..], weight[..], nHeap) && Ordered(heap[..], weight[..], nHeap)
      invariant Roots(parent[..nNodes + 1], Live(heap[..], nHeap)) && parent[nNodes] == -1
      invariant Grown(parent[..nNodes + 1], weight[..], w)
    {
      ghost var key, par := weight[..], parent[..nNodes + 1];
      var n1, n2 := TakeTwo(heap, weight, nHeap, par, w);
      ghost var h := heap[..];
      JoinsBounds(par, key, h, nHeap - 2, w, n1, n2);
      nHeap := nHeap - 2;
      nNodes := nNodes + 1;
      parent[n1], parent[n2] := nNodes, nNodes;
      weight[nNodes] := AddWeights(weight[n1], weight[n2]);
      parent[nNodes] := -1;
      nHeap := nHeap + 1;
      heap[nHeap] := nNodes;
      assert parent[..nNodes + 1] == par[n1 := nNodes][n2 := nNodes] + [-1];
      assert weight[..] == key[nNodes := AddWeights(key[n1], key[n2])];
      assert heap[..] == h[nHeap := nNodes];
      UpHeap(heap, weight, nHeap);
    }
    OneRoot(heap[..], parent[..nNodes + 1], nNodes);
  }

  lemma OneRoot(h: seq<nat>, par: seq<int>, n: nat)
    requires 1 < |h| && Roots(par, Live(h, 1)) && IsRoot(par, n)
    ensures OnlyRoot(par, n)
  {
    assert h[1..2] == [h[1]];
    assert Live(h, 1) == multiset{h[1]};
    assert n in Live(h, 1);
  }

  // ---------- reading the lengths off the tree ----------

  ghost predicate TooLong(lens: seq<nat>, maxLen: nat) {
    exists i :: 0 <= i < |lens| && lens[i] > maxLen
  }

  /** Counts the links above each leaf. */
  method ReadLengths(len: array<nat>, parent: array<int>, alphaSize: nat, maxLen: nat, ghost par: seq<int>)
    returns (tooLong: bool)
    requires len.Length >= alphaSize && alphaSize < |par| <= parent.Length && parent[..|par|] == par && Links(par)
    modifies len
    ensures len[..alphaSize] == Depths(par, alphaSize)
    ensures tooLong <==> TooLong(Depths(par, alphaSize), maxLen)
  {
    tooLong := false;
    var i := 1;
    while i <= alphaSize
      invariant 1 <= i <= alphaSize + 1
      invariant len[..i - 1] == Depths(par, i - 1)
      invariant tooLong <==> TooLong(len[..i - 1], maxLen)
    {
      var j, k := 0, i;
      while parent[k] >= 0
        invariant 1 <= k < |par| && j + StepsUp(par, k) == StepsUp(par, i)
        decreases |par| - k
      {
        assert parent[k] == par[k];
        k := parent[k];
        j := j + 1;
      }
      assert parent[k] == par[k];
      ghost var was := len[..i - 1];
      len[i - 1] := j;
      assert len[..i] == was + [j];
      if j > maxLen { tooLong := true; }
      TooLongGrows(was, j, maxLen);
      i := i + 1;
    }
  }

  lemma TooLongGrows(lens: seq<nat>, x: nat, maxLen: nat)
    ensures TooLong(lens + [x], maxLen) <==> TooLong(lens, maxLen) || x > maxLen
  {
    if x > maxLen { assert (lens + [x])[|lens|] == x; }
    if TooLong(lens, maxLen) {
      var i :| 0 <= i < |lens| && lens[i] > maxLen;
      assert (lens + [x])[i] == lens[i];
    }
  }

  /** Every leaf lies under the one root, strictly. */
  lemma UnderOneRoot(par: seq<int>, key: seq<nat>, w: seq<nat>, n: nat)
    requires Grown(par, key, w) && OnlyRoot(par, n) && |w| < n
    ensures forall i :: 0 <= i < |w| ==> Owners(par, |w|)[i] == n && 1 <= Depths(par, |w|)[i] < K
    ensures n < |key| && Total(w) == W(key[n]) && ShareOf(Owners(par, |w|), Depths(par, |w|), n, K) == Pow2(K)
    ensures forall i :: 0 <= i < |w| ==> Depths(par, |w|)[i] <= H(key[n])
    ensures H(key[n]) <= 32 && Fib(H(key[n])) <= W(key[n])
  {
    hide WeightOf, ShareOf, Fib, W, H, Owners, Depths;
    var own, dep := Owners(par, |w|), Depths(par, |w|);
    forall i | 0 <= i < |w|
      ensures own[i] == n && 1 <= dep[i]
    {
      OwnersAt(par, |w|, i);
      RootIsRoot(par, i + 1);
    }
    assert RootOk(key[n], own, dep, w, n);
    WeightAll(own, w, n);
  }

  lemma {:induction false} PowSplit(k: nat)
    ensures Pow2(k + 20) == 1048576 * Pow2(k)
  {
    if k == 0 {
      assert Pow2(10) == 1024;
      assert Pow2(20) == 1048576;
    } else {
      PowSplit(k - 1);
      assert Pow2(k + 20) == 2 * Pow2(k - 1 + 20);
    }
  }

  /** Within the limit the code space is the Kraft sum. */
  lemma {:induction false} ShareIsKraft(own: seq<nat>, dep: seq<nat>, r: nat)
    requires |own| == |dep| && forall i :: 0 <= i < |own| ==> own[i] == r && dep[i] <= LONGEST
    ensures ShareOf(own, dep, r, K) == 1048576 * Kraft(dep, LONGEST)
    decreases |own|
  {
    if own != [] {
      var k := |own| - 1;
      var e := LONGEST - dep[k];
      ShareIsKraft(own[..k], dep[..k], r);
      PowSplit(e);
      assert K - dep[k] == e + 20;
    }
  }

  lemma AllWithin(lens: seq<nat>, maxLen: nat)
    ensures !TooLong(lens, maxLen) <==> forall i :: 0 <= i < |lens| ==> lens[i] <= maxLen
  {}

  lemma TreeIsComplete(par: seq<int>, key: seq<nat>, w: seq<nat>, n: nat, maxLen: nat)
    requires Grown(par, key, w) && OnlyRoot(par, n) && |w| < n
    requires maxLen <= LONGEST && !TooLong(Depths(par, |w|), maxLen)
    ensures LensIn(Depths(par, |w|), 1, maxLen) && Kraft(Depths(par, |w|), LONGEST) == Pow2(LONGEST)
  {
    hide Kraft, ShareOf, Owners, Depths, Grown, Forest, Pow2, TooLong;
    GrownLinks(par, key, w);
    AllWithin(Depths(par, |w|), maxLen);
    UnderOneRoot(par, key, w, n);
    ShareIsKraft(Owners(par, |w|), Depths(par, |w|), n);
    PowSplit(20);
  }

  // ---------- rescaling ----------

  /** The weights after halving. */
  function Halved(w: seq<nat>): (h: seq<nat>)
    ensures |h| == |w|
  {
    if w == [] then [] else Halved(w[..|w| - 1]) + [1 + w[|w| - 1] / 2]
  }

  lemma {:induction false} HalvedAt(w: seq<nat>, i: nat)
    requires i < |w|
    ensures Halved(w)[i] == 1 + w[i] / 2
  {
    if i < |w| - 1 { HalvedAt(w[..|w| - 1], i); }
  }

  /** Weights that sum to more than twice their number shrink. */
  lemma {:induction false} HalvedShrinks(w: seq<nat>)
    requires forall i :: 0 <= i < |w| ==> w[i] >= 1
    ensures Total(Halved(w)) <= Total(w)
    ensures Total(w) > 2 * |w| ==> Total(Halved(w)) < Total(w)
  {
    if w != [] {
      HalvedShrinks(w[..|w| - 1]);
    }
  }

  /** A tree that is too high is heavy, so halving its weights makes it lighter. */
  lemma TooLongShrinks(par: seq<int>, key: seq<nat>, w: seq<nat>, n: nat, maxLen: nat)
    requires Grown(par, key, w) && OnlyRoot(par, n) && |w| < n && |w| <= MAX_ALPHA_SIZE
    requires 17 <= maxLen && TooLong(Depths(par, |w|), maxLen) && forall i :: 0 <= i < |w| ==> w[i] >= 1
    ensures Total(Halved(w)) < Total(w)
  {
    hide Grown, Total, Halved, Depths, Owners, ShareOf, WeightOf, Fib;
    UnderOneRoot(par, key, w, n);
    FibGrows(18, H(key[n]));
    FibValues();
    HalvedShrinks(w);
  }

  method Rescale(weight: array<nat>, alphaSize: nat, ghost w: seq<nat>)
    requires alphaSize == |w| < weight.Length && forall i :: 0 <= i < |w| ==> weight[i + 1] == 256 * w[i]
    modifies weight
    ensures forall i :: 0 <= i < |w| ==> weight[i + 1] == 256 * Halved(w)[i] && Halved(w)[i] >= 1
  {
    hide *;
    for i := 1 to alphaSize + 1
      invariant forall k :: 0 <= k < i - 1 ==> weight[k + 1] == 256 * Halved(w)[k] && Halved(w)[k] >= 1
      invariant forall k :: i - 1 <= k < alphaSize ==> weight[k + 1] == 256 * w[k]
    {
      var j := weight[i] / 256;
      assert weight[i - 1 + 1] == 256 * w[i - 1];
      j := 1 + j / 2;
      HalvedAt(w, i - 1);
      weight[i] := j * 256;
    }
  }

  // ---------- the whole function ----------

  /** A frequency as a weight: unused symbols count once. */
  function Weights(freq: seq<nat>): (w: seq<nat>)
    ensures |w| == |freq|
  {
    if freq == [] then [] else Weights(freq[..|freq| - 1]) + [Max(freq[|freq| - 1], 1)]
  }

  lemma {:induction false} WeightsAt(freq: seq<nat>, i: nat)
    requires i < |freq|
    ensures Weights(freq)[i] == Max(freq[i], 1)
  {
    if i < |freq| - 1 { WeightsAt(freq[..|freq| - 1], i); }
  }

  /** The weights after so many rescalings. */
  function Rescaled(w: seq<nat>, rounds: nat): (r: seq<nat>)
    ensures |r| == |w|
  {
    if rounds == 0 then w else Halved(Rescaled(w, rounds - 1))
  }

  /** The final lengths are the depths of a tree that is as cheap as any code. */
  lemma GrownOptimal(par: seq<int>, key: seq<nat>, w: seq<nat>)
    requires Grown(par, key, w)
    ensures Links(par) && |w| < |par| && Optimal(w, Depths(par, |w|))
  {
    hide *;
    GrownCheapest(par, key, w);
    CheapestIsOptimal(Alive(par), Heavy(key, |par|), w, Depths(par, |w|));
  }

  /** Only a tree of great weight is too high. */
  lemma TooLongIsHeavy(par: seq<int>, key: seq<nat>, w: seq<nat>, n: nat, maxLen: nat)
    requires Grown(par, key, w) && OnlyRoot(par, n) && |w| < n && TooLong(Depths(par, |w|), maxLen)
    ensures Total(w) >= Fib(maxLen + 1)
  {
    hide Grown, Total, Depths, Owners, ShareOf, WeightOf, Fib;
    UnderOneRoot(par, key, w, n);
    FibGrows(maxLen + 1, H(key[n]));
  }

  /**
   Terminates for every table of frequencies, with code lengths in 1..maxLen that use up the code space exactly. No
   prefix code is cheaper for the weights as last rescaled; and there is no rescaling unless the weights are large.
  */
  method MakeCodeLengths(len: array<nat>, freq: array<nat>, alphaSize: nat, maxLen: nat)
    returns (ghost rounds: nat)
    requires 2 <= alphaSize <= MAX_ALPHA_SIZE && 17 <= maxLen <= LONGEST && len != freq
    requires alphaSize <= len.Length && alphaSize <= freq.Length && Total(Weights(freq[..alphaSize])) < MAX_TOTAL
    modifies len
    ensures LensIn(len[..alphaSize], 1, maxLen)
    ensures Kraft(len[..alphaSize], LONGEST) == Pow2(LONGEST)
    ensures Optimal(Rescaled(Weights(freq[..alphaSize]), rounds), len[..alphaSize])
    ensures Total(Weights(freq[..alphaSize])) < Fib(maxLen + 1) ==> rounds == 0
  {
    hide *;
    var heap := new nat[MAX_ALPHA_SIZE + 2];
    var weight := new nat[2 * MAX_ALPHA_SIZE];
    var parent := new int[2 * MAX_ALPHA_SIZE];
    ghost var w0 := Weights(freq[..alphaSize]);
    ghost var w := w0;
    rounds := 0;
    NotRescaled(w);
    for i := 0 to alphaSize
      invariant forall k :: 0 <= k < i ==> weight[k + 1] == 256 * w[k] && w[k] >= 1
    {
      weight[i + 1] := (if freq[i] == 0 then 1 else freq[i]) * 256;
      WeightsAt(freq[..alphaSize], i);
      AtLeastOne(freq[i]);
    }
    while true
      invariant |w| == alphaSize && Total(w) < MAX_TOTAL && w == Rescaled(w0, rounds)
      invariant rounds > 0 ==> Total(w0) >= Fib(maxLen + 1)
      invariant forall k :: 0 <= k < alphaSize ==> weight[k + 1] == 256 * w[k] && w[k] >= 1
      decreases Total(w)
    {
      PlantLeaves(heap, weight, parent, alphaSize, w);
      var nNodes := MergeTrees(heap, weight, parent, alphaSize, w);
      ghost var par, key := parent[..nNodes + 1], weight[..];
      GrownLinks(par, key, w);
      var tooLong := ReadLengths(len, parent, alphaSize, maxLen, par);
      if !tooLong {
        TreeIsComplete(par, key, w, nNodes, maxLen);
        GrownOptimal(par, key, w);
        break;
      }
      TooLongShrinks(par, key, w, nNodes, maxLen);
      if rounds == 0 { TooLongIsHeavy(par, key, w, nNodes, maxLen); }
      Rescale(weight, alphaSize, w);
      RescaledOnce(w0, rounds);
      w, rounds := Halved(w), rounds + 1;
    }
  }

  lemma NotRescaled(w: seq<nat>)
    ensures Rescaled(w, 0) == w
  {}

  lemma RescaledOnce(w: seq<nat>, rounds: nat)
    ensures Rescaled(w, rounds + 1) == Halved(Rescaled(w, rounds))
  {}

  lemma AtLeastOne(x: nat)
    ensures Max(x, 1) == (if x == 0 then 1 else x) >= 1
  {}

  lemma GrownLinks(par: seq<int>, key: seq<nat>, w: seq<nat>)
    requires Grown(par, key, w)
    ensures Links(par) && |w| < |par|
  {}
}
