/** The weight-ordered heap of BZ2_hbMakeCodeLengths: entries 1..n, with a zero-weight sentinel in entry 0. */
module CodeLengthHeap {

  /** Entry j is a child of entry i. */
  predicate Child(i: int, j: int) {
    j == 2 * i || j == 2 * i + 1
  }

  /** Every entry up to n names a node. */
  ghost predicate Entries(h: seq<nat>, w: seq<nat>, n: nat) {
    n < |h| && forall k :: 0 <= k <= n ==> h[k] < |w|
  }

  /** No child but possibly bad weighs less than its parent. */
  ghost predicate OrderedBut(h: seq<nat>, w: seq<nat>, n: nat, bad: nat)
    requires Entries(h, w, n)
  {
    forall i, j :: 1 <= i && Child(i, j) && j <= n && j != bad ==> w[h[i]] <= w[h[j]]
  }

  /** No child of any entry but possibly bad weighs less than it. */
  ghost predicate OrderedBelow(h: seq<nat>, w: seq<nat>, n: nat, bad: nat)
    requires Entries(h, w, n)
  {
    forall i, j :: 1 <= i && Child(i, j) && j <= n && i != bad ==> w[h[i]] <= w[h[j]]
  }

  ghost predicate Ordered(h: seq<nat>, w: seq<nat>, n: nat)
    requires Entries(h, w, n)
  {
    OrderedBut(h, w, n, 0)
  }

  /** Grandchildren past entry k weigh no less than k's parent. */
  ghost predicate Bridged(h: seq<nat>, w: seq<nat>, n: nat, k: nat)
    requires Entries(h, w, n)
  {
    forall i, j :: 1 <= i && Child(i, k) && Child(k, j) && j <= n ==> w[h[i]] <= w[h[j]]
  }

  /** The nodes in the heap. */
  ghost function Live(h: seq<nat>, n: nat): multiset<nat>
    requires n < |h|
  {
    multiset(h[1..n + 1])
  }

  function Swapped(h: seq<nat>, a: nat, b: nat): seq<nat>
    requires a < |h| && b < |h|
  {
    h[a := h[b]][b := h[a]]
  }

  lemma SwapKeeps(h: seq<nat>, a: nat, b: nat, n: nat)
    requires 1 <= a <= n < |h| && 1 <= b <= n && a != b
    ensures Live(Swapped(h, a, b), n) == Live(h, n)
  {
    var s := h[1..n + 1];
    assert Swapped(h, a, b)[1..n + 1] == s[a - 1 := s[b - 1]][b - 1 := s[a - 1]];
  }

  lemma HalfChild(z: nat)
    requires z >= 1
    ensures Child(z / 2, z)
  {}

  lemma NoBridge(h: seq<nat>, w: seq<nat>, n: nat)
    requires Entries(h, w, n)
    ensures Bridged(h, w, n, n) && Bridged(h, w, n, 1)
  {}

  /** UPHEAP(n): the new last entry moves up to its place. */
  method UpHeap(heap: array<nat>, weight: array<nat>, n: nat)
    requires heap != weight && 1 <= n && Entries(heap[..], weight[..], n) && heap[0] == 0 && weight[0] == 0
    requires OrderedBut(heap[..], weight[..], n, n)
    modifies heap
    ensures Entries(heap[..], weight[..], n) && heap[0] == 0
    ensures Ordered(heap[..], weight[..], n)
    ensures Live(heap[..], n) == Live(old(heap[..]), n)
  {
    hide OrderedBut, Bridged, Live, Child;
    ghost var w, h := weight[..], heap[..];
    var zz, tmp := n, heap[n];
    NoBridge(h, w, n);
    while weight[tmp] < weight[heap[zz / 2]]
      invariant 1 <= zz <= n && heap[0] == 0 && weight[..] == w && |h| == heap.Length
      invariant h == heap[..][zz := tmp] && heap[zz / 2] == h[zz / 2] < weight.Length
      invariant Entries(h, w, n) && OrderedBut(h, w, n, zz) && Bridged(h, w, n, zz)
      invariant Live(h, n) == Live(old(heap[..]), n)
      decreases zz
    {
      ghost var p := zz / 2;
      assert p >= 1 && h[p] == heap[p];
      HalfChild(zz);
      SwapKeeps(h, zz, p, n);
      UpStep(h, w, n, zz, p);
      h := Swapped(h, zz, p);
      heap[zz] := heap[zz / 2];
      zz := zz / 2;
    }
    heap[zz] := tmp;
    assert heap[..] == h;
    Risen(h, w, n, zz);
  }

  lemma Risen(h: seq<nat>, w: seq<nat>, n: nat, zz: nat)
    requires Entries(h, w, n) && 1 <= zz <= n && OrderedBut(h, w, n, zz)
    requires w[h[zz / 2]] <= w[h[zz]]
    ensures Ordered(h, w, n)
  {
    forall i, j | 1 <= i && Child(i, j) && j <= n
      ensures w[h[i]] <= w[h[j]]
    {
      if j == zz { assert i == zz / 2; }
    }
  }

  lemma UpStep(h: seq<nat>, w: seq<nat>, n: nat, zz: nat, p: nat)
    requires Entries(h, w, n) && 1 <= p && Child(p, zz) && zz <= n
    requires OrderedBut(h, w, n, zz) && Bridged(h, w, n, zz) && w[h[zz]] < w[h[p]]
    ensures Entries(Swapped(h, zz, p), w, n)
    ensures OrderedBut(Swapped(h, zz, p), w, n, p) && Bridged(Swapped(h, zz, p), w, n, p)
  {
    var g := Swapped(h, zz, p);
    forall i, j | 1 <= i && Child(i, j) && j <= n && j != p
      ensures w[g[i]] <= w[g[j]]
    {
      if i == p {
        if j != zz { assert w[h[p]] <= w[h[j]]; }
      } else if i == zz {
        assert Child(p, zz) && Child(zz, j);
        assert w[h[p]] <= w[h[j]];
      }
    }
    forall i, j | 1 <= i && Child(i, p) && Child(p, j) && j <= n
      ensures w[g[i]] <= w[g[j]]
    {
      assert w[h[i]] <= w[h[p]];
      if j != zz { assert w[h[p]] <= w[h[j]]; }
    }
  }

  /** DOWNHEAP(1): the entry moved to the top sinks to its place. */
  method DownHeap(heap: array<nat>, weight: array<nat>, n: nat)
    requires heap != weight && 2 <= heap.Length && Entries(heap[..], weight[..], n) && heap[0] == 0
    requires heap[1] < weight.Length
    requires OrderedBelow(heap[..], weight[..], n, 1)
    modifies heap
    ensures Entries(heap[..], weight[..], n) && heap[0] == 0
    ensures Ordered(heap[..], weight[..], n)
    ensures Live(heap[..], n) == Live(old(heap[..]), n)
  {
    hide OrderedBelow, Ordered, Bridged, Live, Child;
    ghost var w, h := weight[..], heap[..];
    var zz, tmp := 1, heap[1];
    NoBridge(h, w, n);
    while true
      invariant 1 <= zz && (zz <= n || zz == 1) && zz < heap.Length && tmp < weight.Length
      invariant heap[0] == 0 && weight[..] == w && |h| == heap.Length
      invariant h == heap[..][zz := tmp]
      invariant Entries(h, w, n) && OrderedBelow(h, w, n, zz) && Bridged(h, w, n, zz)
      invariant Live(h, n) == Live(old(heap[..]), n)
      decreases n + 1 - zz
    {
      var yy := 2 * zz;
      ChildrenOf(zz);
      if yy > n { break; }
      assert heap[yy] == h[yy] && (yy < n ==> heap[yy + 1] == h[yy + 1]);
      if yy < n && weight[heap[yy + 1]] < weight[heap[yy]] { yy := yy + 1; }
      if weight[tmp] < weight[heap[yy]] {
        break;
      }
      SwapKeeps(h, zz, yy, n);
      DownStep(h, w, n, zz, yy);
      h := Swapped(h, zz, yy);
      heap[zz] := heap[yy];
      zz := yy;
    }
    heap[zz] := tmp;
    assert heap[..] == h;
    Settled(h, w, n, zz);
  }

  lemma ChildrenOf(z: nat)
    ensures forall j :: Child(z, j) <==> j == 2 * z || j == 2 * z + 1
  {}

  lemma Settled(h: seq<nat>, w: seq<nat>, n: nat, zz: nat)
    requires Entries(h, w, n) && 1 <= zz && OrderedBelow(h, w, n, zz)
    requires forall j :: Child(zz, j) && j <= n ==> w[h[zz]] <= w[h[j]]
    ensures Ordered(h, w, n)
  {}

  lemma DownStep(h: seq<nat>, w: seq<nat>, n: nat, zz: nat, yy: nat)
    requires Entries(h, w, n) && 1 <= zz && Child(zz, yy) && yy <= n
    requires OrderedBelow(h, w, n, zz) && Bridged(h, w, n, zz)
    requires w[h[yy]] <= w[h[zz]] && forall j :: Child(zz, j) && j <= n ==> w[h[yy]] <= w[h[j]]
    ensures Entries(Swapped(h, zz, yy), w, n)
    ensures OrderedBelow(Swapped(h, zz, yy), w, n, yy) && Bridged(Swapped(h, zz, yy), w, n, yy)
  {
    var g := Swapped(h, zz, yy);
    forall i, j | 1 <= i && Child(i, j) && j <= n && i != yy
      ensures w[g[i]] <= w[g[j]]
    {
      if i == zz {
        if j != yy { assert w[h[yy]] <= w[h[j]]; }
      } else if j == zz {
        assert Child(i, zz) && Child(zz, yy);
        assert w[h[i]] <= w[h[yy]];
      }
    }
    forall i, j | 1 <= i && Child(i, yy) && Child(yy, j) && j <= n
      ensures w[g[i]] <= w[g[j]]
    {
      assert i == zz;
      assert w[h[yy]] <= w[h[j]];
    }
  }

  /** The top entry is a lightest one. */
  lemma {:induction false} TopIsLeast(h: seq<nat>, w: seq<nat>, n: nat, k: nat)
    requires Entries(h, w, n) && Ordered(h, w, n) && 1 <= k <= n
    ensures w[h[1]] <= w[h[k]]
    decreases k
  {
    if k > 1 {
      assert Child(k / 2, k);
      TopIsLeast(h, w, n, k / 2);
    }
  }

  lemma TopIsLeastLive(h: seq<nat>, w: seq<nat>, n: nat)
    requires Entries(h, w, n) && Ordered(h, w, n) && 1 <= n
    ensures forall x :: x in Live(h, n) ==> x < |w| && w[h[1]] <= w[x]
  {
    forall x | x in Live(h, n)
      ensures x < |w| && w[h[1]] <= w[x]
    {
      var k :| 0 <= k < n && h[1..n + 1][k] == x;
      TopIsLeast(h, w, n, k + 1);
    }
  }

  /** Taking the lightest entry: heap[1] out, the last entry to the top and down. */
  method TakeLeast(heap: array<nat>, weight: array<nat>, n: nat) returns (least: nat)
    requires heap != weight && 1 <= n && Entries(heap[..], weight[..], n) && heap[0] == 0
    requires Ordered(heap[..], weight[..], n)
    modifies heap
    ensures Entries(heap[..], weight[..], n - 1) && heap[0] == 0
    ensures Ordered(heap[..], weight[..], n - 1)
    ensures least < weight.Length && Live(old(heap[..]), n) == Live(heap[..], n - 1) + multiset{least}
    ensures forall x :: x in Live(old(heap[..]), n) ==> x < weight.Length && weight[least] <= weight[x]
  {
    hide OrderedBut, OrderedBelow, Live;
    least := heap[1];
    ghost var h, w := heap[..], weight[..];
    TopIsLeastLive(h, w, n);
    LastToTop(h, n);
    TopReplaced(h, w, n);
    heap[1] := heap[n];
    assert heap[..] == h[1 := h[n]];
    DownHeap(heap, weight, n - 1);
  }

  lemma TopReplaced(h: seq<nat>, w: seq<nat>, n: nat)
    requires 1 <= n && Entries(h, w, n) && Ordered(h, w, n)
    ensures Entries(h[1 := h[n]], w, n - 1) && OrderedBelow(h[1 := h[n]], w, n - 1, 1)
  {
    var g := h[1 := h[n]];
    forall i, j | 1 <= i && Child(i, j) && j <= n - 1 && i != 1
      ensures w[g[i]] <= w[g[j]]
    {
      assert w[h[i]] <= w[h[j]];
    }
  }

  lemma LastToTop(h: seq<nat>, n: nat)
    requires 1 <= n < |h|
    ensures Live(h, n) == Live(h[1 := h[n]], n - 1) + multiset{h[1]}
  {
    var g := h[1 := h[n]];
    if n == 1 {
      assert h[1..2] == [h[1]] && g[1..1] == [];
    } else {
      assert h[1..n + 1] == [h[1]] + h[2..n] + [h[n]];
      assert g[1..n] == [h[n]] + h[2..n];
    }
  }
}
