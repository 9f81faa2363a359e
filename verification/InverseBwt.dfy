/** The last column of the sorted rotations, and why following T^(-1) from origPtr spells the block. */
module InverseBwt {
  import opened Bits
  import opened Occurrences
  import opened Permutations
  import opened Rotations

  /** The byte before each rotation, in sorted order. */
  function LastColumn(b: seq<byte>, ptr: seq<nat>): (col: seq<byte>)
    requires forall i :: 0 <= i < |ptr| ==> ptr[i] < |b|
    ensures |col| == |ptr|
    ensures forall i :: 0 <= i < |ptr| ==> col[i] == b[Prev(|b|, ptr[i])]
  {
    if ptr == [] then [] else LastColumn(b, ptr[..|ptr| - 1]) + [b[Prev(|b|, ptr[|ptr| - 1])]]
  }

  /** T^(-1): the positions of the column in stable order of their bytes. */
  function TInv(col: seq<byte>): seq<nat> {
    Buckets(col, 0, 256)
  }

  /** The bytes read on m steps through T^(-1) from row p. */
  function Walk(col: seq<byte>, t: seq<nat>, p: nat, m: nat): seq<byte>
    decreases m
  {
    if m == 0 || p >= |t| || t[p] >= |col| then []
    else [col[t[p]]] + Walk(col, t, t[p], m - 1)
  }

  /** What the decoder makes of a column and an origin pointer. */
  function Inverse(col: seq<byte>, origPtr: nat): seq<byte> {
    Walk(col, TInv(col), origPtr, |col|)
  }

  // ---------- T^(-1) is a stable sorting permutation of the column ----------

  lemma TInvLength(col: seq<byte>)
    ensures |TInv(col)| == |col|
  {
    BelowAll(col, 0, 256);
    BucketsLength(col, 0, 256);
  }

  /** Rows come in order of their byte, then of their position. */
  lemma TInvOrder(col: seq<byte>, p: nat, q: nat)
    requires p < q < |TInv(col)|
    ensures TInv(col)[p] < |col| && TInv(col)[q] < |col|
    ensures var i, j := TInv(col)[p], TInv(col)[q];
            col[i] < col[j] || (col[i] == col[j] && i < j)
  {
    SlotBucket(col, 0, 256, p);
    SlotBucket(col, 0, 256, q);
    var i, j := TInv(col)[p], TInv(col)[q];
    if col[j] < col[i] {
      SlotsApart(col, col[j], col[i]);
    } else if col[i] == col[j] {
      OccIncreasing(col, col[i]);
    }
  }

  lemma SlotsApart(col: seq<byte>, c: nat, d: nat)
    requires c < d
    ensures Below(col, 0, c) + |Occ(col, c)| <= Below(col, 0, d)
  {
    BelowNext(col, 0, c);
    BelowMono(col, 0, c + 1, d);
    OccLength(col, c);
  }

  lemma TInvPerm(col: seq<byte>)
    ensures IsPerm(TInv(col), |col|)
  {
    TInvLength(col);
    forall p | 0 <= p < |col|
      ensures TInv(col)[p] < |col|
    {
      SlotBucket(col, 0, 256, p);
    }
    forall p, q | 0 <= p < q < |col|
      ensures TInv(col)[p] != TInv(col)[q]
    {
      TInvOrder(col, p, q);
    }
  }

  // ---------- two sorted listings agree up to ties ----------

  /** Sorted listings of the same rotations can only differ among equal rotations: one half. */
  lemma SortedAgreeLe(b: seq<byte>, p: seq<nat>, q: seq<nat>, i: nat)
    requires IsSorted(b, p) && IsSorted(b, q) && i < |b|
    ensures Le(b, q[i], p[i])
  {
    var n := |b|;
    if !Le(b, q[i], p[i]) {
      // Everything up to p[i] in p must sit strictly before place i in q.
      forall x | x in Prefix(p, i + 1)
        ensures x in Prefix(q, i)
      {
        var k :| 0 <= k <= i && p[k] == x;
        var m := PermOnto(q, n, x);
        EqRefl(b, x, n);
        EqLe(b, x, x, n);
        if m >= i {
          LeTrans(b, q[i], x, p[i], n);
          assert false;
        }
      }
      PrefixSize(p, n, i + 1);
      PrefixSize(q, n, i);
      SubsetSize(Prefix(p, i + 1), Prefix(q, i));
      assert false;
    }
  }

  lemma SortedAgree(b: seq<byte>, p: seq<nat>, q: seq<nat>, i: nat)
    requires IsSorted(b, p) && IsSorted(b, q) && i < |b|
    ensures EqH(b, p[i], q[i], |b|)
  {
    SortedAgreeLe(b, p, q, i);
    SortedAgreeLe(b, q, p, i);
    LeAntisym(b, p[i], q[i], |b|);
  }

  // ---------- following T^(-1) moves one place along the block ----------

  /** The rotations one place before those listed by ptr, in the order of T^(-1). */
  ghost function Stepped(n: nat, ptr: seq<nat>, t: seq<nat>): (q: seq<nat>)
    requires IsPerm(ptr, n) && IsPerm(t, n)
    ensures |q| == n && forall p :: 0 <= p < n ==> q[p] == Prev(n, ptr[t[p]])
  {
    seq(n, p requires 0 <= p < n => Prev(n, ptr[t[p]]))
  }

  lemma SteppedSorted(b: seq<byte>, ptr: seq<nat>)
    requires IsSorted(b, ptr)
    ensures IsPerm(TInv(LastColumn(b, ptr)), |b|)
    ensures IsSorted(b, Stepped(|b|, ptr, TInv(LastColumn(b, ptr))))
  {
    var n, col := |b|, LastColumn(b, ptr);
    var t := TInv(col);
    TInvPerm(col);
    var q := Stepped(n, ptr, t);
    forall p, p' | 0 <= p < p' < n
      ensures q[p] != q[p'] && Le(b, q[p], q[p'])
    {
      TInvOrder(col, p, p');
      var x, y := q[p], q[p'];
      assert col[t[p]] == b[x] && col[t[p']] == b[y];
      assert Next(n, x) == ptr[t[p]] && Next(n, y) == ptr[t[p']];
      assert t[p] != t[p'];
      if b[x] == b[y] {
        assert Le(b, ptr[t[p]], ptr[t[p']]);
        LeNext(b, x, y);
      }
    }
  }

  /** Each row of t holds the rotation after the one it stands for, up to equality of rotations. */
  ghost predicate LeadsOn(b: seq<byte>, ptr: seq<nat>, col: seq<byte>, t: seq<nat>) {
    && |ptr| == |col| == |t| == |b|
    && (forall p :: 0 <= p < |b| ==> ptr[p] < |b| && t[p] < |b|)
    && (forall p :: 0 <= p < |b| ==> col[p] == b[Prev(|b|, ptr[p])])
    && (forall p :: 0 <= p < |b| ==> EqH(b, Next(|b|, ptr[p]), ptr[t[p]], |b|))
  }

  lemma TInvLeadsOn(b: seq<byte>, ptr: seq<nat>)
    requires IsSorted(b, ptr)
    ensures LeadsOn(b, ptr, LastColumn(b, ptr), TInv(LastColumn(b, ptr)))
  {
    SteppedSorted(b, ptr);
    LeadsOnFrom(b, ptr, TInv(LastColumn(b, ptr)));
  }

  lemma LeadsOnFrom(b: seq<byte>, ptr: seq<nat>, t: seq<nat>)
    requires IsSorted(b, ptr) && IsPerm(t, |b|) && IsSorted(b, Stepped(|b|, ptr, t))
    ensures LeadsOn(b, ptr, LastColumn(b, ptr), t)
  {
    var n, q := |b|, Stepped(|b|, ptr, t);
    forall p | 0 <= p < n
      ensures EqH(b, Next(n, ptr[p]), ptr[t[p]], n)
    {
      SortedAgree(b, ptr, q, p);
      EqNext(b, ptr[p], q[p]);
      assert Next(n, q[p]) == ptr[t[p]];
    }
  }

  lemma EqJoin(b: seq<byte>, x: nat, y: nat, z: nat, h: nat)
    requires x < |b| && y < |b| && z < |b| && EqH(b, x, y, h) && EqH(b, x, z, h)
    ensures EqH(b, y, z, h)
  {
    EqSym(b, x, y, h);
    EqTrans(b, y, x, z, h);
  }

  /** One step of the walk: from a row equal to rotation k to one equal to the next, reading byte k. */
  lemma WalkStep(b: seq<byte>, ptr: seq<nat>, col: seq<byte>, t: seq<nat>, p: nat, k: nat)
    requires LeadsOn(b, ptr, col, t) && p < |b| && k < |b| && EqH(b, ptr[p], k, |b|)
    ensures col[t[p]] == b[k] && EqH(b, ptr[t[p]], Next(|b|, k), |b|)
  {
    var n, x, y, z := |b|, Next(|b|, ptr[p]), ptr[t[p]], Next(|b|, k);
    assert EqH(b, x, y, n);
    EqNext(b, ptr[p], k);
    EqJoin(b, x, y, z, n);
    EqPrev(b, y, z);
    assert Prev(n, z) == k;
  }

  /** From a row that holds rotation k, up to equality, the walk spells the block from k on. */
  lemma {:induction false} WalkSpells(b: seq<byte>, ptr: seq<nat>, col: seq<byte>, t: seq<nat>, p: nat, k: nat, m: nat)
    requires LeadsOn(b, ptr, col, t) && p < |b| && k < |b| && EqH(b, ptr[p], k, |b|) && k + m == |b|
    ensures Walk(col, t, p, m) == b[k..]
    decreases m
  {
    WalkStep(b, ptr, col, t, p, k);
    SliceHead(b, k);
    if m == 1 {
      assert Walk(col, t, t[p], 0) == [];
    } else {
      WalkSpells(b, ptr, col, t, t[p], k + 1, m - 1);
    }
  }

  lemma SliceHead(b: seq<byte>, k: nat)
    requires k < |b|
    ensures b[k..] == [b[k]] + b[k + 1..]
  {}

  /** For every block and every sorted listing of its rotations, ties in any order, the inverse gives back the block. */
  lemma InverseCorrect(b: seq<byte>, ptr: seq<nat>, origPtr: nat)
    requires IsSorted(b, ptr) && origPtr < |b| && ptr[origPtr] == 0
    ensures Inverse(LastColumn(b, ptr), origPtr) == b
  {
    TInvLeadsOn(b, ptr);
    EqRefl(b, 0, |b|);
    WalkSpells(b, ptr, LastColumn(b, ptr), TInv(LastColumn(b, ptr)), origPtr, 0, |b|);
  }
}
