/** The cyclic rotations of a block and their lexicographic order, cut off at any depth. */
module Rotations {
  import opened Bits
  import opened Permutations

  function Next(n: nat, i: nat): nat {
    if i + 1 == n then 0 else i + 1
  }

  function Prev(n: nat, i: nat): nat {
    if i == 0 && n > 0 then n - 1 else if i == 0 then 0 else i - 1
  }

  /** The index h places after i, for h at most n. */
  function Adv(n: nat, i: nat, h: nat): nat
    requires i < n && h <= n
  {
    if i + h < n then i + h else i + h - n
  }

  /** Rotations i and j agree on their first h bytes. */
  predicate EqH(b: seq<byte>, i: nat, j: nat, h: nat)
    requires i < |b| && j < |b|
    decreases h
  {
    h == 0 || (b[i] == b[j] && EqH(b, Next(|b|, i), Next(|b|, j), h - 1))
  }

  /** The first h bytes of rotation i come no later than those of rotation j. */
  predicate LeH(b: seq<byte>, i: nat, j: nat, h: nat)
    requires i < |b| && j < |b|
    decreases h
  {
    h == 0 || b[i] < b[j] || (b[i] == b[j] && LeH(b, Next(|b|, i), Next(|b|, j), h - 1))
  }

  /** Rotation i comes no later than rotation j. */
  predicate Le(b: seq<byte>, i: nat, j: nat)
    requires i < |b| && j < |b|
  {
    LeH(b, i, j, |b|)
  }

  /** ptr lists all rotations in non-decreasing order; equal rotations may come in any order. */
  ghost predicate IsSorted(b: seq<byte>, ptr: seq<nat>)
  {
    && IsPerm(ptr, |b|)
    && forall i, j :: 0 <= i < j < |b| ==> Le(b, ptr[i], ptr[j])
  }

  // ---------- order laws ----------

  lemma {:induction false} EqRefl(b: seq<byte>, i: nat, h: nat)
    requires i < |b|
    ensures EqH(b, i, i, h)
    decreases h
  {
    if h > 0 { EqRefl(b, Next(|b|, i), h - 1); }
  }

  lemma {:induction false} EqSym(b: seq<byte>, i: nat, j: nat, h: nat)
    requires i < |b| && j < |b| && EqH(b, i, j, h)
    ensures EqH(b, j, i, h)
    decreases h
  {
    if h > 0 { EqSym(b, Next(|b|, i), Next(|b|, j), h - 1); }
  }

  lemma {:induction false} EqTrans(b: seq<byte>, i: nat, j: nat, k: nat, h: nat)
    requires i < |b| && j < |b| && k < |b| && EqH(b, i, j, h) && EqH(b, j, k, h)
    ensures EqH(b, i, k, h)
    decreases h
  {
    if h > 0 { EqTrans(b, Next(|b|, i), Next(|b|, j), Next(|b|, k), h - 1); }
  }

  lemma {:induction false} EqLe(b: seq<byte>, i: nat, j: nat, h: nat)
    requires i < |b| && j < |b| && EqH(b, i, j, h)
    ensures LeH(b, i, j, h)
    decreases h
  {
    if h > 0 { EqLe(b, Next(|b|, i), Next(|b|, j), h - 1); }
  }

  lemma {:induction false} LeAntisym(b: seq<byte>, i: nat, j: nat, h: nat)
    requires i < |b| && j < |b| && LeH(b, i, j, h) && LeH(b, j, i, h)
    ensures EqH(b, i, j, h)
    decreases h
  {
    if h > 0 { LeAntisym(b, Next(|b|, i), Next(|b|, j), h - 1); }
  }

  lemma {:induction false} LeTrans(b: seq<byte>, i: nat, j: nat, k: nat, h: nat)
    requires i < |b| && j < |b| && k < |b| && LeH(b, i, j, h) && LeH(b, j, k, h)
    ensures LeH(b, i, k, h)
    decreases h
  {
    if h > 0 && b[i] == b[j] == b[k] {
      LeTrans(b, Next(|b|, i), Next(|b|, j), Next(|b|, k), h - 1);
    }
  }

  /** Cutting off earlier keeps the order. */
  lemma {:induction false} LeShorter(b: seq<byte>, i: nat, j: nat, h: nat, h': nat)
    requires i < |b| && j < |b| && h <= h' && LeH(b, i, j, h')
    ensures LeH(b, i, j, h)
    decreases h
  {
    if h > 0 && b[i] == b[j] { LeShorter(b, Next(|b|, i), Next(|b|, j), h - 1, h' - 1); }
  }

  lemma {:induction false} EqShorter(b: seq<byte>, i: nat, j: nat, h: nat, h': nat)
    requires i < |b| && j < |b| && h <= h' && EqH(b, i, j, h')
    ensures EqH(b, i, j, h)
    decreases h
  {
    if h > 0 { EqShorter(b, Next(|b|, i), Next(|b|, j), h - 1, h' - 1); }
  }

  // ---------- looking h bytes ahead ----------

  lemma AdvNext(n: nat, i: nat, h: nat)
    requires i < n && 0 < h <= n
    ensures Next(n, i) < n && Adv(n, Next(n, i), h - 1) == Adv(n, i, h)
  {}

  /** Agreement is agreement at every offset. */
  lemma {:induction false} EqAt(b: seq<byte>, i: nat, j: nat, h: nat, k: nat)
    requires i < |b| && j < |b| && EqH(b, i, j, h) && k < h <= |b|
    ensures b[Adv(|b|, i, k)] == b[Adv(|b|, j, k)]
    decreases h
  {
    if k > 0 {
      AdvNext(|b|, i, k);
      AdvNext(|b|, j, k);
      EqAt(b, Next(|b|, i), Next(|b|, j), h - 1, k - 1);
    }
  }

  lemma {:induction false} EqFromAt(b: seq<byte>, i: nat, j: nat, h: nat)
    requires i < |b| && j < |b| && h <= |b|
    requires forall k :: 0 <= k < h ==> b[Adv(|b|, i, k)] == b[Adv(|b|, j, k)]
    ensures EqH(b, i, j, h)
    decreases h
  {
    if h > 0 {
      assert b[Adv(|b|, i, 0)] == b[Adv(|b|, j, 0)];
      forall k | 0 <= k < h - 1
        ensures b[Adv(|b|, Next(|b|, i), k)] == b[Adv(|b|, Next(|b|, j), k)]
      {
        AdvNext(|b|, i, k + 1);
        AdvNext(|b|, j, k + 1);
      }
      EqFromAt(b, Next(|b|, i), Next(|b|, j), h - 1);
    }
  }

  /** Comparing to depth g + h: by the first g bytes, and on a tie by the next h. */
  lemma {:induction false} LeSplit(b: seq<byte>, i: nat, j: nat, g: nat, h: nat)
    requires i < |b| && j < |b| && g <= |b|
    ensures LeH(b, i, j, g + h) <==>
            if EqH(b, i, j, g) then LeH(b, Adv(|b|, i, g), Adv(|b|, j, g), h) else LeH(b, i, j, g)
    decreases g
  {
    if g > 0 {
      AdvNext(|b|, i, g);
      AdvNext(|b|, j, g);
      if b[i] == b[j] { LeSplit(b, Next(|b|, i), Next(|b|, j), g - 1, h); }
    }
  }

  lemma {:induction false} EqSplit(b: seq<byte>, i: nat, j: nat, g: nat, h: nat)
    requires i < |b| && j < |b| && g <= |b|
    ensures EqH(b, i, j, g + h) <==> EqH(b, i, j, g) && EqH(b, Adv(|b|, i, g), Adv(|b|, j, g), h)
    decreases g
  {
    if g > 0 {
      AdvNext(|b|, i, g);
      AdvNext(|b|, j, g);
      if b[i] == b[j] { EqSplit(b, Next(|b|, i), Next(|b|, j), g - 1, h); }
    }
  }

  /** Rotations that agree on a whole turn agree forever. */
  lemma {:induction false} EqForever(b: seq<byte>, i: nat, j: nat, h: nat)
    requires i < |b| && j < |b| && EqH(b, i, j, |b|)
    ensures EqH(b, i, j, h)
    decreases h
  {
    if h > |b| {
      var n := |b|;
      EqForever(b, i, j, h - n);
      EqSplit(b, i, j, n, h - n);
    } else {
      EqShorter(b, i, j, h, |b|);
    }
  }

  /** The order at one whole turn is the order at any depth. */
  lemma LeForever(b: seq<byte>, i: nat, j: nat, h: nat)
    requires i < |b| && j < |b| && Le(b, i, j)
    ensures LeH(b, i, j, h)
  {
    var n := |b|;
    if h <= n {
      LeShorter(b, i, j, h, n);
    } else {
      LeSplit(b, i, j, n, h - n);
      if EqH(b, i, j, n) {
        EqForever(b, i, j, h - n);
        EqLe(b, i, j, h - n);
      }
    }
  }

  /** A common first byte may be dropped or added. */
  lemma LeNext(b: seq<byte>, i: nat, j: nat)
    requires i < |b| && j < |b| && b[i] == b[j]
    ensures Le(b, i, j) <==> Le(b, Next(|b|, i), Next(|b|, j))
  {
    var n, i', j' := |b|, Next(|b|, i), Next(|b|, j);
    if Le(b, i, j) {
      LeForever(b, i, j, n + 1);
    }
    if Le(b, i', j') {
      LeShorter(b, i', j', n - 1, n);
    }
  }

  /** Rotations that agree still agree one place on, and one place back. */
  lemma EqNext(b: seq<byte>, i: nat, j: nat)
    requires i < |b| && j < |b| && EqH(b, i, j, |b|)
    ensures EqH(b, Next(|b|, i), Next(|b|, j), |b|)
  {
    EqForever(b, i, j, |b| + 1);
  }

  lemma EqPrev(b: seq<byte>, i: nat, j: nat)
    requires i < |b| && j < |b| && EqH(b, i, j, |b|)
    ensures b[Prev(|b|, i)] == b[Prev(|b|, j)]
    ensures EqH(b, Prev(|b|, i), Prev(|b|, j), |b|)
  {
    var n := |b|;
    EqAt(b, i, j, n, n - 1);
    assert Adv(n, i, n - 1) == Prev(n, i) && Adv(n, j, n - 1) == Prev(n, j);
    EqShorter(b, i, j, n - 1, n);
    assert Next(n, Prev(n, i)) == i && Next(n, Prev(n, j)) == j;
  }
}
