/** Canonical Huffman codes: assignment, decode tables, and their inversion. */
module Huffman {
  import opened Bits
  import opened Occurrences

  const MAX_ALPHA_SIZE := 258
  const MAX_CODE_LEN := 23
  /** The longest code the decoder accepts. */
  const LONGEST := 20

  /** The first code of length n, when codes of length lo are the shortest. */
  function First(lens: seq<nat>, lo: nat, n: nat): nat
    decreases n
  {
    if n <= lo then 0 else 2 * (First(lens, lo, n - 1) + Count(lens, n - 1))
  }

  /** One past the last code of length n. */
  function Past(lens: seq<nat>, lo: nat, n: nat): nat {
    First(lens, lo, n) + Count(lens, n)
  }

  /** The canonical code of symbol i. */
  function Code(lens: seq<nat>, lo: nat, i: nat): nat
    requires i < |lens|
  {
    First(lens, lo, lens[i]) + Rank(lens, i)
  }

  function MinLen(lens: seq<nat>): nat {
    if lens == [] then 32
    else
      var m, x := MinLen(lens[..|lens| - 1]), lens[|lens| - 1];
      if x < m then x else m
  }

  function MaxLen(lens: seq<nat>): nat {
    if lens == [] then 0
    else
      var m, x := MaxLen(lens[..|lens| - 1]), lens[|lens| - 1];
      if x > m then x else m
  }

  lemma {:induction false} MinMaxBound(lens: seq<nat>, i: nat)
    requires i < |lens|
    ensures MinLen(lens) <= lens[i] <= MaxLen(lens)
  {
    if i < |lens| - 1 { MinMaxBound(lens[..|lens| - 1], i); }
  }

  ghost predicate LensIn(lens: seq<nat>, lo: nat, hi: nat) {
    forall i :: 0 <= i < |lens| ==> lo <= lens[i] <= hi
  }

  lemma {:induction false} MinMaxIn(lens: seq<nat>, lo: nat, hi: nat)
    requires LensIn(lens, lo, hi) && lens != [] && hi <= 32
    ensures lo <= MinLen(lens) <= MaxLen(lens) <= hi
  {
    var k := |lens| - 1;
    if k > 0 { MinMaxIn(lens[..k], lo, hi); }
  }

  lemma MinMaxAll(lens: seq<nat>)
    ensures LensIn(lens, MinLen(lens), MaxLen(lens))
  {
    forall i | 0 <= i < |lens|
      ensures MinLen(lens) <= lens[i] <= MaxLen(lens)
    {
      MinMaxBound(lens, i);
    }
  }

  // ---------- the Kraft sum ----------

  /** The share of the code space, in units of 2^-20, taken by codes of length at most n. */
  function Kraft(lens: seq<nat>, n: nat): nat {
    if lens == [] then 0
    else
      var x := lens[|lens| - 1];
      Kraft(lens[..|lens| - 1], n) + if x <= n && x <= LONGEST then Pow2(LONGEST - x) else 0
  }

  lemma {:induction false} KraftStep(lens: seq<nat>, n: nat, k: nat)
    requires 0 < n && n + k == LONGEST
    ensures Kraft(lens, n) == Kraft(lens, n - 1) + Shl(Count(lens, n), k)
  {
    if lens == [] {
      ShlZero(k);
    } else {
      var rest, x := lens[..|lens| - 1], lens[|lens| - 1];
      KraftStep(rest, n, k);
      if x == n {
        ShlOne(k);
        ShlAdd(Count(rest, n), 1, k);
      }
    }
  }

  lemma {:induction false} KraftZero(lens: seq<nat>, n: nat)
    requires forall i :: 0 <= i < |lens| ==> lens[i] > n
    ensures Kraft(lens, n) == 0
  {
    if lens != [] {
      KraftZero(lens[..|lens| - 1], n);
    }
  }

  /** The codes up to length n fill exactly their share of the code space. */
  lemma {:induction false} KraftFirst(lens: seq<nat>, lo: nat, n: nat, k: nat)
    requires 1 <= lo <= n && n + k == LONGEST && forall i :: 0 <= i < |lens| ==> lens[i] >= lo
    ensures Shl(Past(lens, lo, n), k) == Kraft(lens, n)
    decreases n
  {
    KraftStep(lens, n, k);
    var c := Count(lens, n);
    if n == lo {
      KraftZero(lens, n - 1);
      assert Past(lens, lo, n) == c;
    } else {
      KraftFirst(lens, lo, n - 1, k + 1);
      var a := Past(lens, lo, n - 1);
      ShlAdd(2 * a, c, k);
      ShlTwice(a, k);
      assert Past(lens, lo, n) == 2 * a + c;
    }
  }

  lemma {:induction false} KraftMono(lens: seq<nat>, m: nat, n: nat)
    requires m <= n
    ensures Kraft(lens, m) <= Kraft(lens, n)
  {
    if lens != [] { KraftMono(lens[..|lens| - 1], m, n); }
  }

  /** When the Kraft sum is at most one, codes of length n fit in n bits. */
  lemma CodesFit(lens: seq<nat>, lo: nat, n: nat)
    requires 1 <= lo <= n <= LONGEST && forall i :: 0 <= i < |lens| ==> lens[i] >= lo
    requires Kraft(lens, LONGEST) <= Pow2(LONGEST)
    ensures Past(lens, lo, n) <= Pow2(n)
  {
    var k := LONGEST - n;
    KraftFirst(lens, lo, n, k);
    KraftMono(lens, n, LONGEST);
    FitArith(Past(lens, lo, n), n, k, LONGEST);
  }

  lemma FitArith(x: nat, n: nat, k: nat, l: nat)
    requires l == n + k && Shl(x, k) <= Pow2(l)
    ensures x <= Pow2(n)
  {
    if x > Pow2(n) {
      ShlLess(Pow2(n), x, k);
      ShlPow2(n, k);
    }
  }

  /** Longer codes start beyond the last code of every shorter length. */
  lemma {:induction false} FirstGrows(lens: seq<nat>, lo: nat, m: nat, k: nat)
    requires lo <= m && k > 0
    ensures First(lens, lo, m + k) >= Shl(Past(lens, lo, m), k)
    decreases k
  {
    if k == 1 {
      assert First(lens, lo, m + 1) == 2 * Past(lens, lo, m);
      assert Shl(Past(lens, lo, m), 1) == 2 * Past(lens, lo, m);
    } else {
      FirstGrows(lens, lo, m, k - 1);
      assert First(lens, lo, m + k) >= 2 * First(lens, lo, m + k - 1);
    }
  }

  // ---------- decoding ----------

  /** limit[n]: the last code of length n. */
  function LimitAt(lens: seq<nat>, lo: nat, hi: nat, n: nat): int {
    if lo <= n <= hi then Past(lens, lo, n) - 1 else 0
  }

  /** base[n]: what to subtract from a code of length n to index perm. */
  function BaseAt(lens: seq<nat>, lo: nat, hi: nat, n: nat): int {
    if lo < n <= hi then First(lens, lo, n) - Below(lens, lo, n) else Below(lens, lo, n)
  }

  datatype Lookup = NeedBit | Symbol(sym: nat) | BadCode

  /** One round of the decoding loop of GET_MTF_VAL: zn bits with value zvec have been read. */
  function LookUp(lens: seq<nat>, zn: nat, zvec: nat): Lookup {
    var lo, hi := MinLen(lens), MaxLen(lens);
    if zn > LONGEST then BadCode
    else if zvec <= LimitAt(lens, lo, hi, zn) then
      PermAt(Buckets(lens, lo, hi + 1), zvec - BaseAt(lens, lo, hi, zn))
    else NeedBit
  }

  function PermAt(perm: seq<nat>, k: int): Lookup {
    if 0 <= k < MAX_ALPHA_SIZE && k < |perm| then Symbol(perm[k]) else BadCode
  }

  /** The slot of a symbol in perm, reached from its code. */
  lemma CodeSlot(lens: seq<nat>, lo: nat, hi: nat, i: nat, n: nat)
    requires i < |lens| && LensIn(lens, lo, hi) && n == lens[i]
    ensures Code(lens, lo, i) <= LimitAt(lens, lo, hi, n)
    ensures var k := Code(lens, lo, i) - BaseAt(lens, lo, hi, n);
            0 <= k < |Buckets(lens, lo, hi + 1)| && Buckets(lens, lo, hi + 1)[k] == i
  {
    hide Occ, Count, Buckets, Below, First, BaseAt;
    OccAtRank(lens, i);
    BucketSlot(lens, lo, hi + 1, n, Rank(lens, i));
    CodeOffset(lens, lo, hi, i, n);
  }

  lemma CodeOffset(lens: seq<nat>, lo: nat, hi: nat, i: nat, n: nat)
    requires i < |lens| && lo <= n <= hi && n == lens[i]
    ensures Code(lens, lo, i) - BaseAt(lens, lo, hi, n) == Below(lens, lo, n) + Rank(lens, i)
  {
    hide Rank, Count;
    if n == lo { assert Below(lens, lo, n) == 0 && First(lens, lo, n) == 0; }
  }

  lemma PermSize(lens: seq<nat>, lo: nat, hi: nat)
    requires LensIn(lens, lo, hi)
    ensures |Buckets(lens, lo, hi + 1)| == |lens|
  {
    BelowAll(lens, lo, hi + 1);
    BucketsLength(lens, lo, hi + 1);
  }

  /**
   Every proper prefix of a code, of m bits with k to come, asks for another bit; the whole code gives back its
   symbol.
  */
  lemma CanonicalInversion(lens: seq<nat>, i: nat, m: nat, k: nat)
    requires i < |lens| <= MAX_ALPHA_SIZE && LensIn(lens, 1, LONGEST)
    requires MinLen(lens) <= m && m + k == lens[i]
    ensures LookUp(lens, m, Shr(Code(lens, MinLen(lens), i), k)) == if k > 0 then NeedBit else Symbol(i)
  {
    MinMaxIn(lens, 1, LONGEST);
    if k > 0 {
      PrefixAsks(lens, i, m, k);
    } else {
      CodeFound(lens, i, m);
    }
  }

  lemma PrefixAsks(lens: seq<nat>, i: nat, m: nat, k: nat)
    requires i < |lens| && MinLen(lens) <= m && m + k == lens[i] && k > 0 && MaxLen(lens) <= LONGEST
    ensures LookUp(lens, m, Shr(Code(lens, MinLen(lens), i), k)) == NeedBit
  {
    var lo := MinLen(lens);
    FirstGrows(lens, lo, m, k);
    ShrGe(Code(lens, lo, i), Past(lens, lo, m), k);
    MinMaxBound(lens, i);
  }

  lemma CodeFound(lens: seq<nat>, i: nat, n: nat)
    requires i < |lens| <= MAX_ALPHA_SIZE && n == lens[i] <= LONGEST
    ensures LookUp(lens, n, Code(lens, MinLen(lens), i)) == Symbol(i)
  {
    MinMaxAll(lens);
    PermSize(lens, MinLen(lens), MaxLen(lens));
    CodeSlot(lens, MinLen(lens), MaxLen(lens), i, n);
  }

  /** Conversely, what is found when no prefix was is a code of its symbol, however the table was made. */
  lemma CodeOnly(lens: seq<nat>, n: nat, zvec: nat, sym: nat)
    requires lens != [] && LensIn(lens, 1, LONGEST) && MinLen(lens) <= n && LookUp(lens, n, zvec) == Symbol(sym)
    requires n > MinLen(lens) ==> zvec / 2 > LimitAt(lens, MinLen(lens), MaxLen(lens), n - 1)
    ensures sym < |lens| && lens[sym] == n && zvec == Code(lens, MinLen(lens), sym)
  {
    hide Occ, Count, Buckets, Below, First, Rank, MinLen, MaxLen;
    MinMaxAll(lens);
    var lo, hi := MinLen(lens), MaxLen(lens);
    WithinTable(lens, lo, hi, n, zvec);
    var r := zvec - First(lens, lo, n);
    InBucket(lens, lo, hi, n, zvec);
    BucketSlot(lens, lo, hi + 1, n, r);
    SlotOf(lens, lo, hi, n, zvec);
    OccRank(lens, n, r);
  }

  /** No code is longer than the longest. */
  lemma WithinTable(lens: seq<nat>, lo: nat, hi: nat, n: nat, zvec: nat)
    requires LensIn(lens, lo, hi) && lens != [] && lo <= n && zvec <= LimitAt(lens, lo, hi, n)
    requires zvec - BaseAt(lens, lo, hi, n) >= 0
    ensures n <= hi
  {
    if n > hi {
      BelowAll(lens, lo, hi + 1);
      BelowMono(lens, lo, hi + 1, n);
    }
  }

  lemma InBucket(lens: seq<nat>, lo: nat, hi: nat, n: nat, zvec: nat)
    requires lo <= n <= hi && zvec <= LimitAt(lens, lo, hi, n)
    requires n > lo ==> zvec / 2 > LimitAt(lens, lo, hi, n - 1)
    ensures 0 <= zvec - First(lens, lo, n) < Count(lens, n)
  {}

  lemma SlotOf(lens: seq<nat>, lo: nat, hi: nat, n: nat, zvec: nat)
    requires lo <= n <= hi
    ensures zvec - BaseAt(lens, lo, hi, n) == Below(lens, lo, n) + (zvec - First(lens, lo, n))
  {}

  /** The entry of a bucket at a place has that rank. */
  lemma OccRank(lens: seq<nat>, n: nat, r: nat)
    requires r < |Occ(lens, n)|
    ensures var i := Occ(lens, n)[r];
            i < |lens| && lens[i] == n && Rank(lens, i) == r
  {
    OccSound(lens, n, r);
    OccAtRank(lens, Occ(lens, n)[r]);
    OccIncreasing(lens, n);
    hide Occ;
  }

  /** A code fits in as many bits as its length says. */
  lemma CodeFits(lens: seq<nat>, i: nat)
    requires i < |lens| && LensIn(lens, 1, LONGEST) && Kraft(lens, LONGEST) <= Pow2(LONGEST)
    ensures Code(lens, MinLen(lens), i) < Pow2(lens[i])
  {
    MinMaxIn(lens, 1, LONGEST);
    MinMaxAll(lens);
    OccAtRank(lens, i);
    CodesFit(lens, MinLen(lens), lens[i]);
  }

  /** For every length table, however over- or under-subscribed, decoding stays inside the filled part of perm. */
  lemma LookupInRange(lens: seq<nat>, n: nat, zvec: nat)
    requires lens != [] && MinLen(lens) <= n
    requires zvec <= LimitAt(lens, MinLen(lens), MaxLen(lens), n)
    ensures zvec - BaseAt(lens, MinLen(lens), MaxLen(lens), n) < |lens|
            == |Buckets(lens, MinLen(lens), MaxLen(lens) + 1)|
  {
    var lo, hi := MinLen(lens), MaxLen(lens);
    MinMaxAll(lens);
    MinMaxBound(lens, 0);
    PermSize(lens, lo, hi);
    SlotBound(lens, lo, hi, n, zvec);
  }

  lemma SlotBound(lens: seq<nat>, lo: nat, hi: nat, n: nat, zvec: nat)
    requires LensIn(lens, lo, hi) && lens != [] && lo <= hi && lo <= n
    requires zvec <= LimitAt(lens, lo, hi, n)
    ensures zvec - BaseAt(lens, lo, hi, n) < |lens|
  {
    BelowAll(lens, lo, hi + 1);
    if n <= hi {
      BelowMono(lens, lo, n + 1, hi + 1);
      BelowNext(lens, lo, n);
      if n == lo { assert Below(lens, lo, n) == 0; }
    } else {
      BelowMono(lens, lo, hi + 1, n);
    }
  }
}
