/** Why a sort by the class of the rotation h places on, within classes of depth h, gives the classes of depth 2h. */
module DepthDoubling {
  import opened Bits
  import opened Permutations
  import opened Rotations
  import opened Shuffles

  /** The header of place i's bucket. */
  function Header(bits: seq<bool>, i: nat): (h: nat)
    requires i < |bits|
    ensures h <= i
  {
    if i == 0 || bits[i] then i else Header(bits, i - 1)
  }

  lemma {:induction false} HeaderMono(bits: seq<bool>, i: nat, j: nat)
    requires i <= j < |bits|
    ensures Header(bits, i) <= Header(bits, j)
    decreases j
  {
    if i < j && !bits[j] { HeaderMono(bits, i, j - 1); }
  }

  /** Places share a header exactly when no header lies between them. */
  lemma {:induction false} HeaderShared(bits: seq<bool>, j: nat, i: nat)
    requires j <= i < |bits|
    ensures Header(bits, i) == Header(bits, j) <==> forall k :: j < k <= i ==> !bits[k]
    decreases i
  {
    if j < i {
      if !bits[i] { HeaderShared(bits, j, i - 1); }
    }
  }

  lemma {:induction false} HeaderOwn(bits: seq<bool>, i: nat)
    requires i < |bits| && bits[i]
    ensures Header(bits, i) == i
  {}

  /** f lists the rotations by their first h bytes, and bits marks where a new class begins. */
  ghost predicate Level(b: seq<byte>, f: seq<nat>, bits: seq<bool>, h: nat) {
    && IsPerm(f, |b|) && |bits| == |b|
    && forall i, j :: 0 <= i < |b| && 0 <= j < |b| ==> (LeH(b, f[i], f[j], h) <==> Header(bits, i) <= Header(bits, j))
  }

  lemma LevelAt(b: seq<byte>, f: seq<nat>, bits: seq<bool>, h: nat, i: nat, j: nat)
    requires Level(b, f, bits, h) && i < |b| && j < |b|
    ensures |f| == |b| == |bits| && f[i] < |b| && f[j] < |b|
    ensures LeH(b, f[i], f[j], h) <==> Header(bits, i) <= Header(bits, j)
    ensures EqH(b, f[i], f[j], h) <==> Header(bits, i) == Header(bits, j)
  {
    hide Header;
    if LeH(b, f[i], f[j], h) && LeH(b, f[j], f[i], h) {
      LeAntisym(b, f[i], f[j], h);
    }
    if EqH(b, f[i], f[j], h) {
      EqLe(b, f[i], f[j], h);
      EqSym(b, f[i], f[j], h);
      EqLe(b, f[j], f[i], h);
    }
  }

  /** Rearranging one bucket changes neither the classes nor any first byte. */
  lemma LevelShuffle(b: seq<byte>, f: seq<nat>, f': seq<nat>, bits: seq<bool>, h: nat, l: nat, r: nat)
    requires Level(b, f, bits, h) && Shuffled(f, f', l, r + 1) && l <= r < |b| && h > 0
    requires forall k :: l < k <= r ==> !bits[k]
    ensures Level(b, f', bits, h)
    ensures forall i :: 0 <= i < |b| ==> f[i] < |b| && f'[i] < |b| && b[f'[i]] == b[f[i]]
  {
    hide Header, LeH, EqH, Shuffled;
    ShuffledMultiset(f, f', l, r + 1);
    ShuffledPerm(f, f', |b|);
    forall i, j | 0 <= i < |b| && 0 <= j < |b|
      ensures LeH(b, f'[i], f'[j], h) <==> Header(bits, i) <= Header(bits, j)
    {
      var i' := SameClass(b, f, f', bits, h, l, r, i);
      var j' := SameClass(b, f, f', bits, h, l, r, j);
      LevelAt(b, f, bits, h, i', j');
    }
    forall i | 0 <= i < |b|
      ensures b[f'[i]] == b[f[i]]
    {
      var i' := SameClass(b, f, f', bits, h, l, r, i);
      LevelAt(b, f, bits, h, i', i);
      FirstByte(b, f[i'], f[i], h);
    }
  }

  lemma FirstByte(b: seq<byte>, x: nat, y: nat, h: nat)
    requires x < |b| && y < |b| && h > 0 && EqH(b, x, y, h)
    ensures b[x] == b[y]
  {}

  lemma SameClass(b: seq<byte>, f: seq<nat>, f': seq<nat>, bits: seq<bool>, h: nat, l: nat, r: nat, i: nat)
    returns (i': nat)
    requires Level(b, f, bits, h) && Shuffled(f, f', l, r + 1) && l <= r < |b| && i < |b|
    requires forall k :: l < k <= r ==> !bits[k]
    ensures i' < |b| && f'[i] == f[i'] && Header(bits, i') == Header(bits, i)
  {
    hide Header, LeH, EqH;
    i' := i;
    if l <= i <= r {
      i' := ShuffledFrom(f, f', l, r + 1, i);
      HeaderShared(bits, l, i);
      HeaderShared(bits, l, i');
    }
  }

  // ---------- the key ----------

  /** The rotation h places before x. */
  function Back(n: nat, x: nat, h: nat): nat
    requires x < n && h <= n
  {
    if x >= h then x - h else x + n - h
  }

  /** ec orders rotations by their bytes from place h to 2h. */
  ghost predicate Ahead(b: seq<byte>, ec: seq<nat>, h: nat) {
    && |ec| == |b| && h <= |b|
    && forall x, y :: 0 <= x < |b| && 0 <= y < |b|
         ==> (LeH(b, Adv(|b|, x, h), Adv(|b|, y, h), h) <==> ec[x] <= ec[y])
  }

  /** Each rotation's key is the header of the rotation h places on. */
  lemma KeysAhead(b: seq<byte>, f: seq<nat>, bits: seq<bool>, ec: seq<nat>, h: nat)
    requires Level(b, f, bits, h) && h <= |b| == |ec|
    requires forall i :: 0 <= i < |b| ==> f[i] < |b| && ec[Back(|b|, f[i], h)] == Header(bits, i)
    ensures Ahead(b, ec, h)
  {
    hide Header, LeH;
    var n := |b|;
    forall x, y | 0 <= x < n && 0 <= y < n
      ensures LeH(b, Adv(n, x, h), Adv(n, y, h), h) <==> ec[x] <= ec[y]
    {
      var i := PermOnto(f, n, Adv(n, x, h));
      var j := PermOnto(f, n, Adv(n, y, h));
      assert Back(n, f[i], h) == x && Back(n, f[j], h) == y;
      LevelAt(b, f, bits, h, i, j);
    }
  }

  /** Up to place k: buckets are in order of ec, and headers mark each change of bucket or key. */
  ghost predicate Refined(bits: seq<bool>, bits': seq<bool>, f: seq<nat>, ec: seq<nat>, k: nat) {
    && |bits| == |bits'| == |f| && k <= |f| && Into(f, ec, 0, |f|)
    && (forall i :: 0 < i < k ==> bits'[i] == (bits[i] || ec[f[i]] != ec[f[i - 1]]))
    && (forall i, j :: 0 <= i < j < k && Header(bits, i) == Header(bits, j) ==> ec[f[i]] <= ec[f[j]])
  }

  /** The two-part key, compared. */
  ghost predicate Lex(bits: seq<bool>, f: seq<nat>, ec: seq<nat>, i: nat, j: nat)
    requires i < |bits| && j < |bits| && |bits| == |f| && Into(f, ec, 0, |f|)
  {
    if Header(bits, i) == Header(bits, j) then ec[f[i]] <= ec[f[j]] else Header(bits, i) <= Header(bits, j)
  }

  lemma LexForward(bits: seq<bool>, bits': seq<bool>, f: seq<nat>, ec: seq<nat>, i: nat, j: nat)
    requires Refined(bits, bits', f, ec, |f|) && i <= j < |f|
    ensures Lex(bits, f, ec, i, j)
  {
    HeaderMono(bits, i, j);
  }

  /** Going back from i to j, the two-part key is the same exactly when no new header is passed. */
  lemma {:induction false} LexBack(bits: seq<bool>, bits': seq<bool>, f: seq<nat>, ec: seq<nat>, j: nat, i: nat)
    requires Refined(bits, bits', f, ec, |f|) && j < i < |f|
    ensures Lex(bits, f, ec, i, j) <==> forall k :: j < k <= i ==> !bits'[k]
    decreases i
  {
    hide Header;
    LexStep(bits, bits', f, ec, i);
    LexForward(bits, bits', f, ec, j, i - 1);
    LexForward(bits, bits', f, ec, i - 1, i);
    if j < i - 1 {
      LexBack(bits, bits', f, ec, j, i - 1);
    }
    HeaderMono(bits, j, i - 1);
    HeaderMono(bits, i - 1, i);
    assert (forall k :: j < k <= i ==> !bits'[k]) <==> !bits'[i] && forall k :: j < k <= i - 1 ==> !bits'[k];
  }

  lemma LexStep(bits: seq<bool>, bits': seq<bool>, f: seq<nat>, ec: seq<nat>, i: nat)
    requires Refined(bits, bits', f, ec, |f|) && 0 < i < |f|
    ensures !bits'[i] <==> Header(bits, i) == Header(bits, i - 1) && ec[f[i]] == ec[f[i - 1]]
  {
    HeaderShared(bits, i - 1, i);
  }

  /** Classes of depth h, refined by the key, are the classes of depth 2h. */
  lemma LevelDoubled(b: seq<byte>, f: seq<nat>, bits: seq<bool>, bits': seq<bool>, ec: seq<nat>, h: nat, h2: nat)
    requires Level(b, f, bits, h) && Ahead(b, ec, h) && Refined(bits, bits', f, ec, |b|) && h2 == h + h
    ensures Level(b, f, bits', h2)
  {
    hide Header, LeH, EqH;
    forall i, j | 0 <= i < |b| && 0 <= j < |b|
      ensures LeH(b, f[i], f[j], h2) <==> Header(bits', i) <= Header(bits', j)
    {
      LevelAt(b, f, bits, h, i, j);
      LeSplit(b, f[i], f[j], h, h);
      assert LeH(b, f[i], f[j], h2) <==> Lex(bits, f, ec, i, j);
      if i <= j {
        LexForward(bits, bits', f, ec, i, j);
        HeaderMono(bits', i, j);
      } else {
        LexBack(bits, bits', f, ec, j, i);
        HeaderShared(bits', j, i);
        HeaderMono(bits', j, i);
      }
    }
  }

  // ---------- when to stop ----------

  /** Deep enough, or with every rotation in a class of its own, the list is sorted. */
  lemma LevelSorted(b: seq<byte>, f: seq<nat>, bits: seq<bool>, h: nat)
    requires Level(b, f, bits, h)
    requires h >= |b| || forall i :: 0 <= i < |b| ==> bits[i]
    ensures IsSorted(b, f)
  {
    hide Header, LeH, EqH;
    forall i, j | 0 <= i < j < |b|
      ensures Le(b, f[i], f[j])
    {
      LevelAt(b, f, bits, h, i, j);
      HeaderMono(bits, i, j);
      if h >= |b| {
        LeShorter(b, f[i], f[j], |b|, h);
      } else {
        HeaderOwn(bits, i);
        HeaderOwn(bits, j);
        LeSplit(b, f[i], f[j], h, |b| - h);
      }
    }
  }
}
