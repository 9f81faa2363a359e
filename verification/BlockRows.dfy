/** The rows visited when a block is read back, and what the decoder's arrays must hold for that. */
module BlockRows {
  import opened Bits
  import opened Occurrences
  import opened Permutations
  import opened InverseBwt

  /** The row after k steps of T^(-1) from p. */
  function RowAt(col: seq<byte>, p: nat, k: nat): nat
    decreases k
  {
    if k == 0 then p
    else
      var r := RowAt(col, p, k - 1);
      if r < |TInv(col)| then TInv(col)[r] else r
  }

  /** The bytes read on m steps from row p. */
  function Read(col: seq<byte>, p: nat, m: nat): seq<byte> {
    Walk(col, TInv(col), p, m)
  }

  lemma TInvIn(col: seq<byte>, r: nat)
    requires r < |col|
    ensures |TInv(col)| == |col| && TInv(col)[r] < |col|
  {
    TInvPerm(col);
    hide TInv;
  }

  lemma {:induction false} RowIn(col: seq<byte>, p: nat, k: nat)
    requires p < |col|
    ensures RowAt(col, p, k) < |col| == |TInv(col)|
    decreases k
  {
    hide TInv;
    TInvIn(col, p);
    if k > 0 {
      RowIn(col, p, k - 1);
      TInvIn(col, RowAt(col, p, k - 1));
    }
  }

  lemma {:induction false} RowShift(col: seq<byte>, p: nat, k: nat)
    requires p < |col| == |TInv(col)| && TInv(col)[p] < |col|
    ensures RowAt(col, TInv(col)[p], k) == RowAt(col, p, k + 1)
    decreases k
  {
    hide TInv;
    if k > 0 { RowShift(col, p, k - 1); }
  }

  /** The byte read on step m is that of the row reached. */
  lemma {:induction false} ReadMore(col: seq<byte>, p: nat, m: nat)
    requires p < |col|
    ensures RowAt(col, p, m + 1) < |col| && |Read(col, p, m)| == m
    ensures Read(col, p, m + 1) == Read(col, p, m) + [col[RowAt(col, p, m + 1)]]
    decreases m
  {
    hide TInv;
    RowIn(col, p, 0);
    RowIn(col, p, m + 1);
    TInvPerm(col);
    var q := TInv(col)[p];
    if m == 0 {
      assert RowAt(col, p, 1) == q;
    } else {
      ReadMore(col, q, m - 1);
      RowShift(col, p, m);
      assert Read(col, p, m + 1) == [col[q]] + Read(col, q, m);
      assert Read(col, p, m) == [col[q]] + Read(col, q, m - 1);
      assert [col[q]] + (Read(col, q, m - 1) + [col[RowAt(col, q, m)]])
             == [col[q]] + Read(col, q, m - 1) + [col[RowAt(col, q, m)]];
    }
  }

  // ---------- counts ----------

  /** Where the rows of each byte begin. */
  ghost predicate Starts(cftab: seq<nat>, col: seq<byte>) {
    |cftab| == 257 && forall c :: 0 <= c <= 256 ==> cftab[c] == Below(col, 0, c)
  }

  lemma StartsBounds(cftab: seq<nat>, col: seq<byte>, c: nat)
    requires Starts(cftab, col) && c <= 256
    ensures cftab[c] <= |col| && cftab[256] == |col| && cftab[0] == 0 && (c > 0 ==> cftab[c - 1] <= cftab[c])
  {
    BelowAll(col, 0, 256);
    BelowMono(col, 0, c, 256);
    assert cftab[c] == Below(col, 0, c) && cftab[256] == Below(col, 0, 256);
    if c > 0 {
      BelowMono(col, 0, c - 1, c);
      assert cftab[c - 1] == Below(col, 0, c - 1);
    }
  }

  /** Next free row of each byte, once the first i bytes of the column have theirs. */
  ghost predicate Nexts(next: seq<nat>, col: seq<byte>, i: nat)
    requires i <= |col|
  {
    |next| >= 256 && forall c :: 0 <= c < 256 ==> next[c] == Below(col, 0, c) + Count(col[..i], c)
  }

  /** The row that position i of the column gets: where T^(-1) holds i. */
  lemma RowOf(col: seq<byte>, i: nat) returns (r: nat)
    requires i < |col|
    ensures r == Below(col, 0, col[i]) + Count(col[..i], col[i]) < |col| == |TInv(col)| && TInv(col)[r] == i
  {
    TInvLength(col);
    r := Below(col, 0, col[i]) + Rank(col, i);
    OccAtRank(col, i);
    BucketSlot(col, 0, 256, col[i], Rank(col, i));
  }

  lemma NextsStep(next: seq<nat>, col: seq<byte>, i: nat)
    requires i < |col| && Nexts(next, col, i)
    ensures Nexts(next[col[i] := next[col[i]] + 1], col, i + 1)
  {
    var next' := next[col[i] := next[col[i]] + 1];
    forall c | 0 <= c < 256
      ensures next'[c] == Below(col, 0, c) + Count(col[..i + 1], c)
    {
      CountStep(col, i, c);
    }
  }

  lemma NextsStart(next: seq<nat>, col: seq<byte>)
    requires |next| >= 256 && forall c :: 0 <= c < 256 ==> next[c] == Below(col, 0, c)
    ensures Nexts(next, col, 0)
  {
    assert col[..0] == [];
  }

  // ---------- the words of the fast decoder ----------

  /** A word: its row's byte, and above it the row's link, if that is below i. */
  function WordAt(col: seq<byte>, i: nat, p: nat): nat
    requires p < |col| && p < |TInv(col)|
  {
    col[p] + if TInv(col)[p] < i then 256 * TInv(col)[p] else 0
  }

  ghost predicate Words(tt: seq<nat>, col: seq<byte>, i: nat) {
    |TInv(col)| == |col| <= |tt| && forall p :: 0 <= p < |col| ==> tt[p] == WordAt(col, i, p)
  }

  lemma WordsStart(tt: seq<nat>, col: seq<byte>)
    requires |col| <= |tt| && forall p :: 0 <= p < |col| ==> tt[p] == col[p]
    ensures Words(tt, col, 0)
  {
    TInvLength(col);
  }

  /** Position i goes above the byte of its row. */
  lemma WordsStep(tt: seq<nat>, col: seq<byte>, i: nat, r: nat)
    requires Words(tt, col, i) && i < |col| && r < |col| && TInv(col)[r] == i
    ensures tt[r] == col[r] && Words(tt[r := col[r] + 256 * i], col, i + 1)
  {
    var tt' := tt[r := col[r] + 256 * i];
    TInvPerm(col);
    assert tt[r] == WordAt(col, i, r);
    forall p | 0 <= p < |col|
      ensures tt'[p] == WordAt(col, i + 1, p)
    {
      assert tt[p] == WordAt(col, i, p);
      if p != r { assert TInv(col)[p] != TInv(col)[r]; }
    }
  }

  lemma WordParts(tt: seq<nat>, col: seq<byte>, p: nat)
    requires Words(tt, col, |col|) && p < |col|
    ensures tt[p] % 256 == col[p] && tt[p] / 256 == TInv(col)[p] < |col|
  {
    TInvPerm(col);
    assert tt[p] == WordAt(col, |col|, p);
  }

  lemma ByteOfWord(tt: seq<nat>, col: seq<byte>, i: nat, k: nat)
    requires Words(tt, col, i) && k < |col|
    ensures tt[k] % 256 == col[k]
  {
    assert tt[k] == WordAt(col, i, k);
  }

  // ---------- the links of the small decoder ----------

  /** T: position i of the column leads to its row. */
  ghost predicate Forward(link: seq<nat>, col: seq<byte>) {
    && |link| == |col| == |TInv(col)|
    && (forall i :: 0 <= i < |col| ==> link[i] < |col|)
    && (forall i :: 0 <= i < |col| ==> TInv(col)[link[i]] == i)
  }

  /** A set of rows closed under T^(-1) that has p, on which the links are T^(-1). */
  ghost predicate Reversed(link: seq<nat>, col: seq<byte>, p: nat) {
    && |link| == |col| == |TInv(col)|
    && forall k: nat :: RowAt(col, p, k) < |col| && link[RowAt(col, p, k)] == TInv(col)[RowAt(col, p, k)]
  }

  /** T followed k times from p. */
  function Ahead(link: seq<nat>, p: nat, k: nat): nat
    decreases k
  {
    if k == 0 then p
    else
      var r := Ahead(link, p, k - 1);
      if r < |link| then link[r] else r
  }

  lemma {:induction false} AheadIn(t: seq<nat>, col: seq<byte>, p: nat, k: nat)
    requires Forward(t, col) && p < |col|
    ensures Ahead(t, p, k) < |col|
    decreases k
  {
    if k > 0 { AheadIn(t, col, p, k - 1); }
  }

  /**
   In the middle of the reversal: the rows 1 to k ahead of p are apart from each other and from p, and their links are
   turned.
  */
  ghost predicate Turning(link: seq<nat>, t: seq<nat>, col: seq<byte>, p: nat, k: nat) {
    && Forward(t, col) && |link| == |col| && p < |col|
    && (forall a, b :: 0 <= a < b <= k ==> Ahead(t, p, a) != Ahead(t, p, b))
    && (forall m :: 1 <= m <= k ==> Ahead(t, p, m) < |col| && link[Ahead(t, p, m)] == Ahead(t, p, m - 1))
    && (forall r :: 0 <= r < |col| && Untouched(t, p, k, r) ==> link[r] == t[r])
  }

  /** None of the rows 1 to k ahead of p is r. */
  ghost predicate Untouched(t: seq<nat>, p: nat, k: nat, r: int) {
    forall m :: 1 <= m <= k ==> Ahead(t, p, m) != r
  }

  lemma TurningStart(t: seq<nat>, col: seq<byte>, p: nat)
    requires Forward(t, col) && p < |col|
    ensures Turning(t, t, col, p, 0)
  {}

  lemma ForwardApart(t: seq<nat>, col: seq<byte>, a: nat, b: nat)
    requires Forward(t, col) && a < |col| && b < |col| && a != b
    ensures t[a] != t[b]
  {
    assert TInv(col)[t[a]] == a && TInv(col)[t[b]] == b;
  }

  /** The row after the k-th has not been turned, and is new unless it is p. */
  lemma TurningNext(link: seq<nat>, t: seq<nat>, col: seq<byte>, p: nat, k: nat)
    requires Turning(link, t, col, p, k)
    ensures var j := Ahead(t, p, k + 1);
            && j < |col| && link[j] == t[j]
            && (j != p ==> forall a :: 0 <= a <= k ==> Ahead(t, p, a) != j)
  {
    AheadIn(t, col, p, k);
    AheadIn(t, col, p, k + 1);
    var i, j := Ahead(t, p, k), Ahead(t, p, k + 1);
    assert j == t[i];
    forall m | 1 <= m <= k
      ensures Ahead(t, p, m) != j
    {
      AheadIn(t, col, p, m - 1);
      ForwardApart(t, col, Ahead(t, p, m - 1), i);
    }
    assert Untouched(t, p, k, j);
  }

  lemma TurningStep(link: seq<nat>, t: seq<nat>, col: seq<byte>, p: nat, k: nat)
    requires Turning(link, t, col, p, k) && Ahead(t, p, k + 1) != p
    ensures Ahead(t, p, k + 1) < |col| && Turning(link[Ahead(t, p, k + 1) := Ahead(t, p, k)], t, col, p, k + 1)
  {
    TurningNext(link, t, col, p, k);
    StillApart(t, p, k);
    TurnedLinks(link, t, col, p, k);
    OtherLinks(link, t, col, p, k);
    hide Ahead, Forward;
  }

  lemma TurnedLinks(link: seq<nat>, t: seq<nat>, col: seq<byte>, p: nat, k: nat)
    requires Turning(link, t, col, p, k) && Ahead(t, p, k + 1) < |col|
    requires forall a :: 0 <= a <= k ==> Ahead(t, p, a) != Ahead(t, p, k + 1)
    ensures forall m :: 1 <= m <= k + 1 ==>
              Ahead(t, p, m) < |col| && link[Ahead(t, p, k + 1) := Ahead(t, p, k)][Ahead(t, p, m)] == Ahead(t, p, m - 1)
  {
    hide Ahead, Forward;
    forall m | 1 <= m <= k + 1
      ensures Ahead(t, p, m) < |col| && link[Ahead(t, p, k + 1) := Ahead(t, p, k)][Ahead(t, p, m)] == Ahead(t, p, m - 1)
    {
      if m <= k { assert Ahead(t, p, m) != Ahead(t, p, k + 1); }
    }
  }

  lemma OtherLinks(link: seq<nat>, t: seq<nat>, col: seq<byte>, p: nat, k: nat)
    requires Turning(link, t, col, p, k) && Ahead(t, p, k + 1) < |col|
    ensures |t| == |col|
    ensures forall r :: 0 <= r < |col| && Untouched(t, p, k + 1, r) ==>
              link[Ahead(t, p, k + 1) := Ahead(t, p, k)][r] == t[r]
  {
    assert |t| == |col|;
    hide Ahead, Forward;
    forall r | 0 <= r < |col| && Untouched(t, p, k + 1, r)
      ensures link[Ahead(t, p, k + 1) := Ahead(t, p, k)][r] == t[r]
    {
      assert Ahead(t, p, k + 1) != r;
      assert Untouched(t, p, k, r);
    }
  }

  lemma StillApart(t: seq<nat>, p: nat, k: nat)
    requires forall a, b :: 0 <= a < b <= k ==> Ahead(t, p, a) != Ahead(t, p, b)
    requires forall a :: 0 <= a <= k ==> Ahead(t, p, a) != Ahead(t, p, k + 1)
    ensures forall a, b :: 0 <= a < b <= k + 1 ==> Ahead(t, p, a) != Ahead(t, p, b)
  {
    hide Ahead;
  }

  /** There are at most as many rows as the column has positions. */
  lemma TurningShort(link: seq<nat>, t: seq<nat>, col: seq<byte>, p: nat, k: nat)
    requires Turning(link, t, col, p, k)
    ensures k < |col|
  {
    var seen := Rows(t, p, k);
    RangeSize(|col|);
    forall r | r in seen
      ensures r in Range(|col|)
    {
      var a :| 0 <= a <= k && Ahead(t, p, a) == r;
      AheadIn(t, col, p, a);
    }
    SubsetSize(seen, Range(|col|));
    RowsSize(t, p, k);
  }

  ghost function Rows(t: seq<nat>, p: nat, k: nat): set<nat> {
    set a | 0 <= a <= k :: Ahead(t, p, a)
  }

  lemma {:induction false} RowsSize(t: seq<nat>, p: nat, k: nat)
    requires forall a, b :: 0 <= a < b <= k ==> Ahead(t, p, a) != Ahead(t, p, b)
    ensures |Rows(t, p, k)| == k + 1
    decreases k
  {
    if k == 0 {
      assert Rows(t, p, 0) == {Ahead(t, p, 0)};
    } else {
      RowsSize(t, p, k - 1);
      assert Rows(t, p, k) == Rows(t, p, k - 1) + {Ahead(t, p, k)};
    }
  }

  /** The last link turned is that of p itself; then the rows read from p are all turned. */
  lemma TurningDone(link: seq<nat>, t: seq<nat>, col: seq<byte>, p: nat, k: nat)
    requires Turning(link, t, col, p, k) && Ahead(t, p, k + 1) == p
    ensures Reversed(link[p := Ahead(t, p, k)], col, p)
  {
    var link' := link[p := Ahead(t, p, k)];
    forall n: nat
      ensures RowAt(col, p, n) < |col| && link'[RowAt(col, p, n)] == TInv(col)[RowAt(col, p, n)]
    {
      var m := OnCycle(link, t, col, p, k, n);
      BackOne(link, t, col, p, k, m);
    }
  }

  /** A row of the cycle leads back to the one before it. */
  lemma BackOne(link: seq<nat>, t: seq<nat>, col: seq<byte>, p: nat, k: nat, m: nat)
    requires Turning(link, t, col, p, k) && Ahead(t, p, k + 1) == p && 1 <= m <= k + 1
    ensures Ahead(t, p, m) < |col| && Ahead(t, p, m - 1) < |col|
    ensures TInv(col)[Ahead(t, p, m)] == Ahead(t, p, m - 1) == link[p := Ahead(t, p, k)][Ahead(t, p, m)]
  {
    AheadIn(t, col, p, m);
    AheadIn(t, col, p, m - 1);
    assert Ahead(t, p, m) == t[Ahead(t, p, m - 1)];
    if m <= k { assert Ahead(t, p, 0) != Ahead(t, p, m); }
  }

  lemma TurningIn(link: seq<nat>, t: seq<nat>, col: seq<byte>, p: nat, k: nat)
    requires Turning(link, t, col, p, k)
    ensures p < |col| && Ahead(t, p, 0) == p
  {}

  /** Every row read from p is on the cycle. */
  lemma {:induction false} OnCycle(link: seq<nat>, t: seq<nat>, col: seq<byte>, p: nat, k: nat, n: nat) returns (m: nat)
    requires Turning(link, t, col, p, k) && Ahead(t, p, k + 1) == p
    ensures 1 <= m <= k + 1 && RowAt(col, p, n) == Ahead(t, p, m)
    decreases n
  {
    hide Ahead, Turning, TInv;
    TurningIn(link, t, col, p, k);
    if n == 0 {
      m := k + 1;
    } else {
      var m' := OnCycle(link, t, col, p, k, n - 1);
      RowIn(col, p, n - 1);
      BackOne(link, t, col, p, k, m');
      m := if m' == 1 then k + 1 else m' - 1;
    }
  }

  // ---------- the byte of a row ----------

  /** The row's byte is the one whose rows begin at or before it, and the next byte's after it. */
  lemma ByteOfRow(cftab: seq<nat>, col: seq<byte>, p: nat, c: nat)
    requires Starts(cftab, col) && p < |col| == |TInv(col)| && c < 256 && cftab[c] <= p < cftab[c + 1]
             && TInv(col)[p] < |col|
    ensures col[TInv(col)[p]] == c
  {
    SlotBucket(col, 0, 256, p);
    var d := col[TInv(col)[p]];
    OccLength(col, d);
    BelowNext(col, 0, d);
    assert cftab[c] == Below(col, 0, c) && cftab[c + 1] == Below(col, 0, c + 1);
    if d < c { BelowMono(col, 0, d + 1, c); }
    if c < d { BelowMono(col, 0, c + 1, d); }
  }
}
