/**
 The decoder's memory for a block: the column as it comes in, the inverse built over it, and the bytes fetched through
 it.
*/
module BlockStore {
  import opened Bits
  import opened Occurrences
  import opened InverseBwt
  import opened MoveToFront
  import opened BlockRows
  import opened PackedLinks

  /** The most a block holds at the largest level. */
  const LARGEST := 900000

  class Store {
    /** smallDecompress; tt is used without it, ll16 and ll4 with it. */
    const small: bool
    const tt: array<nat>
    const ll: LinkArray
    const unzftab: array<nat>
    const cftab: array<nat>
    const cftabCopy: array<nat>
    ghost const repr: set<object>
    var nblock: nat
    var tPos: nat
    /** The column, the row of the block's first byte, and how many bytes have been fetched. */
    ghost var col: seq<byte>
    ghost var orig: nat
    ghost var fetched: nat

    ghost predicate Shaped() {
      && tt.Length == LARGEST && ll.Shaped(LARGEST) && unzftab.Length == 256 && cftab.Length == cftabCopy.Length == 257
      && tt != unzftab && tt != cftab && tt != cftabCopy && unzftab != cftab && unzftab != cftabCopy
      && cftab != cftabCopy
      && ll.ll16 != tt && ll.ll16 != unzftab && ll.ll16 != cftab && ll.ll16 != cftabCopy
      && (ll.ll4 as object) != tt && (ll.ll4 as object) != unzftab && (ll.ll4 as object) != cftab
      && (ll.ll4 as object) != cftabCopy
      && repr == {this, tt, ll.ll16, ll.ll4, unzftab, cftab, cftabCopy}
    }

    /** While symbols come in: the bytes so far, and how often each occurs. */
    ghost predicate Filling()
      reads this, tt, ll.ll16, unzftab
    {
      && Shaped() && nblock == |col| <= LARGEST
      && (forall i :: 0 <= i < nblock ==> (if small then ll.ll16[i] else tt[i]) == col[i])
      && (forall c :: 0 <= c < 256 ==> unzftab[c] == Count(col, c))
    }

    constructor (small: bool)
      ensures Shaped() && fresh(repr) && this.small == small
    {
      var words, counts, starts, copy := new nat[900000], new nat[256], new nat[257], new nat[257];
      var links := new LinkArray(900000);
      this.small, tt, ll, unzftab, cftab, cftabCopy := small, words, links, counts, starts, copy;
      nblock, tPos, col, orig, fetched := 0, 0, [], 0, 0;
      repr := {this, words, links.ll16, links.ll4, counts, starts, copy};
    }

    /** unzftab[i] = 0 for all i; nblock = 0. */
    method Begin()
      requires Shaped()
      modifies this`nblock, this`col, unzftab
      ensures Filling() && col == []
    {
      for i := 0 to 256
        invariant forall c :: 0 <= c < i ==> unzftab[c] == 0
      {
        unzftab[i] := 0;
      }
      nblock, col := 0, [];
    }

    /** One byte of the column: ll16[nblock] or tt[nblock], and nblock++. */
    method Store(uc: byte)
      requires Shaped() && nblock < LARGEST
      modifies this`nblock, tt, ll.ll16
      ensures nblock == old(nblock) + 1 && (if small then ll.ll16[old(nblock)] else tt[old(nblock)]) == uc
      ensures forall i :: 0 <= i < old(nblock) ==> ll.ll16[i] == old(ll.ll16[i]) && tt[i] == old(tt[i])
    {
      if small { ll.ll16[nblock] := uc; } else { tt[nblock] := uc; }
      nblock := nblock + 1;
    }

    /** A byte that is not part of a run, when there is room. */
    method PutOne(uc: byte)
      requires Filling() && nblock < LARGEST
      modifies this`nblock, this`col, unzftab, tt, ll.ll16
      ensures Filling() && col == old(col) + [uc]
    {
      unzftab[uc] := unzftab[uc] + 1;
      Store(uc);
      CountsSnoc(col, uc);
      col := col + [uc];
    }

    /** A run of es bytes; false when it does not fit. */
    method PutRun(uc: byte, es: nat, nblockMAX: nat) returns (ok: bool)
      requires Filling() && nblock <= nblockMAX <= LARGEST
      modifies this`nblock, this`col, unzftab, tt, ll.ll16
      ensures ok <==> |old(col)| + es <= nblockMAX
      ensures ok ==> Filling() && col == old(col) + Repeat(uc, es)
    {
      hide Repeat, Count;
      ghost var was := col;
      unzftab[uc] := unzftab[uc] + es;
      var left := es;
      RepeatNone(uc, was);
      while left > 0
        invariant 0 <= left <= es && nblock == |was| + (es - left) <= nblockMAX && col == was + Repeat(uc, es - left)
        invariant forall i :: 0 <= i < nblock ==> (if small then ll.ll16[i] else tt[i]) == col[i]
        invariant forall c :: 0 <= c < 256 ==> unzftab[c] == Count(was, c) + if c == uc then es else 0
      {
        if nblock >= nblockMAX { return false; }
        Store(uc);
        RepeatOneMore(uc, es - left, was);
        col := col + [uc];
        left := left - 1;
      }
      CountsRepeat(was, uc, es);
      ok := true;
    }

    // ---------- building the inverse ----------

    /** cftab: the number of bytes below each value. */
    method FillCftab()
      requires Filling()
      modifies cftab
      ensures Starts(cftab[..], col)
    {
      hide Below, Count;
      cftab[0] := 0;
      for i := 1 to 257
        invariant cftab[0] == 0 && forall c :: 1 <= c < i ==> cftab[c] == Count(col, c - 1)
      {
        cftab[i] := unzftab[i - 1];
      }
      BelowNone(col);
      for i := 1 to 257
        invariant forall c :: 0 <= c < i ==> cftab[c] == Below(col, 0, c)
        invariant forall c :: i <= c <= 256 ==> cftab[c] == Count(col, c - 1)
      {
        BelowNext(col, 0, i - 1);
        cftab[i] := cftab[i] + cftab[i - 1];
      }
    }

    /** The range and order checks on unzftab and cftab; they never fail. */
    method CheckTables() returns (ok: bool)
      requires Filling() && Starts(cftab[..], col)
      ensures ok
    {
      hide Below, Count;
      for i := 0 to 256 {
        OccLength(col, i);
        if unzftab[i] > nblock { return false; }
      }
      for i := 0 to 257 {
        StartsBounds(cftab[..], col, i);
        if cftab[i] > nblock { return false; }
      }
      for i := 1 to 257 {
        StartsBounds(cftab[..], col, i);
        if cftab[i - 1] > cftab[i] { return false; }
      }
      ok := true;
    }

    /** T^(-1) above the bytes of tt. */
    method LinkWords()
      requires Filling() && !small && Starts(cftab[..], col)
      modifies tt, cftab
      ensures Words(tt[..], col, nblock)
    {
      hide Below, Count, WordAt, TInv;
      WordsStart(tt[..], col);
      NextsFrom(cftab[..], col);
      for i := 0 to nblock
        invariant Words(tt[..], col, i) && Nexts(cftab[..], col, i)
      {
        LinkWord(i);
      }
    }

    /** One round of the loop over tt. */
    method LinkWord(i: nat)
      requires Shaped() && i < nblock == |col| <= LARGEST && Words(tt[..], col, i) && Nexts(cftab[..], col, i)
      modifies tt, cftab
      ensures Words(tt[..], col, i + 1) && Nexts(cftab[..], col, i + 1)
    {
      hide Below, Count, WordAt, TInv, Words, Nexts, Or;
      ghost var w, next := tt[..], cftab[..];
      ByteOfWord(w, col, i, i);
      var uc: byte := tt[i] % 256;
      ghost var r := RowOf(col, i);
      NextIs(next, col, i);
      WordsStep(w, col, i, r);
      OrWord(col[r], i);
      NextsStep(next, col, i);
      SetWord(uc, i, r);
    }

    /** The position goes above the byte of row r, and the byte's next row is the one after. */
    method SetWord(uc: byte, i: nat, ghost r: nat)
      requires Shaped() && cftab[uc] == r < LARGEST && tt[r] < 256 && Or(tt[r], 256 * i) == tt[r] + 256 * i
      modifies tt, cftab
      ensures tt[..] == old(tt[..])[r := old(tt[r]) + 256 * i] && cftab[..] == old(cftab[..])[uc := old(cftab[uc]) + 1]
    {
      hide Or;
      tt[cftab[uc]] := Or(tt[cftab[uc]], 256 * i);
      cftab[uc] := cftab[uc] + 1;
    }

    method CopyStarts()
      requires Shaped()
      modifies cftabCopy
      ensures cftabCopy[..] == cftab[..]
    {
      for i := 0 to 257
        invariant forall c :: 0 <= c < i ==> cftabCopy[c] == cftab[c]
      {
        cftabCopy[i] := cftab[i];
      }
    }

    /** T over the bytes of ll16. */
    method LinkForward()
      requires Filling() && small && Starts(cftab[..], col)
      modifies ll.ll16, ll.ll4, cftabCopy
      ensures nblock <= LARGEST && Forward(Links(ll.ll16[..], ll.ll4[..], nblock), col)
      ensures forall i :: 0 <= i < nblock ==> ll.ll16[i] < 65536
    {
      hide Below, Count, TInv, Link;
      CopyStarts();
      NextsFrom(cftabCopy[..], col);
      for i := 0 to nblock
        invariant Nexts(cftabCopy[..], col, i)
        invariant forall k :: i <= k < nblock ==> ll.ll16[k] == col[k]
        invariant forall k: nat :: k < i ==> ll.ll16[k] < 65536 && RowFor(Link(ll.ll16[..], ll.ll4[..], k), col, k)
      {
        LinkOne(i);
      }
      TInvLength(col);
    }

    /** One round of the loop over ll16. */
    method LinkOne(i: nat)
      requires Shaped() && i < nblock == |col| <= LARGEST && Nexts(cftabCopy[..], col, i) && ll.ll16[i] == col[i]
      modifies ll.ll16, ll.ll4, cftabCopy
      ensures Nexts(cftabCopy[..], col, i + 1)
      ensures ll.ll16[i] < 65536 && RowFor(Link(ll.ll16[..], ll.ll4[..], i), col, i)
      ensures forall k: nat :: k < LARGEST && k != i ==>
                ll.ll16[k] == old(ll.ll16[k])
                && Link(ll.ll16[..], ll.ll4[..], k) == old(Link(ll.ll16[..], ll.ll4[..], k))
    {
      hide Below, Count, TInv, Link, Nexts;
      ghost var next := cftabCopy[..];
      var uc: byte := ll.ll16[i];
      ghost var r := RowOf(col, i);
      NextIs(next, col, i);
      NextsStep(next, col, i);
      ll.Set(i, cftabCopy[uc]);
      cftabCopy[uc] := cftabCopy[uc] + 1;
      assert cftabCopy[..] == next[col[i] := next[col[i]] + 1];
    }

    /** The links of the block. */
    ghost function Chain(): seq<nat>
      requires Shaped() && nblock <= LARGEST
      reads this`nblock, ll.ll16, ll.ll4
    {
      Links(ll.ll16[..], ll.ll4[..], nblock)
    }

    /** Every first half fits in sixteen bits. */
    ghost predicate Halved()
      requires Shaped() && nblock <= LARGEST
      reads this`nblock, ll.ll16
    {
      forall i :: 0 <= i < nblock ==> ll.ll16[i] < 65536
    }

    /** T^(-1) by pointer reversal on T, along the cycle through origPtr. */
    method Reverse(origPtr: nat)
      requires Shaped() && origPtr < nblock == |col| <= LARGEST && Forward(Chain(), col) && Halved()
      modifies ll.ll16, ll.ll4
      ensures Reversed(Chain(), col, origPtr) && Halved()
    {
      hide Forward, Turning, Reversed, Ahead, Link, Links, TInv, RowAt;
      ghost var t, k := Chain(), 0;
      TurningStart(t, col, origPtr);
      var i := origPtr;
      AheadZero(t, origPtr);
      TurningNext(t, t, col, origPtr, 0);
      AheadNext(t, col, origPtr, 0);
      var j := ll.Get(i);
      var again := true;
      while again
        invariant Halved() && k < nblock
        invariant again ==> Turning(Chain(), t, col, origPtr, k) && i == Ahead(t, origPtr, k) < nblock
                            && j == Ahead(t, origPtr, k + 1)
        invariant !again ==> Reversed(Chain(), col, origPtr)
        decreases nblock - k + if again then 1 else 0
      {
        TurningNext(Chain(), t, col, origPtr, k);
        AheadNext(t, col, origPtr, k + 1);
        var tmp := ll.Get(j);
        TurnLink(i, j, t, origPtr, k);
        i := j;
        j := tmp;
        again := i != origPtr;
        if again {
          k := k + 1;
          TurningShort(Chain(), t, col, origPtr, k);
        }
      }
    }

    /** SET_LL(j, i) turns the link of the row after i. */
    method TurnLink(i: nat, j: nat, ghost t: seq<nat>, ghost p: nat, ghost k: nat)
      requires Shaped() && nblock == |col| <= LARGEST && Halved() && Turning(Chain(), t, col, p, k)
      requires i == Ahead(t, p, k) < nblock && j == Ahead(t, p, k + 1) < nblock
      modifies ll.ll16, ll.ll4
      ensures Halved()
      ensures if j == p then Reversed(Chain(), col, p) else Turning(Chain(), t, col, p, k + 1)
    {
      hide Forward, Turning, Reversed, Ahead, Link, TInv, RowAt;
      ghost var link := Chain();
      if j == p { TurningDone(link, t, col, p, k); } else { TurningStep(link, t, col, p, k); }
      ll.Set(j, i);
      assert Chain() == link[j := i];
    }

    // ---------- fetching bytes ----------

    /** The inverse is built, and tPos is where fetching has come to. */
    ghost predicate Ready()
      reads this, tt, cftab, ll.ll16, ll.ll4
    {
      && Shaped() && 0 < nblock == |col| <= LARGEST && orig < nblock
      && if small then Reversed(Chain(), col, orig) && Halved() && Starts(cftab[..], col)
      && tPos == RowAt(col, orig, fetched)
         else Words(tt[..], col, nblock) && tPos == RowAt(col, orig, fetched + 1)
    }

    /** The bytes fetched so far. */
    ghost function Fetched(): seq<byte>
      reads this`col, this`orig, this`fetched
    {
      Read(col, orig, fetched)
    }

    /** From the end of the column to before the first fetch; false is the failure of one of the checks. */
    method Prepare(origPtr: nat) returns (ok: bool)
      requires Filling() && origPtr < nblock
      modifies this`tPos, this`orig, this`fetched, tt, ll.ll16, ll.ll4, cftab, cftabCopy
      ensures ok && Ready() && orig == origPtr && fetched == 0
    {
      hide Starts, Below, Count, TInv, Words, Forward, Reversed, RowAt, Links, Link;
      FillCftab();
      ok := CheckTables();
      if !ok { return; }
      orig, fetched := origPtr, 0;
      RowStart(col, origPtr);
      if small {
        LinkForward();
        Reverse(origPtr);
        tPos := origPtr;
      } else {
        LinkWords();
        WordParts(tt[..], col, origPtr);
        tPos := tt[origPtr] / 256;
      }
    }

    /** BZ_GET_FAST: corrupt when tPos lies outside the block's memory, which it never does. */
    method GetFast(limit: nat) returns (corrupt: bool, c: byte)
      requires Ready() && !small && nblock <= limit
      modifies this`tPos, this`fetched
      ensures !corrupt && Ready() && fetched == old(fetched) + 1 && Fetched() == old(Fetched()) + [c]
    {
      hide TInv, Words, Reversed, RowAt, Read, Starts, Links, Link;
      c := 0;
      RowIn(col, orig, fetched + 1);
      if tPos >= limit { return true, c; }
      corrupt := false;
      WordParts(tt[..], col, tPos);
      ReadMore(col, orig, fetched);
      RowMore(col, orig, fetched + 1);
      tPos := tt[tPos];
      c := tPos % 256;
      tPos := tPos / 256;
      fetched := fetched + 1;
    }

    /** BZ_GET_SMALL. */
    method GetSmall(limit: nat) returns (corrupt: bool, c: byte)
      requires Ready() && small && nblock <= limit
      modifies this`tPos, this`fetched
      ensures !corrupt && Ready() && fetched == old(fetched) + 1 && Fetched() == old(Fetched()) + [c]
    {
      hide TInv, Words, Reversed, RowAt, Read, Starts, Links, Link;
      c := 0;
      RowIn(col, orig, fetched);
      if tPos >= limit { return true, c; }
      corrupt := false;
      RowMore(col, orig, fetched);
      ReversedAt(Chain(), col, orig, fetched);
      ReadMore(col, orig, fetched);
      c := IndexIntoF(tPos);
      tPos := ll.Get(tPos);
      fetched := fetched + 1;
    }

    /** BZ2_indexIntoF, by halving: the byte whose rows hold indx. */
    method IndexIntoF(indx: nat) returns (nb: byte)
      requires Shaped() && Starts(cftab[..], col) && indx < |col|
      ensures |TInv(col)| == |col| && TInv(col)[indx] < |col| && nb == col[TInv(col)[indx]]
    {
      hide TInv, Starts;
      var lo, na := 0, 256;
      StartsBounds(cftab[..], col, 256);
      while na - lo != 1
        invariant 0 <= lo < na <= 256 && cftab[lo] <= indx < cftab[na]
        decreases na - lo
      {
        var mid := (lo + na) / 2;
        if indx >= cftab[mid] { lo := mid; } else { na := mid; }
      }
      nb := lo;
      TInvIn(col, indx);
      ByteOfRow(cftab[..], col, indx, nb);
    }
  }

  lemma RowStart(col: seq<byte>, p: nat)
    requires p < |col|
    ensures |TInv(col)| == |col| && RowAt(col, p, 0) == p && RowAt(col, p, 1) == TInv(col)[p]
  {
    TInvIn(col, p);
    hide TInv;
    assert RowAt(col, p, 0) == p;
  }

  lemma RowMore(col: seq<byte>, p: nat, k: nat)
    requires p < |col|
    ensures |TInv(col)| == |col| && RowAt(col, p, k) < |col| && RowAt(col, p, k + 1) == TInv(col)[RowAt(col, p, k)]
  {
    hide TInv;
    RowIn(col, p, k);
  }

  lemma ReversedAt(link: seq<nat>, col: seq<byte>, p: nat, k: nat)
    requires Reversed(link, col, p)
    ensures |link| == |col| == |TInv(col)| && RowAt(col, p, k) < |col|
            && link[RowAt(col, p, k)] == TInv(col)[RowAt(col, p, k)]
  {
    hide TInv;
  }

  lemma AheadZero(t: seq<nat>, p: nat)
    ensures Ahead(t, p, 0) == p
  {}

  lemma AheadNext(t: seq<nat>, col: seq<byte>, p: nat, k: nat)
    requires Forward(t, col) && p < |col|
    ensures Ahead(t, p, k) < |t| == |col| && Ahead(t, p, k + 1) == t[Ahead(t, p, k)]
  {
    AheadIn(t, col, p, k);
  }

  /** r is the row of position k. */
  ghost predicate RowFor(r: nat, col: seq<byte>, k: nat) {
    r < |col| == |TInv(col)| && TInv(col)[r] == k
  }

  lemma BelowNone(col: seq<byte>)
    ensures Below(col, 0, 0) == 0
  {}

  lemma NextsFrom(next: seq<nat>, col: seq<byte>)
    requires Starts(next, col)
    ensures Nexts(next, col, 0)
  {
    NextsStart(next, col);
  }

  lemma NextIs(next: seq<nat>, col: seq<byte>, i: nat)
    requires i < |col| && Nexts(next, col, i)
    ensures next[col[i]] == Below(col, 0, col[i]) + Count(col[..i], col[i]) && |next| >= 256
  {}

  lemma OrLow(a: nat, b: nat, n: nat, p: nat)
    requires p == Pow2(n) && b < p
    ensures Or(p * a, b) == p * a + b
  {
    hide Or, Pow2;
    DivModUnique(p * a, p, a, 0);
    OrDisjoint(p * a, b, n);
  }

  lemma OrWord(b: byte, i: nat)
    ensures Or(b, 256 * i) == b + 256 * i
  {
    hide Or, Pow2;
    Pow2Values();
    OrSwap(b, 256 * i);
    OrLow(i, b, 8, 256);
  }

  lemma CountsSnoc(col: seq<byte>, x: byte)
    ensures forall c :: 0 <= c < 256 ==> Count(col + [x], c) == Count(col, c) + if c == x then 1 else 0
  {
    forall c | 0 <= c < 256
      ensures Count(col + [x], c) == Count(col, c) + if c == x then 1 else 0
    {
      CountSnoc(col, x, c);
    }
  }

  lemma RepeatNone(x: byte, s: seq<byte>)
    ensures s + Repeat(x, 0) == s
  {}

  lemma RepeatOneMore(x: byte, k: nat, s: seq<byte>)
    ensures s + Repeat(x, k) + [x] == s + Repeat(x, k + 1)
  {}

  lemma {:induction false} CountsRepeat(col: seq<byte>, x: byte, k: nat)
    ensures forall c :: 0 <= c < 256 ==> Count(col + Repeat(x, k), c) == Count(col, c) + if c == x then k else 0
  {
    if k == 0 {
      RepeatNone(x, col);
    } else {
      CountsRepeat(col, x, k - 1);
      CountsSnoc(col + Repeat(x, k - 1), x);
      RepeatOneMore(x, k - 1, col);
    }
  }
}
