/** Move-to-front coding with bijective base-2 runs of the front element, and its inverse. */
module MoveToFront {
  import opened Bits

  const RUNA := 0
  const RUNB := 1
  /** The decoder's guard on the weight of a run digit. */
  const RUN_GUARD := 2 * 1024 * 1024

  function Repeat(c: byte, n: nat): (r: seq<byte>)
    ensures |r| == n
  {
    if n == 0 then [] else Repeat(c, n - 1) + [c]
  }

  /** l with its j-th element moved to the front. */
  function Front(l: seq<byte>, j: nat): (r: seq<byte>)
    requires j < |l|
    ensures |r| == |l|
  {
    [l[j]] + l[..j] + l[j + 1..]
  }

  /** The first position of x in l, or |l|. */
  function IndexOf(l: seq<byte>, x: byte): (j: nat)
    ensures j <= |l|
  {
    if l == [] || l[0] == x then 0 else 1 + IndexOf(l[1..], x)
  }

  lemma {:induction false} IndexOfFound(l: seq<byte>, x: byte)
    requires x in l
    ensures IndexOf(l, x) < |l| && l[IndexOf(l, x)] == x
  {
    if l[0] != x {
      assert x in l[1..];
      IndexOfFound(l[1..], x);
    }
  }

  // ---------- encoding ----------

  /** A run of z front elements, least significant digit first. */
  function Digits(z: nat): seq<nat> {
    if z == 0 then []
    else [if (z - 1) % 2 == 1 then RUNB else RUNA] + Digits((z - 1) / 2)
  }

  /** What has been emitted, how many front elements are pending, and the list. */
  datatype Enc = Enc(out: seq<nat>, zPend: nat, list: seq<byte>)

  function EncStep(e: Enc, x: byte): Enc {
    if e.list == [] then e
    else if e.list[0] == x then e.(zPend := e.zPend + 1)
    else
      var j := IndexOf(e.list, x);
      if j == |e.list| then e
      else Enc(e.out + Digits(e.zPend) + [j + 1], 0, Front(e.list, j))
  }

  function EncFold(list: seq<byte>, col: seq<byte>): Enc {
    if col == [] then Enc([], 0, list)
    else EncStep(EncFold(list, col[..|col| - 1]), col[|col| - 1])
  }

  /** The symbols sent for a column over the given list of bytes in use. */
  function MtfCode(list: seq<byte>, col: seq<byte>): seq<nat> {
    var e := EncFold(list, col);
    e.out + Digits(e.zPend) + [|list| + 1]
  }

  // ---------- decoding ----------

  datatype Run = NoRun | Run(es: int, N: nat)

  /** The run being read, the list, and the column so far. */
  datatype SymState = SymState(run: Run, list: seq<byte>, col: seq<byte>)
  datatype SymResult = Go(s: SymState) | Done(col: seq<byte>) | Bad

  /** The column with the pending run written out. */
  function Flushed(s: SymState): seq<byte> {
    if s.run.Run? && s.run.es >= 0 && s.list != [] then s.col + Repeat(s.list[0], s.run.es + 1) else s.col
  }

  function SymStep(s: SymState, sym: nat, max: nat): SymResult {
    if sym == RUNA || sym == RUNB then
      var (es, N) := if s.run.Run? then (s.run.es, s.run.N) else (-1, 1);
      if N >= RUN_GUARD then Bad else Go(s.(run := Run(es + if sym == RUNA then N else 2 * N, 2 * N)))
    else
      var col := Flushed(s);
      if |col| > max then Bad
      else if sym == |s.list| + 1 then Done(col)
      else if |col| >= max || sym > |s.list| then Bad
      else Go(SymState(NoRun, Front(s.list, sym - 1), col + [s.list[sym - 1]]))
  }

  function SymRun(s: SymState, syms: seq<nat>, max: nat): SymResult
    decreases |syms|
  {
    if syms == [] then Go(s)
    else match SymStep(s, syms[0], max)
      case Go(s') => SymRun(s', syms[1..], max)
      case Done(col) => Done(col)
      case Bad => Bad
  }

  lemma {:induction false} SymRunAppend(s: SymState, a: seq<nat>, b: seq<nat>, max: nat)
    requires SymRun(s, a, max).Go?
    ensures SymRun(s, a + b, max) == SymRun(SymRun(s, a, max).s, b, max)
    decreases |a|
  {
    hide SymStep;
    if a == [] {
      assert a + b == b;
    } else {
      var s' := SymStep(s, a[0], max).s;
      SymRunAppend(s', a[1..], b, max);
      assert (a + b)[1..] == a[1..] + b;
    }
  }

  // ---------- the round trip ----------

  /** The weight of the digit after those of z, when the first has weight n. */
  function WeightAfter(z: nat, n: nat): nat
    decreases z
  {
    if z == 0 then n else WeightAfter((z - 1) / 2, 2 * n)
  }

  lemma HalfWeight(z: nat, n: nat)
    requires z > 0
    ensures var h := (z - 1) / 2;
            h * (2 * n) + (if (z - 1) % 2 == 1 then 2 * n else n) == z * n
  {
    var h, r := (z - 1) / 2, (z - 1) % 2;
    assert z == 1 + r + 2 * h;
    assert z * n == n + r * n + h * (2 * n);
  }

  /** Reading the digits of z adds z times the current weight; the guard never fires below 2M. */
  lemma {:induction false} DigitsValue(s: SymState, z: nat, es: int, n: nat, zn: nat, max: nat)
    requires s.run == Run(es, n) || (s.run == NoRun && es == -1 && n == 1)
    requires n > 0 && z > 0 && zn == z * n < RUN_GUARD
    ensures SymRun(s, Digits(z), max) == Go(s.(run := Run(es + zn, WeightAfter(z, n))))
    decreases z
  {
    var d, h := Digits(z)[0], (z - 1) / 2;
    var w := if d == RUNA then n else 2 * n;
    HalfWeight(z, n);
    MulLe(1, z, n);
    MulLe(0, h, 2 * n);
    var s' := s.(run := Run(es + w, 2 * n));
    assert SymStep(s, d, max) == Go(s');
    assert Digits(z)[1..] == Digits(h);
    if h > 0 {
      DigitsValue(s', h, es + w, 2 * n, zn - w, max);
    } else {
      assert SymRun(s', [], max) == Go(s');
    }
  }

  lemma {:induction false} DigitsBound(z: nat)
    ensures |Digits(z)| <= z
    ensures forall k :: 0 <= k < |Digits(z)| ==> Digits(z)[k] <= RUNB
  {
    if z > 0 { DigitsBound((z - 1) / 2); }
  }

  /** What holds of the encoder after a column: decoding what it sent gives the column up to the pending run. */
  ghost predicate EncInv(list: seq<byte>, e: Enc, col: seq<byte>, max: nat) {
    && e.list != [] && (forall x :: x in list ==> x in e.list) && |e.list| == |list|
    && e.zPend <= |col|
    && col[|col| - e.zPend..] == Repeat(e.list[0], e.zPend)
    && SymRun(SymState(NoRun, list, []), e.out, max) == Go(SymState(NoRun, e.list, col[..|col| - e.zPend]))
  }

  lemma FrontKeeps(l: seq<byte>, j: nat)
    requires j < |l|
    ensures forall x :: x in l ==> x in Front(l, j)
  {
    forall x | x in l
      ensures x in Front(l, j)
    {
      var k :| 0 <= k < |l| && l[k] == x;
      if k < j { assert Front(l, j)[k + 1] == x; }
      else if k == j { assert Front(l, j)[0] == x; }
      else { assert Front(l, j)[k] == x; }
    }
  }

  /** After a pending run and a non-run symbol, the decoder has caught up. */
  lemma CatchUp(s: SymState, z: nat, sym: nat, max: nat)
    requires s.run == NoRun && s.list != [] && z < RUN_GUARD && sym >= 2
    ensures SymRun(s, Digits(z) + [sym], max) == SymStep(s.(col := s.col + Repeat(s.list[0], z)), sym, max)
  {
    if z == 0 {
      assert Digits(z) + [sym] == [sym] && s.col + [] == s.col;
      LastSymbol(s, sym, max);
    } else {
      DigitsValue(s, z, -1, 1, z, max);
      SymRunAppend(s, Digits(z), [sym], max);
      LastSymbol(s.(run := Run(z - 1, WeightAfter(z, 1))), sym, max);
    }
  }

  lemma LastSymbol(s: SymState, sym: nat, max: nat)
    ensures SymRun(s, [sym], max) == SymStep(s, sym, max)
  {
    assert [sym][1..] == [];
  }

  lemma {:induction false} EncKeeps(list: seq<byte>, col: seq<byte>, max: nat)
    requires list != [] && |col| <= max < RUN_GUARD
    requires forall k :: 0 <= k < |col| ==> col[k] in list
    ensures EncInv(list, EncFold(list, col), col, max)
    decreases |col|
  {
    if col != [] {
      var n := |col| - 1;
      var prev, x := col[..n], col[n];
      EncKeeps(list, prev, max);
      assert col == prev + [x];
      if EncFold(list, prev).list[0] == x {
        PendingKeeps(list, EncFold(list, prev), prev, x, max);
      } else {
        SymbolKeeps(list, EncFold(list, prev), prev, x, max);
      }
    }
  }

  lemma PendingKeeps(list: seq<byte>, e: Enc, prev: seq<byte>, x: byte, max: nat)
    requires EncInv(list, e, prev, max) && e.list[0] == x
    ensures EncInv(list, EncStep(e, x), prev + [x], max)
  {
    var col, e' := prev + [x], EncStep(e, x);
    assert col[|col| - e'.zPend..] == prev[|prev| - e.zPend..] + [x];
    assert col[..|col| - e'.zPend] == prev[..|prev| - e.zPend];
  }

  lemma SymbolKeeps(list: seq<byte>, e: Enc, prev: seq<byte>, x: byte, max: nat)
    requires |prev| < max < RUN_GUARD && x in list && EncInv(list, e, prev, max) && e.list[0] != x
    ensures EncInv(list, EncStep(e, x), prev + [x], max)
  {
    var j, col := IndexOf(e.list, x), prev + [x];
    IndexOfFound(e.list, x);
    FrontKeeps(e.list, j);
    SymbolDecodes(list, e, prev, x, j, max);
    assert col[|col|..] == [] && col[..|col|] == col;
  }

  lemma SymbolDecodes(list: seq<byte>, e: Enc, prev: seq<byte>, x: byte, j: nat, max: nat)
    requires |prev| < max < RUN_GUARD && EncInv(list, e, prev, max)
    requires 0 < j < |e.list| && e.list[j] == x
    ensures SymRun(SymState(NoRun, list, []), e.out + Digits(e.zPend) + [j + 1], max)
         == Go(SymState(NoRun, Front(e.list, j), prev + [x]))
  {
    var z := e.zPend;
    var done := prev[..|prev| - z];
    var init, s, more := SymState(NoRun, list, []), SymState(NoRun, e.list, done), Digits(z) + [j + 1];
    CatchUp(s, z, j + 1, max);
    assert done + Repeat(e.list[0], z) == prev;
    SymRunAppend(init, e.out, more, max);
    assert e.out + more == e.out + Digits(z) + [j + 1];
  }

  /** Decoding the symbols of any column over the bytes in use gives back the column, and ends at the end symbol. */
  lemma MtfRoundTrip(list: seq<byte>, col: seq<byte>, max: nat)
    requires list != [] && |col| <= max < RUN_GUARD
    requires forall k :: 0 <= k < |col| ==> col[k] in list
    ensures SymRun(SymState(NoRun, list, []), MtfCode(list, col), max) == Done(col)
  {
    EncKeeps(list, col, max);
    var e, eob := EncFold(list, col), |list| + 1;
    var done := col[..|col| - e.zPend];
    var init, s := SymState(NoRun, list, []), SymState(NoRun, e.list, done);
    CatchUp(s, e.zPend, eob, max);
    assert done + Repeat(e.list[0], e.zPend) == col;
    SymRunAppend(init, e.out, Digits(e.zPend) + [eob], max);
    assert MtfCode(list, col) == e.out + (Digits(e.zPend) + [eob]);
  }

  /** Emitted symbols and pending run never outgrow the column read, and symbols stay in the alphabet. */
  lemma {:induction false} EncBounds(list: seq<byte>, col: seq<byte>)
    ensures var e := EncFold(list, col);
            |e.list| == |list| && |e.out| + e.zPend <= |col|
            && forall k :: 0 <= k < |e.out| ==> e.out[k] <= |list|
    decreases |col|
  {
    if col != [] {
      var prev := col[..|col| - 1];
      EncBounds(list, prev);
      DigitsBound(EncFold(list, prev).zPend);
    }
  }

  // ---------- the other way round ----------

  predicate Distinct(l: seq<byte>) {
    forall i, j :: 0 <= i < j < |l| ==> l[i] != l[j]
  }

  lemma {:induction false} IndexOfAt(l: seq<byte>, j: nat)
    requires Distinct(l) && j < |l|
    ensures IndexOf(l, l[j]) == j
  {
    if j > 0 {
      assert l[0] != l[j];
      IndexOfAt(l[1..], j - 1);
    }
  }

  lemma FrontDistinct(l: seq<byte>, j: nat)
    requires Distinct(l) && j < |l|
    ensures Distinct(Front(l, j)) && forall x :: x in Front(l, j) ==> x in l
  {}

  /** The symbols take the decoder from s to the end of the column, with the last of them. */
  predicate Spells(s: SymState, syms: seq<nat>, max: nat, col: seq<byte>)
    decreases |syms|
  {
    && syms != []
    && match SymStep(s, syms[0], max)
       case Go(s') => Spells(s', syms[1..], max, col)
       case Done(c) => syms[1..] == [] && c == col
       case Bad => false
  }

  /** How many front elements are pending in the run being read. */
  function Pending(r: Run): int {
    if r.Run? then r.es + 1 else 0
  }

  /** The decoder has read what the encoder would have sent for the column so far. */
  ghost predicate Mirrors(list: seq<byte>, done: seq<nat>, s: SymState, max: nat) {
    && s.list != [] && Distinct(s.list) && |s.list| == |list| && (forall x :: x in s.list ==> x in list)
    && (forall k :: 0 <= k < |s.col| ==> s.col[k] in list) && |s.col| <= max
    && Pending(s.run) >= 0 && (s.run.Run? ==> s.run.N == WeightAfter(Pending(s.run), 1))
    && EncFold(list, s.col).zPend == 0 && EncFold(list, s.col).list == s.list
    && done == EncFold(list, s.col).out + Digits(Pending(s.run))
  }

  lemma {:induction false} WeightDouble(z: nat, n: nat)
    ensures WeightAfter(z, 2 * n) == 2 * WeightAfter(z, n)
    decreases z
  {
    if z > 0 { WeightDouble((z - 1) / 2, 2 * n); }
  }

  /** One more digit, above those of z. */
  lemma {:induction false} DigitAbove(z: nat, w: nat, d: nat)
    requires w == WeightAfter(z, 1) && (d == RUNA || d == RUNB)
    ensures var y := z + if d == RUNA then w else 2 * w;
            Digits(y) == Digits(z) + [d] && WeightAfter(y, 1) == 2 * w
    decreases z
  {
    if z == 0 {
      assert Digits(0) == [] && Digits(1) == [RUNA] && Digits(2) == [RUNB];
    } else {
      var h := (z - 1) / 2;
      WeightDouble(h, 1);
      DigitAbove(h, WeightAfter(h, 1), d);
      DigitOver(z, h, WeightAfter(h, 1), w, d);
    }
  }

  lemma DigitOver(z: nat, h: nat, v: nat, w: nat, d: nat)
    requires z > 0 && h == (z - 1) / 2 && w == 2 * v && (d == RUNA || d == RUNB)
    requires var g := h + if d == RUNA then v else 2 * v;
             Digits(g) == Digits(h) + [d] && WeightAfter(g, 1) == 2 * v
    ensures var y := z + if d == RUNA then w else 2 * w;
            Digits(y) == Digits(z) + [d] && WeightAfter(y, 1) == 2 * w
  {
    hide Digits, WeightAfter;
    var g := h + if d == RUNA then v else 2 * v;
    LowDigit(z, h, g, if d == RUNA then w else 2 * w);
    WeightDouble(g, 1);
    LowDigit(z, h, h, 0);
  }

  lemma LowDigit(z: nat, h: nat, g: nat, a: nat)
    requires z > 0 && h == (z - 1) / 2 && g >= h && a == 2 * (g - h)
    ensures |Digits(z)| > 0
    ensures Digits(z + a) == [Digits(z)[0]] + Digits(g) && WeightAfter(z + a, 1) == WeightAfter(g, 2)
  {
    assert (z + a - 1) / 2 == g && (z + a - 1) % 2 == (z - 1) % 2;
  }

  lemma {:induction false} FoldFronts(list: seq<byte>, col: seq<byte>, z: nat)
    requires EncFold(list, col).zPend == 0 && EncFold(list, col).list != []
    ensures var e := EncFold(list, col);
            EncFold(list, col + Repeat(e.list[0], z)) == e.(zPend := z)
    decreases z
  {
    var e := EncFold(list, col);
    var x := e.list[0];
    if z == 0 {
      assert col + [] == col;
    } else {
      FoldFronts(list, col, z - 1);
      var r := Repeat(x, z - 1);
      assert col + Repeat(x, z) == col + r + [x];
      assert (col + r + [x])[..|col + r|] == col + r;
    }
  }

  /** The column with the pending run written out. */
  lemma FlushMirrors(list: seq<byte>, done: seq<nat>, s: SymState, max: nat)
    requires Mirrors(list, done, s, max)
    ensures var e := EncFold(list, Flushed(s));
            e.out + Digits(e.zPend) == done && e.list == s.list
    ensures forall k :: 0 <= k < |Flushed(s)| ==> Flushed(s)[k] in list
  {
    hide EncFold, Digits, Distinct, WeightAfter;
    var z := Pending(s.run);
    FoldFronts(list, s.col, z);
    RepeatIn(s.list[0], z);
    assert Flushed(s) == s.col + Repeat(s.list[0], z) by { assert s.col + [] == s.col; }
  }

  /** A byte moves to the front in the encoder too. */
  lemma EncMoves(list: seq<byte>, col: seq<byte>, j: nat)
    requires var l := EncFold(list, col).list;
             0 < j < |l| && Distinct(l)
    ensures var e := EncFold(list, col);
            EncFold(list, col + [e.list[j]]) == Enc(e.out + Digits(e.zPend) + [j + 1], 0, Front(e.list, j))
  {
    var e := EncFold(list, col);
    IndexOfAt(e.list, j);
    assert e.list[0] != e.list[j];
    assert (col + [e.list[j]])[..|col|] == col;
    hide Digits, Front;
  }

  lemma StepMoves(s: SymState, sym: nat, max: nat)
    requires 2 <= sym && SymStep(s, sym, max).Go?
    ensures sym - 1 < |s.list| && |Flushed(s)| < max
    ensures SymStep(s, sym, max).s == SymState(NoRun, Front(s.list, sym - 1), Flushed(s) + [s.list[sym - 1]])
  {
    hide Front, Flushed;
  }

  /** A symbol that moves a byte to the front. */
  lemma MoveMirrors(list: seq<byte>, done: seq<nat>, s: SymState, sym: nat, max: nat)
    requires Mirrors(list, done, s, max) && 2 <= sym && SymStep(s, sym, max).Go?
    ensures Mirrors(list, done + [sym], SymStep(s, sym, max).s, max)
  {
    hide EncFold, Distinct, WeightAfter, Flushed, Front, SymStep;
    FlushMirrors(list, done, s, max);
    StepMoves(s, sym, max);
    EncMoves(list, Flushed(s), sym - 1);
    FrontDistinct(s.list, sym - 1);
    MoreIn(list, Flushed(s), s.list[sym - 1]);
    assert Digits(0) == [] && done + [sym] + [] == done + [sym];
  }

  lemma MoreIn(list: seq<byte>, col: seq<byte>, x: byte)
    requires x in list && forall k :: 0 <= k < |col| ==> col[k] in list
    ensures forall k :: 0 <= k < |col + [x]| ==> (col + [x])[k] in list
  {}

  lemma {:induction false} RepeatIn(c: byte, n: nat)
    ensures forall k :: 0 <= k < n ==> Repeat(c, n)[k] == c
  {
    if n > 0 { RepeatIn(c, n - 1); }
  }

  /** A digit of a run. */
  lemma DigitMirrors(list: seq<byte>, done: seq<nat>, s: SymState, sym: nat, max: nat)
    requires Mirrors(list, done, s, max) && sym < 2 && SymStep(s, sym, max).Go?
    ensures Mirrors(list, done + [sym], SymStep(s, sym, max).s, max)
  {
    var z := Pending(s.run);
    DigitAbove(z, WeightAfter(z, 1), sym);
    var out := EncFold(list, s.col).out;
    assert out + Digits(z) + [sym] == out + (Digits(z) + [sym]);
    hide EncFold, WeightAfter, Digits;
  }

  /** The end symbol. */
  lemma EndMirrors(list: seq<byte>, done: seq<nat>, s: SymState, sym: nat, max: nat)
    requires Mirrors(list, done, s, max) && SymStep(s, sym, max).Done?
    ensures MtfCode(list, SymStep(s, sym, max).col) == done + [sym]
    ensures var col := SymStep(s, sym, max).col;
            |col| <= max && forall k :: 0 <= k < |col| ==> col[k] in list
  {
    FlushMirrors(list, done, s, max);
    hide EncFold, Distinct, WeightAfter, Flushed, Front, Digits;
  }

  lemma {:induction false} MirrorsOn(list: seq<byte>, done: seq<nat>, s: SymState, syms: seq<nat>, max: nat,
                                     col: seq<byte>)
    requires Mirrors(list, done, s, max) && Spells(s, syms, max, col)
    ensures MtfCode(list, col) == done + syms && |col| <= max && forall k :: 0 <= k < |col| ==> col[k] in list
    decreases |syms|
  {
    hide Mirrors, SymStep, MtfCode;
    var sym, tail := syms[0], syms[1..];
    assert done + syms == done + [sym] + tail;
    if SymStep(s, sym, max).Done? {
      EndMirrors(list, done, s, sym, max);
      assert done + [sym] + [] == done + [sym];
    } else {
      if sym < 2 { DigitMirrors(list, done, s, sym, max); } else { MoveMirrors(list, done, s, sym, max); }
      MirrorsOn(list, done + [sym], SymStep(s, sym, max).s, tail, max, col);
    }
  }

  /** The coding is one to one: whatever symbols the decoder takes for a column, they are those the encoder sends. */
  lemma MtfOnly(list: seq<byte>, syms: seq<nat>, max: nat, col: seq<byte>)
    requires list != [] && Distinct(list) && Spells(SymState(NoRun, list, []), syms, max, col)
    ensures MtfCode(list, col) == syms && |col| <= max && forall k :: 0 <= k < |col| ==> col[k] in list
  {
    hide Spells, MtfCode;
    MirrorsOn(list, [], SymState(NoRun, list, []), syms, max, col);
    assert [] + syms == syms;
  }
}
