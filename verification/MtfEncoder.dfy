/** generateMTFValues: move-to-front values written over the sorted pointers they are computed from. */
module MtfEncoder {
  import opened Bits
  import opened Occurrences
  import opened Rotations
  import opened InverseBwt
  import opened MoveToFront
  import opened StreamFormat

  const HALF := 0x1_0000

  /** Half-word w of arr1; e says which half of a word comes first in memory. */
  function Half(arr1: seq<nat>, e: nat, w: nat): nat
    requires w / 2 < |arr1|
  {
    if w % 2 == e then arr1[w / 2] % HALF else arr1[w / 2] / HALF
  }

  /** arr1 as half-words: mtfv. */
  function Halves(arr1: seq<nat>, e: nat): (m: seq<nat>)
    ensures |m| == 2 * |arr1| && forall w: nat :: w < 2 * |arr1| ==> m[w] == Half(arr1, e, w)
  {
    HalvesTo(arr1, e, 2 * |arr1|)
  }

  function HalvesTo(arr1: seq<nat>, e: nat, k: nat): (m: seq<nat>)
    requires k <= 2 * |arr1|
    ensures |m| == k && forall w: nat :: w < k ==> m[w] == Half(arr1, e, w)
  {
    if k == 0 then [] else HalvesTo(arr1, e, k - 1) + [Half(arr1, e, k - 1)]
  }

  /** mtfv[w] := v. */
  method PutHalf(arr1: array<nat>, e: nat, w: nat, v: nat)
    requires e <= 1 && w < 2 * arr1.Length && v < HALF
    modifies arr1
    ensures Halves(arr1[..], e) == Halves(old(arr1[..]), e)[w := v]
  {
    ghost var was := arr1[..];
    arr1[w / 2] := if w % 2 == e then HALF * (arr1[w / 2] / HALF) + v else arr1[w / 2] % HALF + HALF * v;
    forall u: nat | u < 2 * arr1.Length
      ensures Half(arr1[..], e, u) == if u == w then v else Half(was, e, u)
    {}
    assert Halves(arr1[..], e) == Halves(was, e)[w := v];
  }

  /** Entry i of ptr, put together from its halves. */
  function PtrAt(mem: seq<nat>, e: nat, i: nat): nat
    requires e <= 1 && 2 * i + 1 < |mem|
  {
    mem[2 * i + e] + HALF * mem[2 * i + 1 - e]
  }

  lemma PtrHalves(arr1: seq<nat>, e: nat, i: nat)
    requires e <= 1 && i < |arr1|
    ensures PtrAt(Halves(arr1, e), e, i) == arr1[i]
  {}

  /** arr1 still holds ptr from entry i on. */
  ghost predicate Holds(mem: seq<nat>, e: nat, ptr: seq<nat>, i: nat) {
    e <= 1 && 2 * |ptr| <= |mem| && forall k :: i <= k < |ptr| ==> PtrAt(mem, e, k) == ptr[k]
  }

  /** freq counts the symbols emitted so far. */
  ghost predicate Counts(freq: seq<nat>, out: seq<nat>, n: nat) {
    n <= |freq| && forall v :: 0 <= v < n ==> freq[v] == Count(out, v)
  }

  // ---------- makeMaps_e ----------

  /** unseqToSeq inverts the list of bytes in use. */
  ghost predicate Maps(m: seq<nat>, used: seq<byte>) {
    |m| == 256 && forall k :: 0 <= k < |used| ==> m[used[k]] == k
  }

  lemma {:induction false} UsedBelow(u: seq<bool>, k: nat)
    requires k < |Used(u)|
    ensures Used(u)[k] < |u| && u[Used(u)[k]]
  {
    if k < |Used(u[..|u| - 1])| { UsedBelow(u[..|u| - 1], k); }
  }

  lemma UsedStep(u: seq<bool>, i: nat)
    requires i < |u| <= 256
    ensures Used(u[..i + 1]) == Used(u[..i]) + if u[i] then [i as byte] else []
    ensures forall k :: 0 <= k < |Used(u[..i])| ==> Used(u[..i])[k] < i
  {
    assert u[..i + 1][..i] == u[..i];
    forall k | 0 <= k < |Used(u[..i])|
      ensures Used(u[..i])[k] < i
    {
      UsedBelow(u[..i], k);
    }
  }

  /** No byte is listed twice. */
  lemma {:induction false} UsedDistinct(u: seq<bool>, j: nat, k: nat)
    requires j < k < |Used(u)| && |u| <= 256
    ensures Used(u)[j] < Used(u)[k]
  {
    var n := |u| - 1;
    UsedStep(u, n);
    assert u[..n + 1] == u;
    if k < |Used(u[..n])| { UsedDistinct(u[..n], j, k); }
  }

  method MakeMaps(inUse: seq<bool>, unseqToSeq: array<nat>) returns (nInUse: nat)
    requires |inUse| == 256 == unseqToSeq.Length
    modifies unseqToSeq
    ensures nInUse == |Used(inUse)| && Maps(unseqToSeq[..], Used(inUse))
  {
    nInUse := 0;
    for i := 0 to 256
      invariant nInUse == |Used(inUse[..i])|
      invariant Maps(unseqToSeq[..], Used(inUse[..i]))
    {
      UsedStep(inUse, i);
      if inUse[i] {
        unseqToSeq[i] := nInUse;
        nInUse := nInUse + 1;
      }
    }
    assert inUse[..256] == inUse;
  }

  // ---------- emitting symbols ----------

  /** mtfv[wr] = v; wr++; mtfFreq[v]++. */
  method Emit(arr1: array<nat>, e: nat, freq: array<nat>, wr: nat, v: nat, n: nat, ghost mem: seq<nat>)
    requires arr1 != freq && e <= 1 && mem == Halves(arr1[..], e) && wr < |mem| && v < n <= freq.Length && v < HALF
    requires Counts(freq[..], mem[..wr], n)
    modifies arr1, freq
    ensures Halves(arr1[..], e) == mem[wr := v]
    ensures mem[wr := v][..wr + 1] == mem[..wr] + [v] && Counts(freq[..], mem[..wr] + [v], n)
  {
    hide Halves;
    PutHalf(arr1, e, wr, v);
    freq[v] := freq[v] + 1;
    CountMore(mem[..wr], v, n);
    assert mem[wr := v][..wr + 1] == mem[..wr] + [v];
  }

  lemma CountMore(s: seq<nat>, x: nat, n: nat)
    ensures forall v :: 0 <= v < n ==> Count(s + [x], v) == Count(s, v) + if v == x then 1 else 0
  {
    assert (s + [x])[..|s|] == s;
  }

  /** The loop that writes a pending run in bijective base two. */
  method EmitRun(arr1: array<nat>, e: nat, freq: array<nat>, wr: nat, run: nat, n: nat) returns (end: nat)
    requires arr1 != freq && e <= 1 && run > 0 && wr + run <= 2 * arr1.Length && 2 <= n <= freq.Length
    requires Counts(freq[..], Halves(arr1[..], e)[..wr], n)
    modifies arr1, freq
    ensures wr <= end <= wr + run && Halves(arr1[..], e)[..end] == Halves(old(arr1[..]), e)[..wr] + Digits(run)
    ensures forall k :: end <= k < 2 * arr1.Length ==> Halves(arr1[..], e)[k] == Halves(old(arr1[..]), e)[k]
    ensures Counts(freq[..], Halves(arr1[..], e)[..end], n)
  {
    hide *;
    end := wr;
    var zPend: nat := run - 1;
    ghost var done: seq<nat> := [];
    ghost var was := Halves(arr1[..], e);
    ghost var mem := was;
    FewDigits();
    while true
      invariant wr <= end < 2 * arr1.Length && mem == Halves(arr1[..], e) && mem[..end] == was[..wr] + done
      invariant end - wr + zPend + 1 <= run
      invariant Digits(run) == done + Digits(zPend + 1)
      invariant forall k :: end <= k < |mem| ==> mem[k] == was[k]
      invariant Counts(freq[..], mem[..end], n)
      decreases zPend
    {
      DigitsStep(done, zPend);
      var digit := if zPend % 2 == 1 then RUNB else RUNA;
      Emit(arr1, e, freq, end, digit, n, mem);
      mem := mem[end := digit];
      end := end + 1;
      done := done + [digit];
      if zPend < 2 { break; }
      zPend := (zPend - 2) / 2;
    }
  }

  lemma FewDigits()
    ensures RUNA == 0 && RUNB == 1 && HALF == 0x1_0000
  {}

  lemma DigitsOne(z: nat)
    requires z > 0
    ensures Digits(z) == [if (z - 1) % 2 == 1 then RUNB else RUNA] + Digits((z - 1) / 2)
  {}

  lemma NoDigits()
    ensures Digits(0) == []
  {}

  lemma DigitsStep(done: seq<nat>, p: nat)
    ensures var d := if p % 2 == 1 then RUNB else RUNA;
            if p < 2 then done + Digits(p + 1) == done + [d]
            else done + Digits(p + 1) == done + [d] + Digits((p - 2) / 2 + 1)
  {
    hide Digits;
    DigitsOne(p + 1);
    NoDigits();
    var d, h := if p % 2 == 1 then RUNB else RUNA, p / 2;
    assert done + ([d] + Digits(h)) == done + [d] + Digits(h);
  }

  // ---------- the list ----------

  /** yy[..|l|] stands for the list l, through the bytes in use. */
  ghost predicate Stands(yy: seq<nat>, l: seq<byte>, used: seq<byte>) {
    |l| <= |yy| && forall k :: 0 <= k < |l| ==> yy[k] < |used| && used[yy[k]] == l[k]
  }

  /** The loop that finds ll past the front, shifting what it passes, and puts it in front. */
  method ToFront(yy: array<nat>, ll: nat, ghost at: nat) returns (j: nat)
    requires 1 <= at < yy.Length && yy[at] == ll && forall k :: 0 <= k < at ==> yy[k] != ll
    modifies yy
    ensures j == at
    ensures yy[..] == [ll] + old(yy[..at]) + old(yy[at + 1..])
  {
    var rtmp := yy[1];
    yy[1] := yy[0];
    j := 1;
    while ll != rtmp
      invariant 1 <= j <= at && rtmp == old(yy[j])
      invariant forall k :: 1 <= k <= j ==> yy[k] == old(yy[k - 1])
      invariant forall k :: j < k < yy.Length ==> yy[k] == old(yy[k])
      decreases at - j
    {
      j := j + 1;
      var rtmp2 := rtmp;
      rtmp := yy[j];
      yy[j] := rtmp2;
    }
    yy[0] := rtmp;
    assert forall k :: 1 <= k <= j ==> yy[k] == old(yy[..at])[k - 1];
  }

  lemma {:induction false} IndexOfFirst(l: seq<byte>, x: byte, k: nat)
    requires k < IndexOf(l, x)
    ensures k < |l| && l[k] != x
  {
    if k > 0 { IndexOfFirst(l[1..], x, k - 1); }
  }

  /** The position found in yy is the position in the list, and both moves to the front agree. */
  lemma StandsFront(yy: seq<nat>, l: seq<byte>, u: seq<bool>, ll: nat)
    requires |u| == 256 && Stands(yy, l, Used(u)) && ll < |Used(u)| && Used(u)[ll] in l
    ensures var j := IndexOf(l, Used(u)[ll]);
            j < |l| && yy[j] == ll && (forall k :: 0 <= k < j ==> yy[k] != ll)
            && Stands([ll] + yy[..j] + yy[j + 1..], Front(l, j), Used(u))
  {
    hide Used, IndexOf, Front;
    var used, x := Used(u), Used(u)[ll];
    var j := IndexOf(l, x);
    IndexOfFound(l, x);
    forall k | 0 <= k < j
      ensures yy[k] != ll
    {
      IndexOfFirst(l, x, k);
    }
    SameIndex(u, yy[j], ll);
    StandsMoved(yy, l, used, j);
  }

  lemma StandsMoved(yy: seq<nat>, l: seq<byte>, used: seq<byte>, j: nat)
    requires Stands(yy, l, used) && j < |l|
    ensures Stands([yy[j]] + yy[..j] + yy[j + 1..], Front(l, j), used)
  {
    var zz, f := [yy[j]] + yy[..j] + yy[j + 1..], Front(l, j);
    forall k | 0 <= k < |f|
      ensures zz[k] < |used| && used[zz[k]] == f[k]
    {
      if 0 < k <= j {
        assert zz[k] == yy[k - 1] && f[k] == l[k - 1];
      } else if k > j {
        assert zz[k] == yy[k] && f[k] == l[k];
      }
    }
  }

  lemma SameIndex(u: seq<bool>, j: nat, k: nat)
    requires |u| == 256 && j < |Used(u)| && k < |Used(u)| && Used(u)[j] == Used(u)[k]
    ensures j == k
  {
    if j < k { UsedDistinct(u, j, k); }
    if k < j { UsedDistinct(u, k, j); }
  }

  // ---------- the whole function ----------

  /** What holds after i pointers: the encoder's fold, spread over mem, zPend and yy. */
  ghost predicate Coding(mem: seq<nat>, yy: seq<nat>, freq: seq<nat>, wr: nat, zPend: nat, used: seq<byte>,
                         col: seq<byte>) {
    var e := EncFold(used, col);
    && wr <= |mem| && mem[..wr] == e.out && zPend == e.zPend && wr + zPend <= |col|
    && |e.list| == |used| && e.list != [] && (forall x :: x in used ==> x in e.list)
    && Stands(yy, e.list, used) && Counts(freq, mem[..wr], |used| + 2)
  }

  /** One column byte x, found at ll among the bytes in use. */
  method CodeByte(arr1: array<nat>, e: nat, yy: array<nat>, freq: array<nat>, wr: nat, zPend: nat, ll: nat, n: nat,
                  ghost u: seq<bool>, ghost col: seq<byte>) returns (wr': nat, zPend': nat)
    requires arr1 != yy && arr1 != freq && yy != freq && e <= 1 && |u| == 256 && n == |Used(u)|
    requires ll < n <= yy.Length <= 256 && |col| < 2 * arr1.Length && n + 2 <= freq.Length
    requires Coding(Halves(arr1[..], e), yy[..], freq[..], wr, zPend, Used(u), col)
    modifies arr1, yy, freq
    ensures Coding(Halves(arr1[..], e), yy[..], freq[..], wr', zPend', Used(u), col + [Used(u)[ll]])
    ensures wr' <= |col| + 1
            && forall k :: wr' <= k < 2 * arr1.Length ==> Halves(arr1[..], e)[k] == Halves(old(arr1[..]), e)[k]
  {
    hide Digits, Counts, IndexOf, Front, EncFold, Used, Halves;
    ghost var was := Halves(arr1[..], e);
    ghost var used, x := Used(u), Used(u)[ll];
    ghost var en := EncFold(used, col);
    wr', zPend' := wr, zPend;
    CodingStep(was, yy[..], freq[..], wr, zPend, u, col, ll);
    if yy[0] == ll {
      zPend' := zPend' + 1;
    } else {
      ghost var j := IndexOf(en.list, x);
      if zPend > 0 {
        wr' := EmitRun(arr1, e, freq, wr, zPend, n + 2);
        zPend' := 0;
      }
      ghost var mem := Halves(arr1[..], e);
      assert mem[..wr'] == en.out + Digits(en.zPend) by { NoDigits(); }
      var at := ToFront(yy, ll, j);
      Emit(arr1, e, freq, wr', at + 1, n + 2, mem);
      wr' := wr' + 1;
    }
  }

  lemma CodingStep(mem: seq<nat>, yy: seq<nat>, freq: seq<nat>, wr: nat, zPend: nat, u: seq<bool>, col: seq<byte>,
                   ll: nat)
    requires |u| == 256 && ll < |Used(u)| && Coding(mem, yy, freq, wr, zPend, Used(u), col)
    ensures var (e, e', x) := (EncFold(Used(u), col), EncFold(Used(u), col + [Used(u)[ll]]), Used(u)[ll]);
            var j := IndexOf(e.list, x);
            && j < |e.list| <= |yy| && yy[j] == ll && (forall k :: 0 <= k < j ==> yy[k] != ll)
            && (forall y :: y in Used(u) ==> y in e'.list)
            && (if yy[0] == ll then e' == e.(zPend := e.zPend + 1)
                else j > 0 && e' == Enc(e.out + Digits(e.zPend) + [j + 1], 0, Front(e.list, j))
                     && Stands([ll] + yy[..j] + yy[j + 1..], e'.list, Used(u)))
  {
    hide Digits, Counts, Used;
    var used, x := Used(u), Used(u)[ll];
    var e := EncFold(used, col);
    StandsFront(yy, e.list, u, ll);
    FrontKeeps(e.list, IndexOf(e.list, x));
    assert (col + [x])[..|col|] == col;
    IndexOfFound(e.list, x);
    if yy[0] == ll { assert e.list[0] == x; }
  }

  /**
   * The move-to-front values of the sorted block, written as half-words over the pointers: a
   * pointer is overwritten only after it has been read.
   */
  method GenerateMtfValues(arr1: array<nat>, e: nat, block: seq<byte>, inUse: seq<bool>,
                           unseqToSeq: array<nat>, mtfFreq: array<nat>, ghost ptr: seq<nat>)
    returns (nInUse: nat, nMTF: nat)
    requires arr1 != unseqToSeq && arr1 != mtfFreq && unseqToSeq != mtfFreq && e <= 1
    requires block != [] && |ptr| == |block| <= arr1.Length && ptr == arr1[..|block|]
             && (forall i :: 0 <= i < |ptr| ==> ptr[i] < |block|)
    requires inUse == InUse(block, 256) && unseqToSeq.Length == 256 && mtfFreq.Length == 258
    modifies arr1, unseqToSeq, mtfFreq
    ensures nInUse == |Used(inUse)| && 1 <= nInUse <= 256
    ensures 1 <= nMTF <= |block| + 1 <= 2 * arr1.Length
    ensures Halves(arr1[..], e)[..nMTF] == MtfCode(Used(inUse), LastColumn(block, ptr))
    ensures Counts(mtfFreq[..], Halves(arr1[..], e)[..nMTF], nInUse + 2)
  {
    hide *;
    nInUse := MakeMaps(inUse, unseqToSeq);
    ghost var used, col := Used(inUse), LastColumn(block, ptr);
    HoldsStart(arr1[..], e, ptr);
    SomeUsed(block, inUse);
    ColumnMapped(block, ptr, inUse, unseqToSeq[..]);
    ZeroFreq(mtfFreq, nInUse + 2);
    var yy := IdentityList(nInUse);
    ghost var m := unseqToSeq[..];
    var wr: nat, zPend: nat := 0, 0;
    CodingStart(Halves(arr1[..], e), yy[..], mtfFreq[..], used);
    assert col[..0] == [];
    for i := 0 to |block|
      invariant wr <= i && Holds(Halves(arr1[..], e), e, ptr, i) && unseqToSeq[..] == m
      invariant Coding(Halves(arr1[..], e), yy[..], mtfFreq[..], wr, zPend, used, col[..i])
    {
      HoldsWord(arr1[..], e, ptr, i);
      var j: int := arr1[i] as int - 1;
      if j < 0 { j := j + |block|; }
      assert j == Prev(|block|, ptr[i]) by { PrevIs(|block|, ptr[i]); }
      ColumnByte(block, ptr, inUse, unseqToSeq[..], i, j);
      assert col[..i + 1] == col[..i] + [col[i]];
      ghost var was := Halves(arr1[..], e);
      wr, zPend := CodeByte(arr1, e, yy, mtfFreq, wr, zPend, unseqToSeq[block[j]], nInUse, inUse, col[..i]);
      HoldsOn(was, Halves(arr1[..], e), e, ptr, i, wr);
    }
    assert col[..|block|] == col;
    CodingEnd(Halves(arr1[..], e), yy[..], mtfFreq[..], wr, zPend, used, col);
    FewDigits();
    if zPend > 0 {
      wr := EmitRun(arr1, e, mtfFreq, wr, zPend, nInUse + 2);
    }
    Emit(arr1, e, mtfFreq, wr, nInUse + 1, nInUse + 2, Halves(arr1[..], e));
    nMTF := wr + 1;
  }

  lemma HoldsStart(arr1: seq<nat>, e: nat, ptr: seq<nat>)
    requires e <= 1 && |ptr| <= |arr1| && ptr == arr1[..|ptr|]
    ensures Holds(Halves(arr1, e), e, ptr, 0)
  {
    forall k: nat | k < |ptr|
      ensures PtrAt(Halves(arr1, e), e, k) == ptr[k]
    {
      PtrHalves(arr1, e, k);
    }
  }

  lemma HoldsWord(arr1: seq<nat>, e: nat, ptr: seq<nat>, i: nat)
    requires Holds(Halves(arr1, e), e, ptr, i) && i < |ptr|
    ensures i < |arr1| && arr1[i] == ptr[i]
  {
    assert PtrAt(Halves(arr1, e), e, i) == ptr[i];
    PtrHalves(arr1, e, i);
  }

  method ZeroFreq(freq: array<nat>, n: nat)
    requires n <= freq.Length
    modifies freq
    ensures forall v :: 0 <= v < n ==> freq[v] == 0
  {
    for i := 0 to n
      invariant forall v :: 0 <= v < i ==> freq[v] == 0
    {
      freq[i] := 0;
    }
  }

  method IdentityList(n: nat) returns (yy: array<nat>)
    requires n <= 256
    ensures fresh(yy) && yy.Length == 256 && forall k :: 0 <= k < n ==> yy[k] == k
  {
    yy := new nat[256];
    for i := 0 to n
      invariant forall k :: 0 <= k < i ==> yy[k] == k
    {
      yy[i] := i;
    }
  }

  /** Writing below half-word wr leaves the pointers from entry i + 1 on. */
  lemma HoldsOn(was: seq<nat>, mem: seq<nat>, e: nat, ptr: seq<nat>, i: nat, wr: nat)
    requires Holds(was, e, ptr, i) && |mem| == |was| && wr <= i + 1
    requires forall k :: wr <= k < |mem| ==> mem[k] == was[k]
    ensures Holds(mem, e, ptr, i + 1)
  {
    forall k | i + 1 <= k < |ptr|
      ensures PtrAt(mem, e, k) == ptr[k]
    {
      assert PtrAt(was, e, k) == ptr[k];
    }
  }

  lemma SomeUsed(block: seq<byte>, u: seq<bool>)
    requires block != [] && u == InUse(block, 256)
    ensures 1 <= |Used(u)| <= 256
  {
    BlockBytesUsed(block, block[0]);
    UsedSize(u);
  }

  /** Every column byte is in use, and mapped to its place among the bytes in use. */
  ghost predicate Mapped(col: seq<byte>, used: seq<byte>, m: seq<nat>) {
    |m| == 256 && forall i :: 0 <= i < |col| ==> m[col[i]] < |used| && used[m[col[i]]] == col[i]
  }

  lemma ColumnMapped(block: seq<byte>, ptr: seq<nat>, u: seq<bool>, m: seq<nat>)
    requires (forall i :: 0 <= i < |ptr| ==> ptr[i] < |block|) && u == InUse(block, 256) && Maps(m, Used(u))
    ensures Mapped(LastColumn(block, ptr), Used(u), m)
  {
    hide InUse, Used, LastColumn;
    ColumnBytesUsed(block, ptr);
    var col, used := LastColumn(block, ptr), Used(u);
    forall i | 0 <= i < |col|
      ensures m[col[i]] < |used| && used[m[col[i]]] == col[i]
    {
      assert col[i] in used;
      var k :| 0 <= k < |used| && used[k] == col[i];
    }
  }

  lemma PrevIs(n: nat, i: nat)
    requires i < n
    ensures Prev(n, i) == if i == 0 then n - 1 else i - 1
  {}

  lemma ColumnByte(block: seq<byte>, ptr: seq<nat>, u: seq<bool>, m: seq<nat>, i: nat, j: nat)
    requires |ptr| == |block| && i < |ptr| && (forall k :: 0 <= k < |ptr| ==> ptr[k] < |block|)
    requires Mapped(LastColumn(block, ptr), Used(u), m) && j == Prev(|block|, ptr[i])
    ensures j < |block| && LastColumn(block, ptr)[i] == block[j]
    ensures |m| == 256 && m[block[j]] < |Used(u)| && Used(u)[m[block[j]]] == block[j]
  {
    hide Used, LastColumn, Mapped;
    MappedAt(LastColumn(block, ptr), Used(u), m, i);
  }

  lemma MappedAt(col: seq<byte>, used: seq<byte>, m: seq<nat>, i: nat)
    requires Mapped(col, used, m) && i < |col|
    ensures |m| == 256 && m[col[i]] < |used| && used[m[col[i]]] == col[i]
  {}

  lemma CodingStart(mem: seq<nat>, yy: seq<nat>, freq: seq<nat>, used: seq<byte>)
    requires used != [] && |used| <= |yy| && (forall k :: 0 <= k < |used| ==> yy[k] == k)
    requires |used| + 2 <= |freq| && forall v :: 0 <= v < |used| + 2 ==> freq[v] == 0
    ensures Coding(mem, yy, freq, 0, 0, used, [])
  {
    assert mem[..0] == [];
  }

  lemma CodingEnd(mem: seq<nat>, yy: seq<nat>, freq: seq<nat>, wr: nat, zPend: nat, used: seq<byte>, col: seq<byte>)
    requires Coding(mem, yy, freq, wr, zPend, used, col)
    ensures wr <= |mem| && wr + zPend <= |col| && Counts(freq, mem[..wr], |used| + 2)
    ensures MtfCode(used, col) == mem[..wr] + (if zPend > 0 then Digits(zPend) else []) + [|used| + 1]
  {
    hide Counts, Digits, EncFold;
    NoDigits();
    var e := EncFold(used, col);
    assert e.out + [] == e.out;
  }
}
