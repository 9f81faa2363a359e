/** The second half of sendMTFValues: selectors by move-to-front, code assignment, and everything a block writes. */
module BlockWriter {
  import opened Bits
  import opened BitIO
  import opened Occurrences
  import opened MoveToFront
  import opened Huffman
  import opened HuffmanTables
  import opened StreamFormat
  import opened TableChoice

  /** One bit. */
  method SendBit(w: BitWriter, b: bool)
    requires w.Valid()
    modifies w
    ensures w.Valid() && w.Written() == old(w.Written()) + [b]
  {
    SmallCodes();
    if b { w.W(1, 1); } else { w.W(1, 0); }
  }

  lemma SmallCodes()
    ensures Pow2(1) == 2 && Pow2(2) == 4 && Pow2(3) == 8 && Pow2(5) == 32 && Pow2(15) == 32768
    ensures ToBits(0, 1) == [false] && ToBits(1, 1) == [true]
    ensures ToBits(2, 2) == [true, false] && ToBits(3, 2) == [true, true]
  {
    Pow2Values();
    assert ToBits(1, 1) == [] + [true];
    assert ToBits(2, 2) == ToBits(1, 1) + [false];
    assert ToBits(3, 2) == ToBits(1, 1) + [true];
  }

  // ---------- the mapping table ----------

  lemma GroupBitsStep(done: Bits, u: seq<bool>, i: nat)
    requires |u| == 256 && i < 16
    ensures done + GroupBits(u, i) == (if true in Group(u, i) then done + Group(u, i) else done) + GroupBits(u, i + 1)
  {
    if true in Group(u, i) {
      Assoc3(done, Group(u, i), GroupBits(u, i + 1));
    } else {
      assert [] + GroupBits(u, i + 1) == GroupBits(u, i + 1);
    }
  }

  lemma GroupFlagsStep(u: seq<bool>, k: nat)
    requires |u| == 256 && k < 16
    ensures GroupFlags(u, k + 1) == GroupFlags(u, k) + [true in Group(u, k)]
  {}

  /** Whether any byte of group i is in use. */
  method AnyInGroup(inUse: seq<bool>, i: nat) returns (any: bool)
    requires |inUse| == 256 && i < 16
    ensures any == (true in Group(inUse, i))
  {
    any := false;
    for j := 0 to 16
      invariant any == (true in Group(inUse, i)[..j])
    {
      assert Group(inUse, i)[..j + 1] == Group(inUse, i)[..j] + [inUse[i * 16 + j]];
      if inUse[i * 16 + j] { any := true; }
    }
    assert Group(inUse, i)[..16] == Group(inUse, i);
  }

  method MarkGroups(inUse: seq<bool>) returns (inUse16: array<bool>)
    requires |inUse| == 256
    ensures fresh(inUse16) && inUse16.Length == 16
    ensures forall k :: 0 <= k < 16 ==> inUse16[k] == (true in Group(inUse, k))
  {
    hide Group;
    inUse16 := new bool[16];
    for i := 0 to 16
      invariant forall k :: 0 <= k < i ==> inUse16[k] == (true in Group(inUse, k))
    {
      inUse16[i] := AnyInGroup(inUse, i);
    }
  }

  method SendGroup(w: BitWriter, inUse: seq<bool>, i: nat)
    requires w.Valid() && |inUse| == 256 && i < 16
    modifies w
    ensures w.Valid() && w.Written() == old(w.Written()) + Group(inUse, i)
  {
    ghost var g, base := Group(inUse, i), w.Written();
    assert base + g[..0] == base;
    for j := 0 to 16
      invariant w.Valid() && w.Written() == base + g[..j]
    {
      SendBit(w, inUse[i * 16 + j]);
      assert g[..j + 1] == g[..j] + [inUse[i * 16 + j]];
      Assoc3(base, g[..j], [inUse[i * 16 + j]]);
    }
    assert g[..16] == g;
  }

  method SendMapping(w: BitWriter, inUse: seq<bool>)
    requires w.Valid() && |inUse| == 256
    modifies w
    ensures w.Valid() && w.Written() == old(w.Written()) + MappingBits(inUse)
  {
    hide Group, GroupBits, GroupFlags, BitWriter.Written, BitWriter.Valid;
    ghost var base := w.Written();
    var inUse16 := MarkGroups(inUse);
    ghost var any := inUse16[..];
    NoFlags(base, inUse);
    for i := 0 to 16
      invariant inUse16[..] == any && w.Valid() && w.Written() == base + GroupFlags(inUse, i)
    {
      GroupFlagsStep(inUse, i);
      Assoc3(base, GroupFlags(inUse, i), [true in Group(inUse, i)]);
      SendBit(w, inUse16[i]);
    }
    ghost var all := base + GroupFlags(inUse, 16);
    for i := 0 to 16
      invariant inUse16[..] == any && w.Valid()
      invariant w.Written() + GroupBits(inUse, i) == all + GroupBits(inUse, 0)
    {
      GroupBitsStep(w.Written(), inUse, i);
      if inUse16[i] { SendGroup(w, inUse, i); }
    }
    NoGroups(w.Written(), inUse);
    Assoc3(base, GroupFlags(inUse, 16), GroupBits(inUse, 0));
  }

  lemma NoFlags(done: Bits, u: seq<bool>)
    requires |u| == 256
    ensures done + GroupFlags(u, 0) == done
  {}

  lemma NoGroups(done: Bits, u: seq<bool>)
    requires |u| == 256
    ensures done + GroupBits(u, 16) == done
  {}

  // ---------- the selectors ----------

  /** Finding ll in pos, shifting what is passed over, and putting it in front. */
  method SelectorToFront(pos: array<byte>, ll: byte, ghost at: nat) returns (j: nat)
    requires at < pos.Length && pos[at] == ll && forall k :: 0 <= k < at ==> pos[k] != ll
    modifies pos
    ensures j == at && pos[..] == Front(old(pos[..]), at)
  {
    j := 0;
    var tmp := pos[0];
    while ll != tmp
      invariant 0 <= j <= at && tmp == old(pos[j])
      invariant forall k :: 1 <= k <= j ==> pos[k] == old(pos[k - 1])
      invariant forall k :: j < k < pos.Length ==> pos[k] == old(pos[k])
      decreases at - j
    {
      j := j + 1;
      var tmp2 := tmp;
      tmp := pos[j];
      pos[j] := tmp2;
    }
    pos[0] := tmp;
    ghost var was := old(pos[..]);
    assert forall k :: 1 <= k <= j ==> pos[k] == was[..at][k - 1];
    assert pos[..] == [was[at]] + was[..at] + was[at + 1..];
  }

  lemma {:induction false} IndexOfIs(l: seq<byte>, x: byte)
    requires x in l
    ensures var j := IndexOf(l, x); j < |l| && l[j] == x && forall k :: 0 <= k < j ==> l[k] != x
  {
    if l[0] != x { IndexOfIs(l[1..], x); }
  }

  lemma {:induction false} IdentityHas(n: nat, x: byte)
    requires x < n <= 256
    ensures x in Identity(n)
  {
    if x < n - 1 { IdentityHas(n - 1, x); }
  }

  /** The move-to-front positions of the selectors. */
  method CodeSelectors(selector: array<byte>, selectorMtf: array<nat>, nSelectors: nat, nGroups: nat)
    requires nSelectors <= selector.Length && nSelectors <= selectorMtf.Length && nGroups <= N_GROUPS
    requires forall k :: 0 <= k < nSelectors ==> selector[k] < nGroups
    modifies selectorMtf
    ensures selectorMtf[..nSelectors] == SelMtf(Identity(nGroups), selector[..nSelectors])
    ensures forall k :: 0 <= k < nSelectors ==> selectorMtf[k] < nGroups
  {
    hide SelMtf, Front, Identity, IndexOf;
    var sels := selector[..nSelectors];
    var pos := FreshIdentity(nGroups);
    assert sels[0..] == sels;
    assert [] + SelMtf(pos[..], sels) == SelMtf(pos[..], sels);
    for i := 0 to nSelectors
      invariant SelMtf(Identity(nGroups), sels) == selectorMtf[..i] + SelMtf(pos[..], sels[i..])
      invariant pos.Length == nGroups && (forall x: byte :: x < nGroups ==> x in pos[..])
                && selector[..nSelectors] == sels
      invariant forall k :: 0 <= k < i ==> selectorMtf[k] < nGroups
    {
      ghost var j := IndexOf(pos[..], sels[i]);
      IndexOfIs(pos[..], sels[i]);
      SelMtfStep(pos[..], sels, i, selectorMtf[..i]);
      FrontKeeps(pos[..], j);
      ghost var was := selectorMtf[..i];
      selectorMtf[i] := SelectorToFront(pos, sels[i], j);
      assert selectorMtf[..i + 1] == was + [j];
    }
    assert sels[nSelectors..] == [];
    SelMtfNone(pos[..], selectorMtf[..nSelectors]);
  }

  lemma SelMtfStep(pos: seq<byte>, sels: seq<byte>, i: nat, done: seq<nat>)
    requires i < |sels|
    ensures var j := IndexOf(pos, sels[i]);
            j < |pos| ==> done + SelMtf(pos, sels[i..]) == done + [j] + SelMtf(Front(pos, j), sels[i + 1..])
  {
    hide SelMtf, IndexOf, Front;
    var j := IndexOf(pos, sels[i]);
    assert sels[i..][1..] == sels[i + 1..];
    if j < |pos| {
      SelMtfHead(pos, sels[i..], j);
      assert done + ([j] + SelMtf(Front(pos, j), sels[i + 1..])) == done + [j] + SelMtf(Front(pos, j), sels[i + 1..]);
    }
  }

  lemma SelMtfHead(pos: seq<byte>, sels: seq<byte>, j: nat)
    requires sels != [] && j == IndexOf(pos, sels[0]) < |pos|
    ensures SelMtf(pos, sels) == [j] + SelMtf(Front(pos, j), sels[1..])
  {}

  lemma SelMtfNone(pos: seq<byte>, done: seq<nat>)
    ensures done + SelMtf(pos, []) == done
  {}

  method FreshIdentity(n: nat) returns (pos: array<byte>)
    requires n <= N_GROUPS
    ensures fresh(pos) && pos.Length == n && pos[..] == Identity(n) && forall x: byte :: x < n ==> x in pos[..]
  {
    pos := new byte[n];
    for i := 0 to n
      invariant pos[..i] == Identity(i)
    {
      pos[i] := i;
      assert pos[..i + 1] == pos[..i] + [i];
    }
    assert pos[..n] == pos[..];
    forall x: byte | x < n
      ensures x in Identity(n)
    {
      IdentityHas(n, x);
    }
  }

  method SendSelectors(w: BitWriter, selectorMtf: array<nat>, nSelectors: nat, nGroups: nat, ghost sels: seq<byte>)
    requires w.Valid() && nGroups <= N_GROUPS && nSelectors == |sels| <= MAX_SELECTORS
             && nSelectors <= selectorMtf.Length
    requires selectorMtf[..nSelectors] == SelMtf(Identity(nGroups), sels)
    modifies w
    ensures w.Valid() && w.Written() == old(w.Written()) + SelectorBits(nGroups, sels)
  {
    hide BitWriter.Written, BitWriter.Valid, ToBits, SelMtf, Unary, UnaryBits, Pow2;
    ghost var base := w.Written();
    SmallCodes();
    w.W(3, nGroups);
    w.W(15, nSelectors);
    ghost var mid := w.Written();
    ghost var js := selectorMtf[..nSelectors];
    assert js[0..] == js;
    for i := 0 to nSelectors
      invariant w.Valid() && selectorMtf[..nSelectors] == js
      invariant w.Written() + UnaryBits(js[i..]) == mid + UnaryBits(js)
    {
      UnaryStep(w.Written(), js, i);
      assert js[i] == selectorMtf[i];
      SendUnary(w, selectorMtf[i]);
    }
    UnaryNone(w.Written());
    assert js[nSelectors..] == [];
    var a, b, c := ToBits(nGroups, 3), ToBits(nSelectors, 15), UnaryBits(js);
    assert base + a + b + c == base + (a + b + c);
  }

  lemma UnaryStep(done: Bits, js: seq<nat>, i: nat)
    requires i < |js|
    ensures done + UnaryBits(js[i..]) == done + Unary(js[i]) + UnaryBits(js[i + 1..])
  {
    assert js[i..][1..] == js[i + 1..];
    Assoc3(done, Unary(js[i]), UnaryBits(js[i + 1..]));
  }

  lemma UnaryNone(done: Bits)
    ensures done + UnaryBits([]) == done
  {}

  method SendUnary(w: BitWriter, n: nat)
    requires w.Valid()
    modifies w
    ensures w.Valid() && w.Written() == old(w.Written()) + Unary(n)
  {
    hide BitWriter.Written, BitWriter.Valid, Unary;
    ghost var base, k := w.Written(), n;
    for j := 0 to n
      invariant w.Valid() && k == n - j && w.Written() + Unary(k) == base + Unary(n)
    {
      OneMore(w.Written(), k);
      SendBit(w, true);
      k := k - 1;
    }
    OneMore(w.Written(), k);
    SendBit(w, false);
  }

  lemma OneMore(done: Bits, k: nat)
    ensures done + Unary(k) == if k == 0 then done + [false] else done + [true] + Unary(k - 1)
  {
    if k > 0 { Assoc3(done, [true], Unary(k - 1)); }
  }

  // ---------- the code tables ----------

  lemma MovesUp(done: Bits, curr: nat, x: nat)
    requires curr < x
    ensures done + Moves(curr, x) == done + [true, false] + Moves(curr + 1, x)
  {
    Assoc3(done, [true, false], Moves(curr + 1, x));
  }

  lemma MovesDown(done: Bits, curr: nat, x: nat)
    requires curr > x
    ensures done + Moves(curr, x) == done + [true, true] + Moves(curr - 1, x)
  {
    Assoc3(done, [true, true], Moves(curr - 1, x));
  }

  lemma MovesDone(done: Bits, x: nat)
    ensures done + Moves(x, x) == done
  {}

  /** Moves the current length to x: both loops, of which only one runs. */
  method SendMoves(w: BitWriter, from: nat, x: nat)
    requires w.Valid()
    modifies w
    ensures w.Valid() && w.Written() == old(w.Written()) + Moves(from, x)
  {
    hide BitWriter.Written, BitWriter.Valid, Moves, ToBits, Pow2;
    ghost var base := w.Written();
    var curr := from;
    SmallCodes();
    while curr < x
      invariant w.Valid() && w.Written() + Moves(curr, x) == base + Moves(from, x)
    {
      MovesUp(w.Written(), curr, x);
      w.W(2, 2);
      curr := curr + 1;
    }
    while curr > x
      invariant curr >= x && w.Valid() && w.Written() + Moves(curr, x) == base + Moves(from, x)
    {
      MovesDown(w.Written(), curr, x);
      w.W(2, 3);
      curr := curr - 1;
    }
    MovesDone(w.Written(), x);
  }

  lemma DeltasStep(done: Bits, curr: nat, lens: seq<nat>, i: nat)
    requires i < |lens|
    ensures done + Deltas(curr, lens[i..]) == done + Moves(curr, lens[i]) + [false] + Deltas(lens[i], lens[i + 1..])
  {
    var l := lens[i..];
    assert l[1..] == lens[i + 1..] && l[0] == lens[i];
    var m, d := Moves(curr, lens[i]), Deltas(lens[i], lens[i + 1..]);
    assert Deltas(curr, l) == m + ([false] + d);
    assert done + (m + ([false] + d)) == done + m + [false] + d;
  }

  lemma DeltasDone(done: Bits, curr: nat)
    ensures done + Deltas(curr, []) == done
  {}

  method SendTable(w: BitWriter, len: seq<nat>)
    requires w.Valid() && len != [] && LensIn(len, 1, ENC_MAX_LEN)
    modifies w
    ensures w.Valid() && w.Written() == old(w.Written()) + TableBits(len)
  {
    hide BitWriter.Written, BitWriter.Valid, Deltas, ToBits, Pow2;
    SmallCodes();
    ghost var base := w.Written();
    var curr := len[0];
    w.W(5, curr);
    ghost var mid := w.Written();
    assert len[0..] == len;
    for i := 0 to |len|
      invariant w.Valid() && w.Written() + Deltas(curr, len[i..]) == mid + Deltas(len[0], len)
    {
      DeltasStep(w.Written(), curr, len, i);
      SendMoves(w, curr, len[i]);
      curr := len[i];
      SendBit(w, false);
    }
    assert len[|len|..] == [];
    DeltasDone(w.Written(), curr);
    Assoc3(base, ToBits(len[0], 5), Deltas(len[0], len));
  }

  /** No table is empty. */
  ghost predicate Filled(lens: seq<seq<nat>>) {
    forall t :: 0 <= t < |lens| ==> lens[t] != [] && LensIn(lens[t], 1, ENC_MAX_LEN)
  }

  lemma TablesStep(done: Bits, lens: seq<seq<nat>>, t: nat)
    requires t < |lens| && Filled(lens)
    ensures done + TablesBits(lens[t..]) == done + TableBits(lens[t]) + TablesBits(lens[t + 1..])
  {
    assert lens[t..][1..] == lens[t + 1..];
    Assoc3(done, TableBits(lens[t]), TablesBits(lens[t + 1..]));
  }

  lemma TablesNone(done: Bits)
    ensures done + TablesBits([]) == done
  {}

  method SendTables(w: BitWriter, len: seq<array<nat>>, nGroups: nat, n: nat, ghost lens: seq<seq<nat>>)
    requires w.Valid() && nGroups == |lens| && Shows(len, lens) && Filled(lens)
             && forall t :: 0 <= t < nGroups ==> |lens[t]| == n
    modifies w
    ensures w.Valid() && w.Written() == old(w.Written()) + TablesBits(lens)
  {
    hide BitWriter.Written, BitWriter.Valid, TableBits, TablesBits, LensIn;
    ghost var base := w.Written();
    assert lens[0..] == lens;
    for t := 0 to nGroups
      invariant w.Valid() && w.Written() + TablesBits(lens[t..]) == base + TablesBits(lens)
    {
      TablesStep(w.Written(), lens, t);
      SendTable(w, len[t][..n]);
    }
    assert lens[nGroups..] == [];
    TablesNone(w.Written());
  }

  // ---------- codes ----------

  /** Every row of code holds the canonical codes of its table. */
  ghost predicate Coded(code: seq<array<nat>>, lens: seq<seq<nat>>)
    reads code
  {
    && |lens| <= |code|
    && (forall t :: 0 <= t < |lens| ==> |lens[t]| <= code[t].Length)
    && forall t, v :: 0 <= t < |lens| && 0 <= v < |lens[t]| ==> code[t][v] == Code(lens[t], MinLen(lens[t]), v)
  }

  /** The shortest and longest length of a table. */
  method LengthRange(len: seq<nat>) returns (minLen: nat, maxLen: nat)
    ensures minLen == MinLen(len) && maxLen == MaxLen(len)
  {
    minLen, maxLen := 32, 0;
    for i := 0 to |len|
      invariant minLen == MinLen(len[..i]) && maxLen == MaxLen(len[..i])
    {
      assert len[..i + 1][..i] == len[..i];
      if len[i] > maxLen { maxLen := len[i]; }
      if len[i] < minLen { minLen := len[i]; }
    }
    assert len[..|len|] == len;
  }

  method AssignAll(tables: CodingTables, nGroups: nat, n: nat, ghost lens: seq<seq<nat>>)
    requires tables.Apart() && nGroups == |lens| <= N_GROUPS && n <= MAX_ALPHA_SIZE && n > 0
    requires Shows(tables.len, lens) && Filled(lens) && forall t :: 0 <= t < nGroups ==> |lens[t]| == n
    modifies tables.code
    ensures Coded(tables.code, lens)
  {
    hide MinLen, MaxLen, Code, LensIn;
    tables.LenApart();
    for t := 0 to nGroups
      invariant Shows(tables.len, lens) && Coded(tables.code, lens[..t])
    {
      var len := tables.len[t][..n];
      var minLen, maxLen := LengthRange(len);
      MinMaxIn(len, 1, ENC_MAX_LEN);
      AllInRange(len);
      RowsOneByOne(tables.code, t);
      AssignCodes(tables.code[t], len, minLen, maxLen);
    }
    assert lens[..nGroups] == lens;
  }

  lemma AllInRange(len: seq<nat>)
    ensures forall i :: 0 <= i < |len| ==> MinLen(len) <= len[i] <= MaxLen(len)
  {
    MinMaxAll(len);
  }

  // ---------- the symbols ----------

  lemma SymStepBits(done: Bits, lens: seq<seq<nat>>, sels: seq<byte>, g: nat, pos: nat, pos': nat, syms: seq<nat>,
                    i: nat)
    requires SymbolsFit(lens, sels, syms) && 0 < g <= |sels| && pos == pos' + 1 && i < |syms|
    ensures SymbolsFit(lens, sels, syms[i..]) && SymbolsFit(lens, sels, syms[i + 1..])
    ensures done + SymBits(lens, sels, g, pos, syms[i..])
         == done + CodeBits(lens[sels[g - 1]], syms[i]) + SymBits(lens, sels, g, pos', syms[i + 1..])
  {
    assert syms[i..][1..] == syms[i + 1..] && syms[i..][0] == syms[i];
    Assoc3(done, CodeBits(lens[sels[g - 1]], syms[i]), SymBits(lens, sels, g, pos', syms[i + 1..]));
  }

  /** At a group boundary, or past the last symbol, the next selector takes over. */
  lemma SymGroupBits(done: Bits, lens: seq<seq<nat>>, sels: seq<byte>, g: nat, pos: nat, syms: seq<nat>)
    requires SymbolsFit(lens, sels, syms) && g <= |sels| && (g == 0 ==> pos == 0)
    ensures syms == [] ==> done + SymBits(lens, sels, g, pos, syms) == done
    ensures syms != [] && pos == 0 && g < |sels| ==>
              SymBits(lens, sels, g, pos, syms) == SymBits(lens, sels, g + 1, G_SIZE, syms)
  {}

  lemma FitFrom(lens: seq<seq<nat>>, sels: seq<byte>, syms: seq<nat>, i: nat)
    requires SymbolsFit(lens, sels, syms) && i <= |syms|
    ensures SymbolsFit(lens, sels, syms[i..])
  {}

  lemma CodeIsFit(lens: seq<seq<nat>>, t: nat, v: nat, n: nat)
    requires t < |lens| && GoodLens(lens[t], n) && v < n
    ensures Code(lens[t], MinLen(lens[t]), v) < Pow2(lens[t][v]) && lens[t][v] <= ENC_MAX_LEN
    ensures CodeBits(lens[t], v) == ToBits(Code(lens[t], MinLen(lens[t]), v), lens[t][v])
  {
    hide Kraft, Code, MinLen, Pow2, ToBits;
    CodeFits(lens[t], v);
  }

  ghost predicate AllGood(lens: seq<seq<nat>>, n: nat) {
    forall t :: 0 <= t < |lens| ==> GoodLens(lens[t], n)
  }

  /** One group, with the table its selector names. */
  method SendGroupSymbols(w: BitWriter, len: array<nat>, code: array<nat>, mtfv: seq<nat>, gs: nat, end: nat, n: nat,
                          ghost lens: seq<seq<nat>>, ghost sels: seq<byte>, ghost g: nat)
    requires w.Valid() && SymbolsFit(lens, sels, mtfv) && 0 < g <= |sels| && AllGood(lens, n) && InAlphabet(mtfv, n)
    requires gs <= end <= |mtfv| && end - gs <= G_SIZE && (end < |mtfv| ==> end - gs == G_SIZE)
    requires n <= len.Length && n <= code.Length && len[..n] == lens[sels[g - 1]]
    requires forall v :: 0 <= v < n ==> code[v] == Code(lens[sels[g - 1]], MinLen(lens[sels[g - 1]]), v)
    modifies w
    ensures w.Valid() && SymbolsFit(lens, sels, mtfv[gs..]) && SymbolsFit(lens, sels, mtfv[end..])
    ensures w.Written() + SymBits(lens, sels, g, 0, mtfv[end..])
            == old(w.Written()) + SymBits(lens, sels, g, G_SIZE, mtfv[gs..])
  {
    hide BitWriter.Written, BitWriter.Valid, SymBits, CodeBits, Code, MinLen, GoodLens, SymbolsFit;
    ghost var base, pos: nat := w.Written(), G_SIZE;
    ghost var t := sels[g - 1] as nat;
    SelBelow(lens, sels, mtfv, g - 1);
    FitFrom(lens, sels, mtfv, gs);
    for i := gs to end
      invariant w.Valid() && pos == G_SIZE - (i - gs) && SymbolsFit(lens, sels, mtfv[i..])
      invariant w.Written() + SymBits(lens, sels, g, pos, mtfv[i..])
                == base + SymBits(lens, sels, g, G_SIZE, mtfv[gs..])
    {
      ghost var pos' := pos - 1;
      SymStepBits(w.Written(), lens, sels, g, pos, pos', mtfv, i);
      CodeIsFit(lens, t, mtfv[i], n);
      assert len[mtfv[i]] == lens[t][mtfv[i]];
      w.W(len[mtfv[i]], code[mtfv[i]]);
      pos := pos';
    }
    if end == |mtfv| {
      assert mtfv[end..] == [];
      SymGroupBits(w.Written(), lens, sels, g, pos, []);
      SymGroupBits(w.Written(), lens, sels, g, 0, []);
    }
  }

  lemma SelBelow(lens: seq<seq<nat>>, sels: seq<byte>, syms: seq<nat>, k: nat)
    requires SymbolsFit(lens, sels, syms) && k < |sels|
    ensures sels[k] < |lens|
  {}

  method SendSymbols(w: BitWriter, tables: CodingTables, mtfv: seq<nat>, nSelectors: nat, n: nat,
                     ghost lens: seq<seq<nat>>, ghost sels: seq<byte>)
    requires w.Valid() && tables.Apart() && n <= MAX_ALPHA_SIZE && InAlphabet(mtfv, n)
    requires SymbolsFit(lens, sels, mtfv) && AllGood(lens, n) && |lens| <= N_GROUPS
             && nSelectors == GroupCount(|mtfv|) == |sels|
    requires nSelectors <= MAX_SELECTORS && tables.selector[..nSelectors] == sels
    requires Shows(tables.len, lens) && Coded(tables.code, lens)
    modifies w
    ensures w.Valid() && w.Written() == old(w.Written()) + SymBits(lens, sels, 0, 0, mtfv)
  {
    hide BitWriter.Written, BitWriter.Valid, SymBits, Code, MinLen, SymbolsFit;
    ghost var base := w.Written();
    assert mtfv[0..] == mtfv;
    var selCtr, gs := 0, 0;
    while gs < |mtfv|
      invariant gs == if G_SIZE * selCtr >= |mtfv| then |mtfv| else G_SIZE * selCtr
      invariant G_SIZE * selCtr < |mtfv| + G_SIZE && selCtr <= nSelectors && w.Valid()
                && SymbolsFit(lens, sels, mtfv[gs..])
      invariant w.Written() + SymBits(lens, sels, selCtr, 0, mtfv[gs..]) == base + SymBits(lens, sels, 0, 0, mtfv)
    {
      var end := GroupEnd(gs, |mtfv|);
      SymGroupBits(w.Written(), lens, sels, selCtr, 0, mtfv[gs..]);
      SelBelow(lens, sels, mtfv, selCtr);
      var t := tables.selector[selCtr];
      assert t == sels[selCtr];
      SendGroupSymbols(w, tables.len[t], tables.code[t], mtfv, gs, end, n, lens, sels, selCtr + 1);
      gs := end;
      selCtr := selCtr + 1;
    }
    assert selCtr == nSelectors && mtfv[gs..] == [];
    SymGroupBits(w.Written(), lens, sels, selCtr, 0, []);
  }

  // ---------- the whole function ----------

  /**
   What the receiver needs of the choices: good tables, a selector for each group, and every symbol in the alphabet.
  */
  ghost predicate GoodChoices(lens: seq<seq<nat>>, sels: seq<byte>, syms: seq<nat>, n: nat) {
    && 2 <= |lens| <= N_GROUPS && AllGood(lens, n) && (forall k :: 0 <= k < |sels| ==> sels[k] < |lens|)
    && 1 <= |sels| <= MAX_SELECTORS && |sels| == GroupCount(|syms|) && |syms| <= G_SIZE * |sels|
    && SymbolsFit(lens, sels, syms) && forall t :: 0 <= t < |lens| ==> lens[t] != []
  }

  lemma ChoicesAreGood(lens: seq<seq<nat>>, sels: seq<byte>, syms: seq<nat>, n: nat, k: nat)
    requires 2 <= k <= N_GROUPS && Fitted(lens, k, n) && n > 0 && (forall i :: 0 <= i < |sels| ==> sels[i] < k)
    requires |sels| == GroupCount(|syms|) <= MAX_SELECTORS && syms != [] && InAlphabet(syms, n)
    ensures |lens| == k && GoodChoices(lens, sels, syms, n) && Filled(lens) && forall t :: 0 <= t < k ==> |lens[t]| == n
  {
    hide Kraft, Pow2;
  }

  /** sendMTFValues: chooses, then writes mapping, selectors, tables and codes. */
  method SendMtfValues(w: BitWriter, tables: CodingTables, mtfv: seq<nat>, mtfFreq: array<nat>, inUse: seq<bool>,
                       n: nat)
    returns (ghost lens: seq<seq<nat>>, ghost sels: seq<byte>)
    requires w.Valid() && tables.Apart() && |inUse| == 256
    requires mtfFreq !in tables.len && mtfFreq !in tables.rfreq && mtfFreq != tables.cost
    requires 1 <= |mtfv| <= MOST_SYMBOLS && 2 <= n <= MAX_ALPHA_SIZE && InAlphabet(mtfv, n) && n <= mtfFreq.Length
    requires (forall v :: 0 <= v < n ==> mtfFreq[v] == Count(mtfv, v)) && mtfv[|mtfv| - 1] == n - 1
    modifies w, tables.len, tables.code, tables.rfreq, tables.lenPack, tables.cost, tables.selector, tables.selectorMtf
    ensures GoodChoices(lens, sels, mtfv, n) && FittedChoices(lens, sels, mtfv, n)
    ensures w.Valid() && w.Written() == old(w.Written()) + EntropyBits(inUse, mtfv, sels, lens)
  {
    hide FittedChoices, Stages, AllFitted, Shares;
    hide BitWriter.Written, BitWriter.Valid, Count, Chosen, Fitted, GoodChoices, AllGood, Filled;
    hide MappingBits, SelectorBits, TablesBits, SymBits, SelMtf, Identity, Code, MinLen, LensIn, SymbolsFit;
    ghost var base := w.Written();
    var nGroups, nSelectors;
    ghost var stages, choices;
    nGroups, nSelectors, lens, stages, choices := ChooseTables(tables, mtfv, mtfFreq, n);
    LastFitted(stages, choices, mtfv, nGroups, n);
    tables.LenApart();
    sels := tables.selector[..nSelectors];
    ChoicesAreGood(lens, sels, mtfv, n, nGroups);
    GoodParts(lens, sels, mtfv, n);
    CodeSelectors(tables.selector, tables.selectorMtf, nSelectors, nGroups);
    AssignAll(tables, nGroups, n, lens);
    SendMapping(w, inUse);
    SendSelectors(w, tables.selectorMtf, nSelectors, nGroups, sels);
    SendTables(w, tables.len, nGroups, n, lens);
    SendSymbols(w, tables, mtfv, nSelectors, n, lens, sels);
    Assoc5(base, MappingBits(inUse), SelectorBits(nGroups, sels), TablesBits(lens), SymBits(lens, sels, 0, 0, mtfv));
  }

  /** Each table is fitted to the symbols that are sent with it. */
  ghost predicate FittedChoices(lens: seq<seq<nat>>, sels: seq<byte>, syms: seq<nat>, n: nat) {
    (forall t :: 0 <= t < |lens| ==> |lens[t]| == n) && AllFitted(lens, sels, syms, n)
  }

  lemma LastFitted(tables: seq<seq<seq<nat>>>, choices: seq<seq<byte>>, syms: seq<nat>, k: nat, n: nat)
    requires |choices| == 4 && Stages(tables, choices, syms, k, n)
    ensures |tables| == 5 && FittedChoices(tables[4], choices[3], syms, n)
  {
    hide Chosen, Fitted, AllFitted;
    assert Stage(tables[3], tables[4], choices[3], syms, k, n);
    FittedCount(tables[4], k, n);
  }

  lemma FittedCount(lens: seq<seq<nat>>, k: nat, n: nat)
    ensures Fitted(lens, k, n) ==> |lens| == k
  {}

  lemma GoodParts(lens: seq<seq<nat>>, sels: seq<byte>, syms: seq<nat>, n: nat)
    requires GoodChoices(lens, sels, syms, n)
    ensures AllGood(lens, n) && SymbolsFit(lens, sels, syms) && |lens| <= N_GROUPS && |sels| <= MAX_SELECTORS
    ensures forall t :: 0 <= t < |lens| ==> lens[t] != []
  {}

  lemma Assoc5(base: Bits, a: Bits, b: Bits, c: Bits, d: Bits)
    ensures base + a + b + c + d == base + (a + (b + (c + d)))
  {}
}
