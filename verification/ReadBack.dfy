/**
 Every stream is read: the automaton, fed the bits of a stream of the grammar, takes exactly those bits, part by part,
 and recovers what they stand for.
*/
module ReadBack {
  import opened Bits
  import opened BitIO
  import opened Crc
  import opened Huffman
  import opened MoveToFront
  import opened RunLength
  import opened InverseBwt
  import opened StreamFormat
  import opened Decoder
  import opened StreamGrammar

  // ---------- single reads ----------

  lemma Reads(d: D, v: nat, n: nat, rest: Bits)
    requires Reading(d) && Need(d) == n && v < Pow2(n)
    ensures RunBits(d, ToBits(v, n) + rest) == RunBits(Advance(d, v), rest)
  {
    hide RunBits;
    var w := ToBits(v, n);
    RunReads(d, w + rest, n);
    assert (w + rest)[..n] == w && (w + rest)[n..] == rest;
    FromToBits(v, n);
    ModSmall(v, Pow2(n));
  }

  function BitValue(f: bool): nat {
    if f then 1 else 0
  }

  lemma ReadsBit(d: D, f: bool, rest: Bits)
    requires Reading(d) && Need(d) == 1
    ensures RunBits(d, [f] + rest) == RunBits(Advance(d, BitValue(f)), rest)
  {
    hide RunBits;
    var w := [f];
    RunReads(d, w + rest, 1);
    SliceAppend(w, rest, 1);
    assert w[..1] == w && w[1..] + rest == rest;
    assert FromBits(w) == BitValue(f) by { assert w[..0] == []; }
  }

  lemma ReadsByte(d: D, s: seq<byte>, rest: Bits)
    requires Reading(d) && Need(d) == 8 && s != []
    ensures RunBits(d, BytesBits(s) + rest) == RunBits(Advance(d, s[0]), BytesBits(s[1..]) + rest)
  {
    hide RunBits;
    assert Pow2(8) == 256;
    Assoc3(ToBits(s[0], 8), BytesBits(s[1..]), rest);
    Reads(d, s[0], 8, BytesBits(s[1..]) + rest);
  }

  lemma EmptyThen(rest: Bits)
    ensures [] + rest == rest
  {}

  // ---------- headers ----------

  /** acc extended by bytes, most significant first. */
  function Gather(acc: nat, s: seq<byte>): nat
    decreases |s|
  {
    if s == [] then acc else Gather(Shift8(acc, s[0]), s[1..])
  }

  // ---------- numbers ----------

  /** The next eight of the last k bits of a number, and the number that they make with those before. */
  lemma NextByte(v: nat, k: nat) returns (b: byte)
    requires k >= 8
    ensures ToBits(v, k) == ToBits(b, 8) + ToBits(v, k - 8) && Shift8(Shr(v, k), b) == Shr(v, k - 8)
  {
    var x := Shr(v, k - 8);
    b := x % 256;
    ToBitsSplitAt(v, k, 8, k - 8);
    FromToBits(x, 8);
    ToFromBits(ToBits(x, 8));
    Pow2Values();
    ShrShr(v, k - 8, 8);
    ShrDiv(x, 8);
  }

  lemma {:induction false} ShrShr(v: nat, m: nat, n: nat)
    ensures Shr(v, m + n) == Shr(Shr(v, m), n)
    decreases m, v
  {
    if m > 0 { ShrShr(v / 2, m - 1, n); }
  }

  lemma {:induction false} ReadBlockCrc(h: Hdr, i: nat, k: nat, v: nat, rest: Bits)
    requires i < 4 && k == 32 - 8 * i
    ensures RunBits(Bcrc(h, i, Shr(v, k)), ToBits(v, k) + rest) == RunBits(RandBit(h, v), rest)
    decreases k
  {
    hide RunBits, ToBits, Shr;
    var b := NextByte(v, k);
    ReadOneByte(Bcrc(h, i, Shr(v, k)), b, ToBits(v, k), ToBits(v, k - 8), rest);
    if i < 3 {
      ReadBlockCrc(h, i + 1, k - 8, v, rest);
    } else {
      NoBits(v, rest);
    }
  }

  lemma {:induction false} ReadStreamCrc(h: Hdr, i: nat, k: nat, rest: Bits)
    requires i < 4 && k == 32 - 8 * i
    ensures RunBits(Ccrc(h, i, Shr(h.combined as nat, k)), ToBits(h.combined as nat, k) + rest) == RunBits(Idle, rest)
    decreases k
  {
    hide RunBits, ToBits, Shr;
    var v := h.combined as nat;
    var b := NextByte(v, k);
    ReadOneByte(Ccrc(h, i, Shr(v, k)), b, ToBits(v, k), ToBits(v, k - 8), rest);
    if i < 3 {
      ReadStreamCrc(h, i + 1, k - 8, rest);
    } else {
      NoBits(v, rest);
    }
  }

  lemma {:induction false} ReadOrigPtr(h: Hdr, crc: nat, i: nat, k: nat, v: nat, rest: Bits)
    requires i < 3 && k == 24 - 8 * i && v <= 10 + 100000 * h.level
    ensures RunBits(OrigPtr(h, crc, i, Shr(v, k)), ToBits(v, k) + rest) == RunBits(Mapping1(Blk(h, crc, v), []), rest)
    decreases k
  {
    hide RunBits, ToBits, Shr;
    var b := NextByte(v, k);
    ReadOneByte(OrigPtr(h, crc, i, Shr(v, k)), b, ToBits(v, k), ToBits(v, k - 8), rest);
    if i < 2 {
      ReadOrigPtr(h, crc, i + 1, k - 8, v, rest);
    } else {
      NoBits(v, rest);
    }
  }

  lemma NoBits(v: nat, rest: Bits)
    ensures ToBits(v, 0) + rest == rest && Shr(v, 0) == v
  {}

  lemma ReadOneByte(d: D, b: byte, w: Bits, w': Bits, rest: Bits)
    requires Reading(d) && Need(d) == 8 && w == ToBits(b, 8) + w'
    ensures RunBits(d, w + rest) == RunBits(Advance(d, b), w' + rest)
  {
    hide RunBits, ToBits, Advance;
    Pow2Values();
    Assoc3(ToBits(b, 8), w', rest);
    Reads(d, b, 8, w' + rest);
  }

  // ---------- magics ----------

  lemma {:induction false} ReadHeader(level: nat, i: nat, s: seq<byte>, rest: Bits)
    requires 1 <= level <= 9 && i < 4 && s == HeaderBytes(level)[i..]
    ensures RunBits(Magic(i), BytesBits(s) + rest) == RunBits(BlkHdr(Hdr(level, 0), 0), rest)
    decreases 4 - i
  {
    hide RunBits;
    ReadsByte(Magic(i), s, rest);
    if i < 3 {
      assert s[0] == STREAM_MAGIC[i] && s[1..] == HeaderBytes(level)[i + 1..];
      ReadHeader(level, i + 1, s[1..], rest);
    } else {
      assert s[0] == 0x30 + level && s[1..] == [];
      assert Advance(Magic(i), s[0]) == BlkHdr(Hdr(level, 0), 0);
      EmptyThen(rest);
    }
  }

  lemma {:induction false} ReadBlockMagic(h: Hdr, i: nat, s: seq<byte>, rest: Bits)
    requires i < 6 && s == BLOCK_MAGIC[i..]
    ensures RunBits(BlkHdr(h, i), BytesBits(s) + rest) == RunBits(Bcrc(h, 0, 0), rest)
    decreases 6 - i
  {
    hide RunBits;
    ReadsByte(BlkHdr(h, i), s, rest);
    assert s[0] == BLOCK_MAGIC[i] && BLOCK_MAGIC[0] == 0x31;
    if i < 5 {
      assert s[1..] == BLOCK_MAGIC[i + 1..];
      ReadBlockMagic(h, i + 1, s[1..], rest);
    } else {
      assert s[1..] == [];
      EmptyThen(rest);
    }
  }

  lemma {:induction false} ReadEndMagic(h: Hdr, i: nat, s: seq<byte>, rest: Bits)
    requires 1 <= i < 6 && s == END_MAGIC[i..]
    ensures RunBits(EndHdr(h, i), BytesBits(s) + rest) == RunBits(Ccrc(h, 0, 0), rest)
    decreases 6 - i
  {
    hide RunBits;
    ReadsByte(EndHdr(h, i), s, rest);
    assert s[0] == END_MAGIC[i];
    if i < 5 {
      assert s[1..] == END_MAGIC[i + 1..];
      ReadEndMagic(h, i + 1, s[1..], rest);
    } else {
      assert s[1..] == [];
      EmptyThen(rest);
    }
  }

  // ---------- the byte map ----------

  lemma {:induction false} ReadMapping1(b: Blk, flags: seq<bool>, k: nat, rest: Bits)
    requires |flags| == 16 && k < 16
    ensures RunBits(Mapping1(b, flags[..k]), flags[k..] + rest) == RunBits(EnterMapping2(b, flags, 0, []), rest)
    decreases 16 - k
  {
    hide RunBits;
    var d := Mapping1(b, flags[..k]);
    assert flags[k..] + rest == [flags[k]] + (flags[k + 1..] + rest);
    ReadsBit(d, flags[k], flags[k + 1..] + rest);
    assert flags[..k] + [BitValue(flags[k]) == 1] == flags[..k + 1];
    if k < 15 {
      ReadMapping1(b, flags, k + 1, rest);
    } else {
      assert flags[..16] == flags && flags[16..] + rest == rest;
    }
  }

  lemma {:induction false} ReadGroup(b: Blk, in16: seq<bool>, i: nat, done: seq<bool>, g: seq<bool>, k: nat, rest: Bits)
    requires |g| == 16 && k < 16
    ensures RunBits(Mapping2(b, in16, i, done, g[..k]), g[k..] + rest)
         == RunBits(EnterMapping2(b, in16, i + 1, done + g), rest)
    decreases 16 - k
  {
    hide RunBits;
    var d := Mapping2(b, in16, i, done, g[..k]);
    assert g[k..] + rest == [g[k]] + (g[k + 1..] + rest);
    ReadsBit(d, g[k], g[k + 1..] + rest);
    assert g[..k] + [BitValue(g[k]) == 1] == g[..k + 1];
    if k < 15 {
      ReadGroup(b, in16, i, done, g, k + 1, rest);
    } else {
      assert g[..16] == g && g[16..] + rest == rest;
    }
  }

  lemma {:induction false} ReadAnnounced(b: Blk, flags: Bits, u: seq<bool>, i: nat, rest: Bits)
    requires |flags| == 16 && |u| == 256 && i <= 16 && NoOthers(flags, u, i)
    ensures RunBits(EnterMapping2(b, flags, i, u[..16 * i]), Announced(flags, u, i) + rest)
         == RunBits(AfterMapping(b, u), rest)
    decreases 16 - i
  {
    hide RunBits;
    if i == 16 {
      assert u[..256] == u;
      EmptyThen(rest);
    } else {
      var g, more := Group(u, i), Announced(flags, u, i + 1) + rest;
      ReadAnnounced(b, flags, u, i + 1, rest);
      assert u[..16 * (i + 1)] == u[..16 * i] + g;
      if flags[i] {
        Assoc3(g, Announced(flags, u, i + 1), rest);
        assert g[..0] == [] && g[0..] == g;
        ReadGroup(b, flags, i, u[..16 * i], g, 0, more);
      } else {
        Unannounced(flags, u, i);
        EmptyThen(Announced(flags, u, i + 1));
      }
    }
  }

  lemma Unannounced(flags: Bits, u: seq<bool>, i: nat)
    requires |flags| == 16 && |u| == 256 && i < 16 && NoOthers(flags, u, i) && !flags[i]
    ensures Group(u, i) == NoGroup()
  {
    forall k | 0 <= k < 16
      ensures Group(u, i)[k] == NoGroup()[k]
    {
      assert (16 * i + k) / 16 == i;
      assert !u[16 * i + k];
    }
  }

  lemma ReadMapping(b: Blk, flags: Bits, u: seq<bool>, rest: Bits)
    requires |flags| == 16 && |u| == 256 && NoOthers(flags, u, 0) && Used(u) != []
    ensures RunBits(Mapping1(b, []), flags + (Announced(flags, u, 0) + rest)) == RunBits(Selector1(b, Used(u)), rest)
  {
    hide RunBits, Used, NoOthers, Announced;
    assert flags[..0] == [] && flags[0..] == flags && u[..0] == [];
    ReadMapping1(b, flags, 0, Announced(flags, u, 0) + rest);
    ReadAnnounced(b, flags, u, 0, rest);
  }

  // ---------- selectors ----------

  lemma {:induction false} ReadUnary(b: Blk, used: seq<byte>, nGroups: nat, nSel: nat, i: nat, js: seq<nat>,
                                     j0: nat, k: nat, j: nat, rest: Bits)
    requires j0 + k == j < nGroups
    ensures RunBits(Selector3(b, used, nGroups, nSel, i, js, j0), Unary(k) + rest)
         == RunBits(Advance(Selector3(b, used, nGroups, nSel, i, js, j), 0), rest)
    decreases k
  {
    hide RunBits;
    var d := Selector3(b, used, nGroups, nSel, i, js, j0);
    if k == 0 {
      assert d == Selector3(b, used, nGroups, nSel, i, js, j);
      ReadsBit(d, false, rest);
    } else {
      Assoc3([true], Unary(k - 1), rest);
      ReadsBit(d, true, Unary(k - 1) + rest);
      assert Advance(d, 1) == Selector3(b, used, nGroups, nSel, i, js, j0 + 1);
      ReadUnary(b, used, nGroups, nSel, i, js, j0 + 1, k - 1, j, rest);
    }
  }

  lemma {:induction false} ReadSelectors(b: Blk, used: seq<byte>, nGroups: nat, all: seq<nat>, i: nat, rest: Bits)
    requires i < |all| && forall k :: 0 <= k < |all| ==> all[k] < nGroups
    ensures RunBits(Selector3(b, used, nGroups, |all|, i, Kept(all[..i]), 0), UnaryBits(all[i..]) + rest)
         == RunBits(AfterSelectors(b, used, nGroups, Kept(all)), rest)
    decreases |all| - i
  {
    hide RunBits, AfterSelectors;
    var j, more := all[i], UnaryBits(all[i + 1..]) + rest;
    assert all[i..][1..] == all[i + 1..];
    Assoc3(Unary(j), UnaryBits(all[i + 1..]), rest);
    ReadUnary(b, used, nGroups, |all|, i, Kept(all[..i]), 0, j, j, more);
    KeptMore(all, i);
    if i + 1 < |all| {
      ReadSelectors(b, used, nGroups, all, i + 1, rest);
    } else {
      assert all[..i + 1] == all && all[i + 1..] == [];
      EmptyThen(rest);
    }
  }

  lemma KeptMore(all: seq<nat>, i: nat)
    requires i < |all|
    ensures Kept(all[..i + 1]) == if |Kept(all[..i])| < MAX_SELECTORS then Kept(all[..i]) + [all[i]] else Kept(all[..i])
  {
    assert all[..i + 1] == all[..i] + [all[i]];
  }

  lemma {:induction false} SelMtfInverse(pos: seq<byte>, sels: seq<byte>)
    requires forall k :: 0 <= k < |sels| ==> sels[k] in pos
    ensures |SelMtf(pos, sels)| == |sels| && forall k :: 0 <= k < |sels| ==> SelMtf(pos, sels)[k] < |pos|
    ensures UnSelMtf(pos, SelMtf(pos, sels)) == sels
    decreases |sels|
  {
    if sels != [] {
      var j := IndexOf(pos, sels[0]);
      assert sels[0] in pos;
      IndexOfFound(pos, sels[0]);
      FrontKeeps(pos, j);
      SelMtfInverse(Front(pos, j), sels[1..]);
      assert SelMtf(pos, sels)[1..] == SelMtf(Front(pos, j), sels[1..]);
    }
  }

  lemma {:induction false} IdentityHas(n: nat, x: byte)
    requires x < n <= 256
    ensures x in Identity(n)
  {
    if x < n - 1 { IdentityHas(n - 1, x); }
  }

  lemma ReadSelectorPart(b: Blk, used: seq<byte>, nGroups: nat, js: seq<nat>, sels: seq<byte>, rest: Bits)
    requires 2 <= nGroups <= 6 && 1 <= |js| < 32768 && forall k :: 0 <= k < |js| ==> js[k] < nGroups
    requires SelMtf(Identity(nGroups), sels) == Kept(js) && forall k :: 0 <= k < |sels| ==> sels[k] < nGroups
    ensures RunBits(Selector1(b, used), ToBits(nGroups, 3) + (ToBits(|js|, 15) + (UnaryBits(js) + rest)))
         == RunBits(Coding1(Pre(b, used, nGroups, sels), []), rest)
  {
    hide RunBits, ToBits, UnaryBits, Identity, SelMtf, UnSelMtf;
    var pos := Identity(nGroups);
    forall k | 0 <= k < |sels|
      ensures sels[k] in pos
    {
      IdentityHas(nGroups, sels[k]);
    }
    SelMtfInverse(pos, sels);
    ReadCounts(b, used, nGroups, |js|, UnaryBits(js) + rest);
    assert Kept(js[..0]) == [] && js[0..] == js;
    ReadSelectors(b, used, nGroups, js, 0, rest);
  }

  lemma ReadCounts(b: Blk, used: seq<byte>, nGroups: nat, nSel: nat, rest: Bits)
    requires 2 <= nGroups <= 6 && 1 <= nSel < 32768
    ensures RunBits(Selector1(b, used), ToBits(nGroups, 3) + (ToBits(nSel, 15) + rest))
         == RunBits(Selector3(b, used, nGroups, nSel, 0, [], 0), rest)
  {
    hide RunBits;
    Pow2Values();
    Reads(Selector1(b, used), nGroups, 3, ToBits(nSel, 15) + rest);
    Reads(Selector2(b, used, nGroups), nSel, 15, rest);
  }

  // ---------- code tables ----------

  lemma {:induction false} ReadRow(p: Pre, lens: seq<seq<nat>>, lenT: seq<nat>, curr: int, row: Bits, x: nat,
                                   rest: Bits)
    requires Climbs(curr, row, x)
    ensures RunBits(EnterCoding2(p, lens, lenT, curr), RowBits(row) + rest)
         == RunBits(AfterLength(p, lens, lenT + [x], x), rest)
    decreases |row|
  {
    hide RunBits, AfterLength;
    var d := Coding2(p, lens, lenT, curr);
    if row == [] {
      ReadsBit(d, false, rest);
    } else {
      var more := RowBits(row[1..]) + rest;
      assert RowBits(row) + rest == [true] + ([row[0]] + more);
      ReadsBit(d, true, [row[0]] + more);
      ReadsBit(Coding3(p, lens, lenT, curr), row[0], more);
      ReadRow(p, lens, lenT, if row[0] then curr - 1 else curr + 1, row[1..], x, rest);
    }
  }

  /** What follows a complete table. */
  function AfterTable(p: Pre, lens: seq<seq<nat>>): D {
    if |lens| < p.nGroups then Coding1(p, lens) else EnterMtf(Ctx(p.b, p.sels, lens, 0, 0), SymState(NoRun, p.used, []))
  }

  lemma {:induction false} ReadRows(p: Pre, lens: seq<seq<nat>>, lenT: seq<nat>, curr: nat, rows: seq<Bits>,
                                    ls: seq<nat>, rest: Bits)
    requires |lenT| + |ls| == |p.used| + 2 && ls != [] && ClimbAll(curr, rows, ls)
    ensures RunBits(EnterCoding2(p, lens, lenT, curr), RowsBits(rows) + rest)
         == RunBits(AfterTable(p, lens + [lenT + ls]), rest)
    decreases |ls|
  {
    hide RunBits, EnterCoding2, Climbs, RowBits, EnterMtf;
    var x, tail := ls[0], RowsBits(rows[1..]);
    Assoc3(RowBits(rows[0]), tail, rest);
    ReadRow(p, lens, lenT, curr, rows[0], x, tail + rest);
    assert lenT + [x] + ls[1..] == lenT + ls;
    if |ls| > 1 {
      ReadRows(p, lens, lenT + [x], x, rows[1..], ls[1..], rest);
    } else {
      assert tail == [] && lenT + [x] == lenT + ls;
      EmptyThen(rest);
    }
  }

  lemma {:induction false} ReadTables(p: Pre, lens: seq<seq<nat>>, tables: seq<Table>, more: seq<seq<nat>>, rest: Bits)
    requires more != [] && |lens| + |more| == p.nGroups && |tables| == |more|
    requires forall t :: 0 <= t < |tables| ==> GoodTable(tables[t], more[t], |p.used| + 2) && tables[t].start <= 20
    ensures RunBits(Coding1(p, lens), SentTables(tables) + rest)
         == RunBits(EnterMtf(Ctx(p.b, p.sels, lens + more, 0, 0), SymState(NoRun, p.used, [])), rest)
    decreases |more|
  {
    hide RunBits, ClimbAll, RowsBits, EnterMtf, EnterCoding2, ToBits;
    var t, tail := tables[0], SentTables(tables[1..]);
    assert GoodTable(t, more[0], |p.used| + 2);
    Assoc3(SentTable(t), tail, rest);
    Assoc3(ToBits(t.start, 5), RowsBits(t.rows), tail + rest);
    Pow2Values();
    Reads(Coding1(p, lens), t.start, 5, RowsBits(t.rows) + (tail + rest));
    ReadRows(p, lens, [], t.start, t.rows, more[0], tail + rest);
    assert [] + more[0] == more[0] && lens + [more[0]] + more[1..] == lens + more;
    if |more| > 1 {
      ReadTables(p, lens + [more[0]], tables[1..], more[1..], rest);
    } else {
      assert tail == [] && lens + [more[0]] == lens + more;
      EmptyThen(rest);
    }
  }

  // ---------- symbols ----------

  /** With m bits of a code read and k to come, the automaton reads the rest of the code and finds its symbol. */
  lemma {:induction false} ReadCodeFrom(c: Ctx, s: SymState, sym: nat, v: nat, m: nat, k: nat, rest: Bits)
    requires sym < |GroupLens(c)| <= MAX_ALPHA_SIZE && LensIn(GroupLens(c), 1, LONGEST)
    requires v == Code(GroupLens(c), MinLen(GroupLens(c)), sym)
    requires MinLen(GroupLens(c)) <= m && m + k == GroupLens(c)[sym]
    ensures RunBits(OnCode(c, s, m, Shr(v, k)), ToBits(v, k) + rest) == RunBits(OnSymbol(c, s, sym), rest)
    decreases k
  {
    hide RunBits;
    CanonicalInversion(GroupLens(c), sym, m, k);
    if k == 0 {
      EmptyThen(rest);
    } else {
      NextBit(v, k);
      ReadCodeBit(c, s, m + 1, Shr(v, k), Bit(Shr(v, k - 1)), Shr(v, k - 1), ToBits(v, k - 1) + rest);
      Assoc3([Bit(Shr(v, k - 1))], ToBits(v, k - 1), rest);
      ReadCodeFrom(c, s, sym, v, m + 1, k - 1, rest);
    }
  }

  lemma ReadCodeBit(c: Ctx, s: SymState, zn: nat, zvec: nat, bit: bool, zvec': nat, rest: Bits)
    requires zvec' == 2 * zvec + BitValue(bit)
    ensures RunBits(MtfBit(c, s, zn, zvec), [bit] + rest) == RunBits(OnCode(c, s, zn, zvec'), rest)
  {
    hide RunBits, OnCode;
    ReadsBit(MtfBit(c, s, zn, zvec), bit, rest);
    var v := BitValue(bit);
    assert Advance(MtfBit(c, s, zn, zvec), v) == OnCode(c, s, zn, 2 * zvec + v);
    assert 2 * zvec + v == zvec';
  }

  lemma {:induction false} ShrStep(v: nat, k: nat)
    ensures Shr(v, k + 1) == Shr(v, k) / 2
  {
    if k > 0 { ShrStep(v / 2, k - 1); }
  }

  lemma NextBit(v: nat, k: nat)
    requires k > 0
    ensures ToBits(v, k) == [Bit(Shr(v, k - 1))] + ToBits(v, k - 1)
    ensures 2 * Shr(v, k) + BitValue(Bit(Shr(v, k - 1))) == Shr(v, k - 1)
  {
    ShrStep(v, k - 1);
    ToBitsSplit(v, 1, k - 1);
    assert ToBits(Shr(v, k - 1), 1) == [Bit(Shr(v, k - 1))];
  }

  lemma {:induction false} ShrLess(v: nat, n: nat, m: nat, k: nat)
    requires n == m + k && v < Pow2(n)
    ensures Shr(v, k) < Pow2(m)
    decreases k
  {
    if k > 0 { ShrLess(v / 2, n - 1, m, k - 1); }
  }

  lemma ReadFirstBits(c: Ctx, s: SymState, m: nat, hi: nat, rest: Bits)
    requires 1 <= m == MinLen(GroupLens(c)) && hi < Pow2(m)
    ensures RunBits(Mtf(c, s), ToBits(hi, m) + rest) == RunBits(OnCode(c, s, m, hi), rest)
  {
    hide RunBits, OnCode;
    assert Need(Mtf(c, s)) == m && Advance(Mtf(c, s), hi) == OnCode(c, s, m, hi);
    Reads(Mtf(c, s), hi, m, rest);
  }

  lemma ReadCode(c: Ctx, s: SymState, lens: seq<nat>, sym: nat, rest: Bits)
    requires lens == GroupLens(c) && sym < |lens| <= MAX_ALPHA_SIZE && LensIn(lens, 1, LONGEST)
    requires Code(lens, MinLen(lens), sym) < Pow2(lens[sym])
    ensures RunBits(Mtf(c, s), CodeBits(lens, sym) + rest) == RunBits(OnSymbol(c, s, sym), rest)
  {
    hide RunBits, OnCode, OnSymbol, GroupLens, Code, Shr, ToBits, Pow2;
    var m, n := MinLen(lens), lens[sym];
    MinMaxIn(lens, 1, LONGEST);
    MinMaxBound(lens, sym);
    var k, v := n - m, Code(lens, m, sym);
    assert m + k == n;
    ShrLess(v, n, m, k);
    ToBitsSplitAt(v, n, m, k);
    Assoc3(ToBits(Shr(v, k), m), ToBits(v, k), rest);
    ReadFirstBits(c, s, m, Shr(v, k), ToBits(v, k) + rest);
    ReadCodeFrom(c, s, sym, v, m, k, rest);
  }

  lemma ReadSymbol(c: Ctx, s: SymState, alphaSize: nat, syms: seq<nat>, rest: Bits)
    requires 0 < c.g <= |c.sels| && c.pos > 0 && Tabled(c.lens, c.sels, alphaSize) && alphaSize <= MAX_ALPHA_SIZE
    requires syms != [] && SymbolsFit(c.lens, c.sels, syms) && Sendable(c.lens, c.sels, c.g, c.pos, syms)
    ensures SymbolsFit(c.lens, c.sels, syms[1..]) && Sendable(c.lens, c.sels, c.g, c.pos - 1, syms[1..])
    ensures RunBits(EnterMtf(c, s), SymBits(c.lens, c.sels, c.g, c.pos, syms) + rest)
         == RunBits(OnSymbol(c.(pos := c.pos - 1), s, syms[0]),
                    SymBits(c.lens, c.sels, c.g, c.pos - 1, syms[1..]) + rest)
  {
    hide RunBits, CodeBits, OnSymbol, Code;
    var c1, lens := c.(pos := c.pos - 1), c.lens[c.sels[c.g - 1]];
    assert EnterMtf(c, s) == Mtf(c1, s) && GroupLens(c1) == lens;
    var tail := SymBits(c.lens, c.sels, c.g, c.pos - 1, syms[1..]);
    Assoc3(CodeBits(lens, syms[0]), tail, rest);
    ReadCode(c1, s, lens, syms[0], tail + rest);
  }

  /** The symbols are read one by one; the last one completes the column. */
  lemma {:induction false} ReadSymbols(c: Ctx, s: SymState, alphaSize: nat, syms: seq<nat>, col: seq<byte>, rest: Bits)
    requires c.g <= |c.sels| && (c.g == 0 ==> c.pos == 0)
    requires Tabled(c.lens, c.sels, alphaSize) && alphaSize <= MAX_ALPHA_SIZE
    requires SymbolsFit(c.lens, c.sels, syms) && Sendable(c.lens, c.sels, c.g, c.pos, syms)
    requires Spells(s, syms, MaxBlock(c.b), col)
    ensures RunBits(EnterMtf(c, s), SymBits(c.lens, c.sels, c.g, c.pos, syms) + rest)
         == RunBits(OnColumn(c.b, col), rest)
    decreases |syms|, if c.pos == 0 then 1 else 0
  {
    hide RunBits, SymStep, OnColumn, CodeBits, Tabled, SymbolsFit, Code;
    if c.pos == 0 {
      var c1 := c.(g := c.g + 1, pos := G_SIZE);
      ReadSymbols(c1, s, alphaSize, syms, col, rest);
    } else {
      ReadSymbol(c, s, alphaSize, syms, rest);
      var c1 := c.(pos := c.pos - 1);
      if SymStep(s, syms[0], MaxBlock(c.b)).Go? {
        ReadSymbols(c1, SymStep(s, syms[0], MaxBlock(c.b)).s, alphaSize, syms[1..], col, rest);
      } else {
        EmptyThen(rest);
      }
    }
  }

  /** The symbols up to the last leave the decoder going, the last ends the column. */
  lemma {:induction false} SpellsTo(s: SymState, syms: seq<nat>, last: nat, max: nat, col: seq<byte>)
    requires SymRun(s, syms + [last], max) == Done(col) && SymRun(s, syms, max).Go?
    ensures Spells(s, syms + [last], max, col)
    decreases |syms|
  {
    hide SymStep;
    if syms == [] {
      assert syms + [last] == [last];
      LastSymbol(s, last, max);
    } else {
      assert (syms + [last])[1..] == syms[1..] + [last];
      SpellsTo(SymStep(s, syms[0], max).s, syms[1..], last, max, col);
    }
  }

  /** The symbols of a column spell it. */
  lemma ColumnSpelt(used: seq<byte>, col: seq<byte>, max: nat)
    requires used != [] && |col| <= max < RUN_GUARD
    requires forall k :: 0 <= k < |col| ==> col[k] in used
    ensures Spells(SymState(NoRun, used, []), MtfCode(used, col), max, col)
  {
    hide SymRun, EncFold, Spells;
    MtfRoundTrip(used, col, max);
    SymbolsGo(used, col, max);
    var e := EncFold(used, col);
    SpellsTo(SymState(NoRun, used, []), e.out + Digits(e.zPend), |used| + 1, max, col);
  }

  lemma SymbolsGo(used: seq<byte>, col: seq<byte>, max: nat)
    requires used != [] && |col| <= max < RUN_GUARD
    requires forall k :: 0 <= k < |col| ==> col[k] in used
    ensures var e := EncFold(used, col);
            SymRun(SymState(NoRun, used, []), e.out + Digits(e.zPend), max).Go?
  {
    EncKeeps(used, col, max);
    var e := EncFold(used, col);
    var s := SymState(NoRun, e.list, col[..|col| - e.zPend]);
    SymRunAppend(SymState(NoRun, used, []), e.out, Digits(e.zPend), max);
    if e.zPend > 0 {
      DigitsValue(s, e.zPend, -1, 1, e.zPend, max);
    }
  }

  // ---------- blocks ----------

  /** All that is sent behind the origin pointer. */
  lemma ReadBody(b: Blk, p: Part, rest: Bits)
    requires GoodChoices(p) && Coded(p) && |p.col| <= MaxBlock(b) < RUN_GUARD
    requires forall k :: 0 <= k < |p.col| ==> p.col[k] in Used(p.u)
    ensures RunBits(Mapping1(b, []), BodyBits(p) + rest) == RunBits(OnColumn(b, p.col), rest)
  {
    hide RunBits, EnterMtf, Tabled, SymbolsFit, SymBits, MtfCode, Used, Announced, NoOthers, ToBits, UnaryBits,
         SentTables, GoodTable, SelMtf, Kept, Identity, Sendable, Spells, OnColumn;
    var used, syms := Used(p.u), PartSymbols(p);
    UsedSize(p.u);
    var n, y := |p.tables|, SymBits(p.lens, p.sels, 0, 0, syms);
    JoinSeven(p.flags, Announced(p.flags, p.u, 0), ToBits(n, 3), ToBits(|p.js|, 15), UnaryBits(p.js),
              SentTables(p.tables), y, rest);
    var r4 := SentTables(p.tables) + (y + rest);
    ReadMapping(b, p.flags, p.u, ToBits(n, 3) + (ToBits(|p.js|, 15) + (UnaryBits(p.js) + r4)));
    SelectorsWithin(p);
    TablesAre(p.tables, p.lens, p.sels, |used| + 2);
    ReadSelectorPart(b, used, n, p.js, p.sels, r4);
    ReadTables(Pre(b, used, n, p.sels), [], p.tables, p.lens, y + rest);
    assert [] + p.lens == p.lens;
    ColumnSpelt(used, p.col, MaxBlock(b));
    ReadSymbols(Ctx(b, p.sels, p.lens, 0, 0), SymState(NoRun, used, []), |used| + 2, syms, p.col, rest);
  }

  lemma SelectorsWithin(p: Part)
    requires GoodChoices(p) && Coded(p)
    ensures forall k :: 0 <= k < |p.sels| ==> p.sels[k] < |p.tables|
    ensures forall t :: 0 <= t < |p.tables| ==> p.tables[t].start <= 20
  {
    hide Used, NoOthers, Kept, SelMtf, Identity, Sendable, Climbs;
    forall t | 0 <= t < |p.tables|
      ensures p.tables[t].start <= 20
    {
      assert GoodTable(p.tables[t], p.lens[t], |Used(p.u)| + 2);
      FirstClimb(p.tables[t], p.lens[t]);
    }
  }

  lemma FirstClimb(t: Table, lens: seq<nat>)
    requires ClimbAll(t.start, t.rows, lens) && lens != []
    ensures t.start <= 20
  {}

  /** A block, read and put out. */
  lemma ReadPart(h: Hdr, p: Part, rest: Bits)
    requires GoodPart(p, h.level) && 1 <= h.level <= 9
    ensures var r := RunBits(BlkHdr(h.(combined := Combine(h.combined, BlockCrc(PartData(p)))), 0), rest);
            RunBits(BlkHdr(h, 0), PartBits(p) + rest) == Outcome(PartData(p) + r.out, r.d, r.rest)
  {
    hide RunBits, BodyBits, GoodChoices, Coded, UnRle, Inverse, BlockCrc, Combine, Complete, Used, Walk, TInv, ToBits,
         BytesBits;
    ReadHead(h, p.crc, p.orig, BodyBits(p) + rest);
    JoinFour(BytesBits([0x31, 0x41, 0x59, 0x26, 0x53, 0x59]), ToBits(p.crc, 32), [false], ToBits(p.orig, 24),
             BodyBits(p), rest);
    ReadBody(Blk(h, p.crc, p.orig), p, rest);
    RunEmits(Output(h, p.crc, p.col, p.orig), rest);
  }

  lemma ReadHead(h: Hdr, crc: nat, orig: nat, rest: Bits)
    requires crc < 0x1_0000_0000 && orig < 100000 * h.level <= 900000
    ensures RunBits(BlkHdr(h, 0), BytesBits([0x31, 0x41, 0x59, 0x26, 0x53, 0x59])
                                  + (ToBits(crc, 32) + ([false] + (ToBits(orig, 24) + rest))))
         == RunBits(Mapping1(Blk(h, crc, orig), []), rest)
  {
    hide RunBits, ToBits, BytesBits;
    var r1 := ToBits(orig, 24) + rest;
    assert BLOCK_MAGIC[0..] == BLOCK_MAGIC;
    ReadBlockMagic(h, 0, BLOCK_MAGIC, ToBits(crc, 32) + ([false] + r1));
    Pow2Values();
    ShrGone(crc, 32, 32);
    ReadBlockCrc(h, 0, 32, crc, [false] + r1);
    ReadsBit(RandBit(h, crc), false, r1);
    assert Advance(RandBit(h, crc), 0) == OrigPtr(h, crc, 0, 0);
    ShrGone(orig, 24, 24);
    ReadOrigPtr(h, crc, 0, 24, orig, rest);
  }

  // ---------- streams ----------

  lemma ReadTrailer(h: Hdr, rest: Bits)
    ensures RunBits(BlkHdr(h, 0),
                    BytesBits([0x17, 0x72, 0x45, 0x38, 0x50, 0x90]) + (ToBits(h.combined as nat, 32) + rest))
         == Outcome([], Idle, rest)
  {
    hide RunBits, BytesBits, ToBits;
    var s := ToBits(h.combined as nat, 32) + rest;
    ReadsByte(BlkHdr(h, 0), END_MAGIC, s);
    assert END_MAGIC[0] == 0x17;
    ReadEndMagic(h, 1, END_MAGIC[1..], s);
    Pow2Values();
    ShrGone(h.combined as nat, 32, 32);
    ReadStreamCrc(h, 0, 32, rest);
    RunTerminal(Idle, rest);
  }

  lemma {:induction false} ReadParts(h: Hdr, parts: seq<Part>, rest: Bits)
    requires GoodParts(parts, h.level) && 1 <= h.level <= 9
    ensures RunBits(BlkHdr(h, 0), AfterHeader(parts, h.level, h.combined, rest))
            == Outcome(PartsData(parts), Idle, rest)
    decreases |parts|
  {
    hide RunBits, ToBits, BytesBits, PartBits, PartData, GoodPart, BlockCrc, Combine;
    if parts == [] {
      EmptyThen(BytesBits([0x17, 0x72, 0x45, 0x38, 0x50, 0x90]) + (ToBits(h.combined as nat, 32) + rest));
      ReadTrailer(h, rest);
    } else {
      var p, tail := parts[0], parts[1..];
      var h' := h.(combined := Combine(h.combined, BlockCrc(PartData(p))));
      assert [p] + tail == parts;
      FirstPart(p, tail, h.level, h.combined, h'.combined, rest);
      ReadPart(h, p, AfterHeader(tail, h.level, h'.combined, rest));
      ReadParts(h', tail, rest);
    }
  }

  /** Every stream is accepted, and comes out as its data. */
  lemma StreamIsAccepted(e: seq<byte>, level: nat, parts: seq<Part>, rest: Bits)
    requires IsStream(e, level, parts, rest)
    ensures RunBits(Start, BytesBits(e)) == Outcome(PartsData(parts), Idle, rest)
  {
    hide RunBits, ToBits, BytesBits, PartsBits, PartsCrc, PartsData, GoodParts;
    assert HeaderBytes(level)[0..] == [0x42, 0x5a, 0x68, 0x30 + level];
    ReadHeader(level, 0, HeaderBytes(level), AfterHeader(parts, level, 0, rest));
    ReadParts(Hdr(level, 0), parts, rest);
  }
}
