/**
 What the decoder accepts: a run that ends well has read a header, blocks whose data have the CRCs they are sent with,
 and a trailer with their combination, and nothing else would do. Each stage gives back what its bits stand for.
*/
module AcceptedStreams {
  import opened Bits
  import opened BitIO
  import opened Crc
  import opened Huffman
  import opened MoveToFront
  import opened RunLength
  import opened InverseBwt
  import opened StreamFormat
  import opened Decoder
  import opened ReadBack
  import opened StreamGrammar

  /** The bits lead from d to a good end. */
  predicate Accepts(d: D, bits: Bits) {
    RunBits(d, bits).d.Idle?
  }

  // ---------- single reads ----------

  lemma Alive(d: D, bits: Bits)
    requires Accepts(d, bits)
    ensures !d.Failed? && !d.Randomised?
    ensures Reading(d) ==> |bits| >= Need(d)
  {
    if d.Failed? || d.Randomised? { RunTerminal(d, bits); }
    if Reading(d) && |bits| < Need(d) { RunStops(d, bits); }
  }

  lemma Take(d: D, bits: Bits, n: nat) returns (v: nat, rest: Bits)
    requires Accepts(d, bits) && Reading(d) && n == Need(d)
    ensures v < Pow2(n) && |rest| + n == |bits| && bits == ToBits(v, n) + rest
    ensures RunBits(d, bits) == RunBits(Advance(d, v), rest) && Accepts(Advance(d, v), rest)
  {
    hide Advance, ToBits, Pow2, Need;
    Alive(d, bits);
    v, rest := FromBits(bits[..n]), bits[n..];
    RunReads(d, bits, n);
    ToFromBits(bits[..n]);
    hide RunBits;
    assert bits == bits[..n] + rest;
  }

  lemma TakeByte(d: D, bits: Bits) returns (b: byte, rest: Bits)
    requires Accepts(d, bits) && Reading(d) && Need(d) == 8
    ensures |rest| < |bits| && bits == ToBits(b, 8) + rest
    ensures RunBits(d, bits) == RunBits(Advance(d, b), rest) && Accepts(Advance(d, b), rest)
  {
    hide Advance, ToBits, Need, Accepts, RunBits;
    Pow2Values();
    b, rest := Take(d, bits, 8);
  }

  lemma TakeBit(d: D, bits: Bits) returns (f: bool, rest: Bits)
    requires Accepts(d, bits) && Reading(d) && Need(d) == 1
    ensures |rest| < |bits| && bits == [f] + rest
    ensures RunBits(d, bits) == RunBits(Advance(d, BitValue(f)), rest) && Accepts(Advance(d, BitValue(f)), rest)
  {
    hide Advance, Need, Accepts, RunBits;
    var v;
    v, rest := Take(d, bits, 1);
    assert Pow2(1) == 2;
    f := v == 1;
    assert ToBits(v, 1) == [f];
  }

  // ---------- numbers ----------

  /** A number read so far as bits w, with one more byte. */
  lemma OneByteMore(w: Bits, b: byte)
    ensures FromBits(w + ToBits(b, 8)) == Shift8(FromBits(w), b)
  {
    Pow2Values();
    AppendValue(w, b, 8);
  }

  lemma {:induction false} TakeBlockCrc(h: Hdr, i: nat, acc: nat, w: Bits, bits: Bits) returns (crc: nat, rest: Bits)
    requires i < 4 && |w| == 8 * i && FromBits(w) == acc && Accepts(Bcrc(h, i, acc), bits)
    ensures w + bits == ToBits(crc, 32) + rest && |rest| < |bits|
    ensures RunBits(Bcrc(h, i, acc), bits) == RunBits(RandBit(h, crc), rest) && Accepts(RandBit(h, crc), rest)
    decreases 4 - i
  {
    hide RunBits, Accepts, ToBits, FromBits;
    var b, r := TakeByte(Bcrc(h, i, acc), bits);
    var w' := w + ToBits(b, 8);
    OneByteMore(w, b);
    assert w + bits == w' + r;
    if i < 3 {
      crc, rest := TakeBlockCrc(h, i + 1, Shift8(acc, b), w', r);
    } else {
      crc, rest := Shift8(acc, b), r;
      ToFromBits(w');
    }
  }

  lemma {:induction false} TakeStreamCrc(h: Hdr, i: nat, acc: nat, w: Bits, bits: Bits) returns (rest: Bits)
    requires i < 4 && |w| == 8 * i && FromBits(w) == acc && Accepts(Ccrc(h, i, acc), bits)
    ensures w + bits == ToBits(h.combined as nat, 32) + rest
    ensures RunBits(Ccrc(h, i, acc), bits) == RunBits(Idle, rest)
    decreases 4 - i
  {
    hide RunBits, Accepts, ToBits, FromBits;
    var b, r := TakeByte(Ccrc(h, i, acc), bits);
    var w' := w + ToBits(b, 8);
    OneByteMore(w, b);
    assert w + bits == w' + r;
    if i < 3 {
      rest := TakeStreamCrc(h, i + 1, Shift8(acc, b), w', r);
    } else {
      rest := r;
      Alive(Advance(Ccrc(h, i, acc), b), r);
      ToFromBits(w');
    }
  }

  lemma {:induction false} TakeOrigPtr(h: Hdr, crc: nat, i: nat, acc: nat, w: Bits, bits: Bits)
    returns (orig: nat, rest: Bits)
    requires i < 3 && |w| == 8 * i && FromBits(w) == acc && Accepts(OrigPtr(h, crc, i, acc), bits)
    ensures w + bits == ToBits(orig, 24) + rest && |rest| < |bits|
    ensures RunBits(OrigPtr(h, crc, i, acc), bits) == RunBits(Mapping1(Blk(h, crc, orig), []), rest)
    ensures Accepts(Mapping1(Blk(h, crc, orig), []), rest)
    decreases 3 - i
  {
    hide RunBits, Accepts, ToBits, FromBits;
    var b, r := TakeByte(OrigPtr(h, crc, i, acc), bits);
    var w' := w + ToBits(b, 8);
    OneByteMore(w, b);
    assert w + bits == w' + r;
    if i < 2 {
      orig, rest := TakeOrigPtr(h, crc, i + 1, Shift8(acc, b), w', r);
    } else {
      Alive(Advance(OrigPtr(h, crc, i, acc), b), r);
      orig, rest := Shift8(acc, b), r;
      ToFromBits(w');
    }
  }

  // ---------- magics ----------

  lemma {:induction false} TakeStreamMagic(i: nat, bits: Bits) returns (level: nat, rest: Bits)
    requires i < 4 && Accepts(Magic(i), bits)
    ensures 1 <= level <= 9 && bits == BytesBits(HeaderBytes(level)[i..]) + rest
    ensures RunBits(Magic(i), bits) == RunBits(BlkHdr(Hdr(level, 0), 0), rest)
    ensures Accepts(BlkHdr(Hdr(level, 0), 0), rest)
    decreases 4 - i
  {
    hide RunBits, Accepts, ToBits;
    var b, r := TakeByte(Magic(i), bits);
    Alive(Advance(Magic(i), b), r);
    if i < 3 {
      level, rest := TakeStreamMagic(i + 1, r);
      assert HeaderBytes(level)[i..] == [b] + HeaderBytes(level)[i + 1..];
    } else {
      level, rest := b - 0x30, r;
      assert HeaderBytes(level)[3..] == [b] && BytesBits([b][1..]) == [];
    }
    OneThen(b, HeaderBytes(level)[i..], r, rest);
  }

  /** A byte before others. */
  lemma OneThen(b: byte, s: seq<byte>, r: Bits, rest: Bits)
    requires s != [] && s[0] == b && r == BytesBits(s[1..]) + rest
    ensures ToBits(b, 8) + r == BytesBits(s) + rest
  {
    hide ToBits;
    Assoc3(ToBits(b, 8), BytesBits(s[1..]), rest);
  }

  lemma {:induction false} TakeBlockMagic(h: Hdr, i: nat, bits: Bits) returns (rest: Bits)
    requires 1 <= i < 6 && Accepts(BlkHdr(h, i), bits)
    ensures bits == BytesBits(BLOCK_MAGIC[i..]) + rest && |rest| < |bits|
    ensures RunBits(BlkHdr(h, i), bits) == RunBits(Bcrc(h, 0, 0), rest) && Accepts(Bcrc(h, 0, 0), rest)
    decreases 6 - i
  {
    hide RunBits, Accepts, ToBits;
    var b, r := TakeByte(BlkHdr(h, i), bits);
    Alive(Advance(BlkHdr(h, i), b), r);
    if i < 5 {
      rest := TakeBlockMagic(h, i + 1, r);
      assert BLOCK_MAGIC[i..][1..] == BLOCK_MAGIC[i + 1..];
    } else {
      rest := r;
      assert BLOCK_MAGIC[i..][1..] == [];
    }
    OneThen(b, BLOCK_MAGIC[i..], r, rest);
  }

  lemma {:induction false} TakeEndMagic(h: Hdr, i: nat, bits: Bits) returns (rest: Bits)
    requires 1 <= i < 6 && Accepts(EndHdr(h, i), bits)
    ensures bits == BytesBits(END_MAGIC[i..]) + rest
    ensures RunBits(EndHdr(h, i), bits) == RunBits(Ccrc(h, 0, 0), rest) && Accepts(Ccrc(h, 0, 0), rest)
    decreases 6 - i
  {
    hide RunBits, Accepts, ToBits;
    var b, r := TakeByte(EndHdr(h, i), bits);
    Alive(Advance(EndHdr(h, i), b), r);
    if i < 5 {
      rest := TakeEndMagic(h, i + 1, r);
      assert END_MAGIC[i..][1..] == END_MAGIC[i + 1..];
    } else {
      rest := r;
      assert END_MAGIC[i..][1..] == [];
    }
    OneThen(b, END_MAGIC[i..], r, rest);
  }

  // ---------- the byte map ----------

  lemma {:induction false} TakeFlags(b: Blk, in16: seq<bool>, bits: Bits) returns (flags: seq<bool>, rest: Bits)
    requires |in16| < 16 && Accepts(Mapping1(b, in16), bits)
    ensures |flags| == 16 && in16 + bits == flags + rest && |rest| < |bits|
    ensures RunBits(Mapping1(b, in16), bits) == RunBits(EnterMapping2(b, flags, 0, []), rest)
    ensures Accepts(EnterMapping2(b, flags, 0, []), rest)
    decreases 16 - |in16|
  {
    hide RunBits, Accepts, EnterMapping2;
    var f, r := TakeBit(Mapping1(b, in16), bits);
    assert BitValue(f) == 1 <==> f;
    assert in16 + bits == in16 + [f] + r;
    if |in16| < 15 {
      flags, rest := TakeFlags(b, in16 + [f], r);
    } else {
      flags, rest := in16 + [f], r;
    }
  }

  lemma {:induction false} TakeGroup(b: Blk, in16: seq<bool>, i: nat, done: seq<bool>, cur: seq<bool>, bits: Bits)
    returns (g: seq<bool>, rest: Bits)
    requires |cur| < 16 && Accepts(Mapping2(b, in16, i, done, cur), bits)
    ensures |g| == 16 && cur + bits == g + rest && |rest| < |bits|
    ensures RunBits(Mapping2(b, in16, i, done, cur), bits) == RunBits(EnterMapping2(b, in16, i + 1, done + g), rest)
    ensures Accepts(EnterMapping2(b, in16, i + 1, done + g), rest)
    decreases 16 - |cur|
  {
    hide RunBits, Accepts, EnterMapping2;
    var f, r := TakeBit(Mapping2(b, in16, i, done, cur), bits);
    assert BitValue(f) == 1 <==> f;
    assert cur + bits == cur + [f] + r;
    if |cur| < 15 {
      g, rest := TakeGroup(b, in16, i, done, cur + [f], r);
    } else {
      g, rest := cur + [f], r;
    }
  }

  lemma {:induction false} TakeGroups(b: Blk, flags: seq<bool>, i: nat, done: seq<bool>, bits: Bits)
    returns (u: seq<bool>, rest: Bits)
    requires |flags| == 16 && i <= 16 && |done| == 16 * i && Accepts(EnterMapping2(b, flags, i, done), bits)
    ensures |u| == 256 && u[..16 * i] == done && NoOthers(flags, u, i)
    ensures bits == Announced(flags, u, i) + rest && |rest| <= |bits|
    ensures RunBits(EnterMapping2(b, flags, i, done), bits) == RunBits(AfterMapping(b, u), rest)
    ensures Accepts(AfterMapping(b, u), rest)
    decreases 16 - i
  {
    hide RunBits, Accepts, AfterMapping;
    if i == 16 {
      u, rest := done, bits;
      assert u[..256] == done;
    } else {
      var g, r := NoGroup(), bits;
      if flags[i] { g, r := TakeGroup(b, flags, i, done, [], bits); }
      u, rest := TakeGroups(b, flags, i + 1, done + g, r);
      FirstGroup(flags, u, i, done, g);
      Assoc3(if flags[i] then g else [], Announced(flags, u, i + 1), rest);
    }
  }

  lemma FirstGroup(flags: seq<bool>, u: seq<bool>, i: nat, done: seq<bool>, g: seq<bool>)
    requires |flags| == 16 && |u| == 256 && i < 16 && |done| == 16 * i && |g| == 16
    requires u[..16 * (i + 1)] == done + g && NoOthers(flags, u, i + 1) && (!flags[i] ==> g == NoGroup())
    ensures u[..16 * i] == done && Group(u, i) == g && NoOthers(flags, u, i)
  {
    assert u[..16 * i] == u[..16 * (i + 1)][..16 * i];
    forall k | 0 <= k < 16
      ensures Group(u, i)[k] == g[k]
    {
      assert u[16 * i + k] == u[..16 * (i + 1)][16 * i + k];
    }
    forall x | 16 * i <= x < 256 && u[x]
      ensures flags[x / 16]
    {
      if x < 16 * i + 16 {
        assert u[x] == g[x - 16 * i];
        assert !NoGroup()[x - 16 * i];
        assert x / 16 == i;
      }
    }
  }

  /** The byte map, and that some byte is in use. */
  lemma TakeMapping(b: Blk, bits: Bits) returns (flags: seq<bool>, u: seq<bool>, rest: Bits)
    requires Accepts(Mapping1(b, []), bits)
    ensures |flags| == 16 && |u| == 256 && NoOthers(flags, u, 0) && Used(u) != []
    ensures bits == flags + (Announced(flags, u, 0) + rest) && |rest| < |bits|
    ensures RunBits(Mapping1(b, []), bits) == RunBits(Selector1(b, Used(u)), rest)
    ensures Accepts(Selector1(b, Used(u)), rest)
  {
    hide RunBits, Accepts, EnterMapping2, Announced, Used, NoOthers;
    var r;
    flags, r := TakeFlags(b, [], bits);
    assert [] + bits == bits;
    u, rest := TakeGroups(b, flags, 0, [], r);
    Alive(AfterMapping(b, u), rest);
  }

  // ---------- selectors ----------

  lemma {:induction false} TakeUnary(b: Blk, used: seq<byte>, nGroups: nat, nSel: nat, i: nat, js: seq<nat>, j: nat,
                                     bits: Bits)
    returns (k: nat, rest: Bits)
    requires j < nGroups && Accepts(Selector3(b, used, nGroups, nSel, i, js, j), bits)
    ensures j + k < nGroups && bits == Unary(k) + rest && |rest| < |bits|
    ensures var d := Advance(Selector3(b, used, nGroups, nSel, i, js, j + k), 0);
            RunBits(Selector3(b, used, nGroups, nSel, i, js, j), bits) == RunBits(d, rest) && Accepts(d, rest)
    decreases |bits|
  {
    hide RunBits, Accepts, AfterSelectors;
    var d := Selector3(b, used, nGroups, nSel, i, js, j);
    var f, r := TakeBit(d, bits);
    Alive(Advance(d, BitValue(f)), r);
    if f {
      k, rest := TakeUnary(b, used, nGroups, nSel, i, js, j + 1, r);
      Assoc3([true], Unary(k), rest);
      k := k + 1;
    } else {
      k, rest := 0, r;
    }
  }

  /** The first n of the selectors, when no more are kept. */
  function FirstOf(js: seq<nat>, n: nat): seq<nat> {
    if |js| <= n then js else js[..n]
  }

  lemma {:induction false} TakeSelectors(b: Blk, used: seq<byte>, nGroups: nat, nSel: nat, before: seq<nat>, bits: Bits)
    returns (ks: seq<nat>, rest: Bits)
    requires |before| < nSel && 0 < nGroups
             && Accepts(Selector3(b, used, nGroups, nSel, |before|, FirstOf(before, MAX_SELECTORS), 0), bits)
    ensures |before| + |ks| == nSel && (forall k :: 0 <= k < |ks| ==> ks[k] < nGroups)
    ensures bits == UnaryBits(ks) + rest && |rest| < |bits|
    ensures var d := AfterSelectors(b, used, nGroups, FirstOf(before + ks, MAX_SELECTORS));
            RunBits(Selector3(b, used, nGroups, nSel, |before|, FirstOf(before, MAX_SELECTORS), 0), bits)
            == RunBits(d, rest) && Accepts(d, rest)
    decreases nSel - |before|
  {
    hide RunBits, Accepts, AfterSelectors;
    var k, r := TakeUnary(b, used, nGroups, nSel, |before|, FirstOf(before, MAX_SELECTORS), 0, bits);
    var now := before + [k];
    assert FirstOf(now, MAX_SELECTORS) == if |before| < MAX_SELECTORS then FirstOf(before, MAX_SELECTORS) + [k]
                                          else FirstOf(before, MAX_SELECTORS);
    if |before| + 1 < nSel {
      ks, rest := TakeSelectors(b, used, nGroups, nSel, now, r);
      assert before + ([k] + ks) == now + ks;
      Assoc3(Unary(k), UnaryBits(ks), rest);
      ks := [k] + ks;
    } else {
      ks, rest := [k], r;
      assert UnaryBits([k][1..]) == [] && Unary(k) + [] == Unary(k);
    }
  }

  /** What move-to-front makes of the positions is what has those positions. */
  lemma {:induction false} UnSelMtfInverse(pos: seq<byte>, js: seq<nat>)
    requires Distinct(pos) && forall k :: 0 <= k < |js| ==> js[k] < |pos|
    ensures |UnSelMtf(pos, js)| == |js| && SelMtf(pos, UnSelMtf(pos, js)) == js
    ensures forall k :: 0 <= k < |js| ==> UnSelMtf(pos, js)[k] in pos
    decreases |js|
  {
    if js != [] {
      IndexOfAt(pos, js[0]);
      FrontDistinct(pos, js[0]);
      UnSelMtfInverse(Front(pos, js[0]), js[1..]);
      var s := UnSelMtf(pos, js);
      assert s[1..] == UnSelMtf(Front(pos, js[0]), js[1..]) && s[0] == pos[js[0]];
      forall k | 0 <= k < |js|
        ensures s[k] in pos
      {
        if k > 0 { assert s[k] == s[1..][k - 1]; }
      }
    }
  }

  lemma {:induction false} IdentityDistinct(n: nat)
    requires n <= 256
    ensures Distinct(Identity(n)) && forall k :: 0 <= k < n ==> Identity(n)[k] < n
  {
    if n > 0 { IdentityDistinct(n - 1); }
  }

  lemma SelectorsOf(n: nat, js: seq<nat>)
    requires n <= 6 && forall k :: 0 <= k < |js| ==> js[k] < n
    ensures var sels := UnSelMtf(Identity(n), js);
            |sels| == |js| && SelMtf(Identity(n), sels) == js && forall k :: 0 <= k < |sels| ==> sels[k] < n
  {
    IdentityDistinct(n);
    UnSelMtfInverse(Identity(n), js);
    hide UnSelMtf, SelMtf, Identity;
    var sels := UnSelMtf(Identity(n), js);
    forall k | 0 <= k < |sels|
      ensures sels[k] < n
    {
      assert sels[k] in Identity(n);
    }
  }

  /** The number of tables, and of the selectors. */
  lemma TakeCounts(b: Blk, used: seq<byte>, bits: Bits) returns (nGroups: nat, nSel: nat, rest: Bits)
    requires Accepts(Selector1(b, used), bits)
    ensures 2 <= nGroups <= 6 && 1 <= nSel < 32768
    ensures bits == ToBits(nGroups, 3) + (ToBits(nSel, 15) + rest) && |rest| < |bits|
    ensures RunBits(Selector1(b, used), bits) == RunBits(Selector3(b, used, nGroups, nSel, 0, [], 0), rest)
    ensures Accepts(Selector3(b, used, nGroups, nSel, 0, [], 0), rest)
  {
    hide RunBits, Accepts, ToBits, Pow2;
    Pow2Values();
    var r;
    nGroups, r := Take(Selector1(b, used), bits, 3);
    Alive(Advance(Selector1(b, used), nGroups), r);
    nSel, rest := Take(Selector2(b, used, nGroups), r, 15);
    Alive(Advance(Selector2(b, used, nGroups), nSel), rest);
  }

  lemma TakeSelectorPart(b: Blk, used: seq<byte>, bits: Bits)
    returns (nGroups: nat, js: seq<nat>, sels: seq<byte>, rest: Bits)
    requires Accepts(Selector1(b, used), bits)
    ensures 2 <= nGroups <= 6 && 1 <= |js| < 32768 && forall k :: 0 <= k < |js| ==> js[k] < nGroups
    ensures SelMtf(Identity(nGroups), sels) == Kept(js) && |sels| == |Kept(js)|
            && forall k :: 0 <= k < |sels| ==> sels[k] < nGroups
    ensures bits == ToBits(nGroups, 3) + (ToBits(|js|, 15) + (UnaryBits(js) + rest)) && |rest| < |bits|
    ensures RunBits(Selector1(b, used), bits) == RunBits(Coding1(Pre(b, used, nGroups, sels), []), rest)
    ensures Accepts(Coding1(Pre(b, used, nGroups, sels), []), rest)
  {
    hide RunBits, Accepts, ToBits, UnaryBits, UnSelMtf, SelMtf, Identity;
    var r, nSel;
    nGroups, nSel, r := TakeCounts(b, used, bits);
    js, rest := TakeSelectors(b, used, nGroups, nSel, [], r);
    assert [] + js == js;
    SelectorsOf(nGroups, Kept(js));
    sels := UnSelMtf(Identity(nGroups), Kept(js));
  }

  // ---------- code tables ----------

  lemma {:induction false} TakeRow(p: Pre, lens: seq<seq<nat>>, lenT: seq<nat>, curr: int, bits: Bits)
    returns (row: Bits, x: nat, rest: Bits)
    requires Accepts(EnterCoding2(p, lens, lenT, curr), bits)
    ensures Climbs(curr, row, x) && bits == RowBits(row) + rest && |rest| < |bits|
    ensures RunBits(EnterCoding2(p, lens, lenT, curr), bits) == RunBits(AfterLength(p, lens, lenT + [x], x), rest)
    ensures Accepts(AfterLength(p, lens, lenT + [x], x), rest)
    decreases |bits|
  {
    hide RunBits, Accepts, AfterLength;
    Alive(EnterCoding2(p, lens, lenT, curr), bits);
    var f, r := TakeBit(Coding2(p, lens, lenT, curr), bits);
    if f {
      var down, r' := TakeBit(Coding3(p, lens, lenT, curr), r);
      row, x, rest := TakeRow(p, lens, lenT, if down then curr - 1 else curr + 1, r');
      assert [true] + ([down] + (RowBits(row) + rest)) == [true, down] + RowBits(row) + rest;
      assert ([down] + row)[1..] == row;
      row := [down] + row;
    } else {
      row, x, rest := [], curr, r;
    }
  }

  lemma {:induction false} TakeRows(p: Pre, lens: seq<seq<nat>>, lenT: seq<nat>, curr: nat, bits: Bits)
    returns (rows: seq<Bits>, ls: seq<nat>, rest: Bits)
    requires |lenT| < |p.used| + 2 && |lens| < p.nGroups && Accepts(EnterCoding2(p, lens, lenT, curr), bits)
    ensures |lenT| + |ls| == |p.used| + 2 && ClimbAll(curr, rows, ls) && bits == RowsBits(rows) + rest
            && |rest| < |bits|
    ensures var d := AfterTable(p, lens + [lenT + ls]);
            RunBits(EnterCoding2(p, lens, lenT, curr), bits) == RunBits(d, rest) && Accepts(d, rest)
    decreases |p.used| + 2 - |lenT|
  {
    hide RunBits, Accepts, EnterCoding2, Climbs, RowBits, EnterMtf;
    var row, x, r := TakeRow(p, lens, lenT, curr, bits);
    if |lenT| + 1 < |p.used| + 2 {
      rows, ls, rest := TakeRows(p, lens, lenT + [x], x, r);
      assert lenT + [x] + ls == lenT + ([x] + ls);
      Assoc3(RowBits(row), RowsBits(rows), rest);
    } else {
      rows, ls, rest := [], [], r;
      assert lenT + [x] == lenT + ([x] + []) && RowBits(row) + [] == RowBits(row);
    }
    FirstRow(curr, row, x, rows, ls);
    rows, ls := [row] + rows, [x] + ls;
  }

  lemma FirstRow(curr: nat, row: Bits, x: nat, rows: seq<Bits>, ls: seq<nat>)
    requires Climbs(curr, row, x) && ClimbAll(x, rows, ls)
    ensures ClimbAll(curr, [row] + rows, [x] + ls) && RowsBits([row] + rows) == RowBits(row) + RowsBits(rows)
  {
    hide Climbs, RowBits;
    assert ([row] + rows)[1..] == rows && ([x] + ls)[1..] == ls;
  }

  lemma {:induction false} TakeTables(p: Pre, lens: seq<seq<nat>>, bits: Bits)
    returns (tables: seq<Table>, more: seq<seq<nat>>, rest: Bits)
    requires |lens| < p.nGroups && Accepts(Coding1(p, lens), bits)
    ensures |lens| + |more| == p.nGroups && |tables| == |more|
    ensures forall t :: 0 <= t < |tables| ==> GoodTable(tables[t], more[t], |p.used| + 2)
    ensures bits == SentTables(tables) + rest && |rest| < |bits|
    ensures var d := EnterMtf(Ctx(p.b, p.sels, lens + more, 0, 0), SymState(NoRun, p.used, []));
            RunBits(Coding1(p, lens), bits) == RunBits(d, rest) && Accepts(d, rest)
    decreases p.nGroups - |lens|
  {
    hide RunBits, Accepts, EnterCoding2, ClimbAll, RowsBits, EnterMtf, ToBits;
    var start, r := Take(Coding1(p, lens), bits, 5);
    var rows, ls, r' := TakeRows(p, lens, [], start, r);
    assert [] + ls == ls;
    var table := Table(start, rows);
    Assoc3(ToBits(start, 5), RowsBits(rows), r');
    if |lens| + 1 < p.nGroups {
      tables, more, rest := TakeTables(p, lens + [ls], r');
      assert lens + [ls] + more == lens + ([ls] + more);
      Assoc3(SentTable(table), SentTables(tables), rest);
    } else {
      tables, more, rest := [], [], r';
      assert lens + [ls] == lens + ([ls] + []) && SentTable(table) + [] == SentTable(table);
    }
    assert ([table] + tables)[1..] == tables;
    tables, more := [table] + tables, [ls] + more;
  }

  // ---------- symbols ----------

  lemma {:induction false} TakeCode(c: Ctx, s: SymState, zn: nat, zvec: nat, w: Bits, bits: Bits)
    returns (sym: nat, rest: Bits)
    requires Accepts(OnCode(c, s, zn, zvec), bits) && |w| == zn && FromBits(w) == zvec
    requires var lens := GroupLens(c);
             && lens != [] && LensIn(lens, 1, 20) && MinLen(lens) <= zn
             && (zn > MinLen(lens) ==> zvec / 2 > LimitAt(lens, MinLen(lens), MaxLen(lens), zn - 1))
    ensures sym < |GroupLens(c)| && w + bits == CodeBits(GroupLens(c), sym) + rest && |rest| <= |bits|
    ensures Code(GroupLens(c), MinLen(GroupLens(c)), sym) < Pow2(GroupLens(c)[sym])
    ensures RunBits(OnCode(c, s, zn, zvec), bits) == RunBits(OnSymbol(c, s, sym), rest)
            && Accepts(OnSymbol(c, s, sym), rest)
    decreases |bits|
  {
    hide RunBits, Accepts, OnSymbol, GroupLens, LimitAt, BaseAt, Code, ToBits, PermAt, FromBits;
    var lens := GroupLens(c);
    Alive(OnCode(c, s, zn, zvec), bits);
    if LookUp(lens, zn, zvec).NeedBit? {
      var f, r := TakeBit(MtfBit(c, s, zn + 1, zvec), bits);
      AskedMore(lens, zn, zvec);
      OneBitMore(w, f);
      assert w + bits == w + [f] + r;
      var z := 2 * zvec + BitValue(f);
      sym, rest := TakeCode(c, s, zn + 1, z, w + [f], r);
    } else {
      sym, rest := LookUp(lens, zn, zvec).sym, bits;
      CodeOnly(lens, zn, zvec, sym);
      ToFromBits(w);
    }
  }

  lemma AskedMore(lens: seq<nat>, zn: nat, zvec: nat)
    requires LookUp(lens, zn, zvec) == NeedBit
    ensures zvec > LimitAt(lens, MinLen(lens), MaxLen(lens), zn)
  {}

  lemma OneBitMore(w: Bits, f: bool)
    ensures FromBits(w + [f]) == 2 * FromBits(w) + BitValue(f) && FromBits(w + [f]) / 2 == FromBits(w)
  {
    assert (w + [f])[..|w|] == w;
  }

  /** One symbol of an open group. */
  lemma TakeSymbol(c: Ctx, s: SymState, alphaSize: nat, bits: Bits) returns (sym: nat, rest: Bits)
    requires 0 < c.g <= |c.sels| && alphaSize > 0 && Tabled(c.lens, c.sels, alphaSize) && Accepts(Mtf(c, s), bits)
    ensures sym < alphaSize && bits == CodeBits(c.lens[c.sels[c.g - 1]], sym) + rest && |rest| < |bits|
    ensures var l := c.lens[c.sels[c.g - 1]];
            Code(l, MinLen(l), sym) < Pow2(l[sym])
    ensures RunBits(Mtf(c, s), bits) == RunBits(OnSymbol(c, s, sym), rest) && Accepts(OnSymbol(c, s, sym), rest)
  {
    hide RunBits, Accepts, OnSymbol, OnCode, ToBits;
    var lens := c.lens[c.sels[c.g - 1]];
    assert GroupLens(c) == lens;
    MinMaxIn(lens, 1, 20);
    var m := MinLen(lens);
    var v, r := Take(Mtf(c, s), bits, m);
    assert Advance(Mtf(c, s), v) == OnCode(c, s, m, v);
    FromToBits(v, m);
    ModSmall(v, Pow2(m));
    sym, rest := TakeCode(c, s, m, v, ToBits(v, m), r);
  }

  lemma {:induction false} TakeSymbols(c: Ctx, s: SymState, alphaSize: nat, bits: Bits)
    returns (syms: seq<nat>, col: seq<byte>, rest: Bits)
    requires c.g <= |c.sels| && (c.g == 0 ==> c.pos == 0) && alphaSize > 0 && Tabled(c.lens, c.sels, alphaSize)
    requires Accepts(EnterMtf(c, s), bits)
    ensures SymbolsFit(c.lens, c.sels, syms) && Sendable(c.lens, c.sels, c.g, c.pos, syms)
    ensures Spells(s, syms, MaxBlock(c.b), col) && bits == SymBits(c.lens, c.sels, c.g, c.pos, syms) + rest
    ensures |rest| <= |bits|
    ensures RunBits(EnterMtf(c, s), bits) == RunBits(OnColumn(c.b, col), rest) && Accepts(OnColumn(c.b, col), rest)
    decreases |bits|, if c.pos == 0 then 1 else 0
  {
    hide RunBits, Accepts, OnColumn, SymStep, CodeBits, Tabled, SymBits, Sendable, SymbolsFit, Spells;
    Alive(EnterMtf(c, s), bits);
    if c.pos == 0 {
      var c1 := c.(g := c.g + 1, pos := G_SIZE);
      syms, col, rest := TakeSymbols(c1, s, alphaSize, bits);
      OpenGroup(c, s, syms, col);
    } else {
      var c1 := c.(pos := c.pos - 1);
      var sym, r := TakeSymbol(c1, s, alphaSize, bits);
      Alive(OnSymbol(c1, s, sym), r);
      if SymStep(s, sym, MaxBlock(c.b)).Go? {
        syms, col, rest := TakeSymbols(c1, SymStep(s, sym, MaxBlock(c.b)).s, alphaSize, r);
      } else {
        syms, col, rest := [], SymStep(s, sym, MaxBlock(c.b)).col, r;
        NoSymbols(c, c.pos - 1, alphaSize, rest);
      }
      SpeltOn(s, sym, syms, MaxBlock(c.b), col);
      FirstSymbol(c, s, alphaSize, sym, syms, rest);
      syms := [sym] + syms;
    }
  }

  /** A new group is opened for the symbols to come. */
  lemma OpenGroup(c: Ctx, s: SymState, syms: seq<nat>, col: seq<byte>)
    requires SymbolsFit(c.lens, c.sels, syms) && c.g < |c.sels| && c.pos == 0 && Spells(s, syms, MaxBlock(c.b), col)
    requires Sendable(c.lens, c.sels, c.g + 1, 50, syms)
    ensures Sendable(c.lens, c.sels, c.g, 0, syms)
    ensures SymBits(c.lens, c.sels, c.g, 0, syms) == SymBits(c.lens, c.sels, c.g + 1, G_SIZE, syms)
  {}

  lemma SpeltOn(s: SymState, sym: nat, syms: seq<nat>, max: nat, col: seq<byte>)
    requires var r := SymStep(s, sym, max);
             (r.Go? && Spells(r.s, syms, max, col)) || (r == Done(col) && syms == [])
    ensures Spells(s, [sym] + syms, max, col)
  {
    hide SymStep;
    assert ([sym] + syms)[1..] == syms;
  }

  lemma NoSymbols(c: Ctx, pos: nat, alphaSize: nat, rest: Bits)
    requires 0 < c.g <= |c.sels| && Tabled(c.lens, c.sels, alphaSize)
    ensures SymbolsFit(c.lens, c.sels, []) && Sendable(c.lens, c.sels, c.g, pos, [])
    ensures SymBits(c.lens, c.sels, c.g, pos, []) + rest == rest
  {
    EmptyThen(rest);
  }

  /** A symbol before others. */
  lemma FirstSymbol(c: Ctx, s: SymState, alphaSize: nat, sym: nat, syms: seq<nat>, rest: Bits)
    requires 0 < c.g <= |c.sels| && c.pos > 0 && Tabled(c.lens, c.sels, alphaSize) && sym < alphaSize
    requires SymbolsFit(c.lens, c.sels, syms) && Sendable(c.lens, c.sels, c.g, c.pos - 1, syms)
    requires var l := c.lens[c.sels[c.g - 1]];
             Code(l, MinLen(l), sym) < Pow2(l[sym])
    ensures SymbolsFit(c.lens, c.sels, [sym] + syms) && ([sym] + syms)[1..] == syms
    ensures Sendable(c.lens, c.sels, c.g, c.pos, [sym] + syms)
    ensures SymBits(c.lens, c.sels, c.g, c.pos, [sym] + syms) + rest
            == CodeBits(c.lens[c.sels[c.g - 1]], sym) + (SymBits(c.lens, c.sels, c.g, c.pos - 1, syms) + rest)
  {
    hide CodeBits;
    assert ([sym] + syms)[1..] == syms;
    Assoc3(CodeBits(c.lens[c.sels[c.g - 1]], sym), SymBits(c.lens, c.sels, c.g, c.pos - 1, syms), rest);
  }

  // ---------- blocks ----------

  lemma UsedDistinct(l: seq<byte>)
    requires forall i, j :: 0 <= i < j < |l| ==> l[i] < l[j]
    ensures Distinct(l)
  {}

  /** The symbols are those of their column. */
  lemma TakeColumn(b: Blk, u: seq<bool>, lens: seq<seq<nat>>, sels: seq<byte>, bits: Bits)
    returns (col: seq<byte>, rest: Bits)
    requires Used(u) != [] && Tabled(lens, sels, |Used(u)| + 2)
    requires Accepts(EnterMtf(Ctx(b, sels, lens, 0, 0), SymState(NoRun, Used(u), [])), bits)
    ensures SymbolsFit(lens, sels, MtfCode(Used(u), col)) && Sendable(lens, sels, 0, 0, MtfCode(Used(u), col))
    ensures b.origPtr < |col| <= MaxBlock(b) && forall k :: 0 <= k < |col| ==> col[k] in Used(u)
    ensures bits == SymBits(lens, sels, 0, 0, MtfCode(Used(u), col)) + rest && |rest| <= |bits|
    ensures var d := Output(b.h, b.crc, col, b.origPtr);
            RunBits(EnterMtf(Ctx(b, sels, lens, 0, 0), SymState(NoRun, Used(u), [])), bits) == RunBits(d, rest)
            && Accepts(d, rest)
  {
    hide RunBits, Accepts, EnterMtf, Tabled, SymbolsFit, SymBits, MtfCode, Spells, Used, Distinct;
    var syms;
    var c, s := Ctx(b, sels, lens, 0, 0), SymState(NoRun, Used(u), []);
    syms, col, rest := TakeSymbols(c, s, |Used(u)| + 2, bits);
    UsedOrdered(u);
    UsedDistinct(Used(u));
    MtfOnly(Used(u), syms, MaxBlock(b), col);
    Alive(OnColumn(b, col), rest);
  }

  /** All that is sent behind the origin pointer. */
  lemma TakeBody(b: Blk, bits: Bits) returns (p: Part, rest: Bits)
    requires Accepts(Mapping1(b, []), bits)
    ensures p.crc == b.crc && p.orig == b.origPtr && GoodChoices(p) && Coded(p)
    ensures p.orig < |p.col| <= MaxBlock(b) && forall k :: 0 <= k < |p.col| ==> p.col[k] in Used(p.u)
    ensures bits == BodyBits(p) + rest && |rest| <= |bits|
    ensures var d := Output(b.h, b.crc, p.col, p.orig);
            RunBits(Mapping1(b, []), bits) == RunBits(d, rest) && Accepts(d, rest)
  {
    hide RunBits, Accepts, EnterMtf, Tabled, SymbolsFit, SymBits, MtfCode, Used, Announced, NoOthers, ToBits, UnaryBits,
         SentTables, GoodTable, SelMtf, Kept, Identity;
    var flags, u, r1 := TakeMapping(b, bits);
    var nGroups, js, sels, r2 := TakeSelectorPart(b, Used(u), r1);
    var tables, lens, r3 := TakeTables(Pre(b, Used(u), nGroups, sels), [], r2);
    assert [] + lens == lens;
    TablesAre(tables, lens, sels, |Used(u)| + 2);
    var col;
    col, rest := TakeColumn(b, u, lens, sels, r3);
    p := Part(b.crc, b.origPtr, flags, u, js, tables, sels, lens, col);
    JoinSeven(flags, Announced(flags, u, 0), ToBits(nGroups, 3), ToBits(|js|, 15), UnaryBits(js), SentTables(tables),
              SymBits(lens, sels, 0, 0, MtfCode(Used(u), col)), rest);
  }

  /** A block that is accepted has survived its output. */
  lemma TakeOutput(d: D, rest: Bits) returns (c: word)
    requires d.Output? && Accepts(d, rest)
    ensures Complete(Inverse(d.col, d.orig)) && c == BlockCrc(UnRle(Inverse(d.col, d.orig))) && d.crc == c as nat
    ensures var d' := BlkHdr(d.h.(combined := Combine(d.h.combined, c)), 0);
            var r := RunBits(d', rest);
            Accepts(d', rest) && RunBits(d, rest) == Outcome(UnRle(Inverse(d.col, d.orig)) + r.out, r.d, r.rest)
  {
    RunEmits(d, rest);
    hide RunBits, BlockCrc, UnRle, Inverse, Combine, Complete, Walk, TInv;
    assert Accepts(AfterOutput(d), rest);
    Alive(AfterOutput(d), rest);
    c := BlockCrc(UnRle(Inverse(d.col, d.orig)));
  }

  /** The head of a block, behind the first byte of its magic. */
  lemma TakeHead(h: Hdr, bits: Bits) returns (crc: nat, orig: nat, rest: Bits)
    requires Accepts(BlkHdr(h, 1), bits)
    ensures bits == BytesBits(BLOCK_MAGIC[1..]) + (ToBits(crc, 32) + ([false] + (ToBits(orig, 24) + rest)))
    ensures |rest| < |bits|
    ensures RunBits(BlkHdr(h, 1), bits) == RunBits(Mapping1(Blk(h, crc, orig), []), rest)
            && Accepts(Mapping1(Blk(h, crc, orig), []), rest)
  {
    hide RunBits, Accepts, ToBits, BytesBits;
    var r1 := TakeBlockMagic(h, 1, bits);
    var r2, r3, f;
    crc, r2 := TakeBlockCrc(h, 0, 0, [], r1);
    EmptyThen(r1);
    f, r3 := TakeBit(RandBit(h, crc), r2);
    Alive(Advance(RandBit(h, crc), BitValue(f)), r3);
    orig, rest := TakeOrigPtr(h, crc, 0, 0, [], r3);
    EmptyThen(r3);
  }

  /** A whole block, behind the first byte of its magic. */
  lemma TakeBlock(h: Hdr, bits: Bits) returns (p: Part, rest: Bits)
    requires Accepts(BlkHdr(h, 1), bits)
    ensures GoodPart(p, h.level) && ToBits(0x31, 8) + bits == PartBits(p) + rest && |rest| < |bits|
    ensures var d := BlkHdr(h.(combined := Combine(h.combined, BlockCrc(PartData(p)))), 0);
            var r := RunBits(d, rest);
            Accepts(d, rest) && RunBits(BlkHdr(h, 1), bits) == Outcome(PartData(p) + r.out, r.d, r.rest)
  {
    hide RunBits, Accepts, ToBits, BytesBits, BodyBits, GoodChoices, Coded, UnRle, Inverse, BlockCrc, Combine, Complete,
         Used;
    var crc, orig, r := TakeHead(h, bits);
    p, rest := TakeBody(Blk(h, crc, orig), r);
    var c := TakeOutput(Output(h, crc, p.col, p.orig), rest);
    FirstOfMagic(bits, ToBits(crc, 32) + ([false] + (ToBits(orig, 24) + r)));
    JoinFour(BytesBits(BLOCK_MAGIC), ToBits(crc, 32), [false], ToBits(orig, 24), BodyBits(p), rest);
  }

  lemma FirstOfMagic(bits: Bits, more: Bits)
    requires bits == BytesBits(BLOCK_MAGIC[1..]) + more
    ensures ToBits(0x31, 8) + bits == BytesBits(BLOCK_MAGIC) + more
  {
    OneThen(0x31, BLOCK_MAGIC, bits, more);
  }

  // ---------- streams ----------

  /** The trailer, behind the first byte of its magic. */
  lemma TakeTrailer(h: Hdr, bits: Bits) returns (rest: Bits)
    requires Accepts(EndHdr(h, 1), bits)
    ensures ToBits(0x17, 8) + bits == BytesBits(END_MAGIC) + (ToBits(h.combined as nat, 32) + rest)
    ensures RunBits(EndHdr(h, 1), bits) == Outcome([], Idle, rest)
  {
    hide RunBits, Accepts, ToBits;
    var r := TakeEndMagic(h, 1, bits);
    rest := TakeStreamCrc(h, 0, 0, [], r);
    EmptyThen(r);
    OneThen(0x17, END_MAGIC, bits, r);
    RunTerminal(Idle, rest);
  }

  lemma {:induction false} TakeParts(h: Hdr, bits: Bits) returns (parts: seq<Part>, rest: Bits)
    requires Accepts(BlkHdr(h, 0), bits)
    ensures GoodParts(parts, h.level) && bits == AfterHeader(parts, h.level, h.combined, rest)
    ensures RunBits(BlkHdr(h, 0), bits) == Outcome(PartsData(parts), Idle, rest)
    decreases |bits|
  {
    hide RunBits, Accepts, ToBits, BytesBits, PartBits, PartData, GoodPart, BlockCrc, Combine;
    var b, r := TakeByte(BlkHdr(h, 0), bits);
    Alive(Advance(BlkHdr(h, 0), b), r);
    if b == 0x17 {
      parts := [];
      rest := TakeTrailer(h, r);
      EmptyThen(bits);
    } else {
      var p, r' := TakeBlock(h, r);
      var h' := h.(combined := Combine(h.combined, BlockCrc(PartData(p))));
      parts, rest := TakeParts(h', r');
      FirstPart(p, parts, h.level, h.combined, h'.combined, rest);
      parts := [p] + parts;
    }
  }

  /**
   Only streams are accepted: bytes that the decoder reads to a good end are a header, blocks with the CRCs of their
   data and a trailer with those combined, and what it puts out is the data of the blocks.
  */
  lemma AcceptedIsStream(e: seq<byte>) returns (level: nat, parts: seq<Part>)
    requires RunBits(Start, BytesBits(e)).d == Idle
    ensures var r := RunBits(Start, BytesBits(e));
            IsStream(e, level, parts, r.rest) && r.out == PartsData(parts)
  {
    hide RunBits, ToBits, BytesBits, PartsBits, PartsCrc, PartsData, GoodParts;
    assert Accepts(Start, BytesBits(e));
    var r, rest;
    level, r := TakeStreamMagic(0, BytesBits(e));
    assert HeaderBytes(level)[0..] == [0x42, 0x5a, 0x68, 0x30 + level];
    parts, rest := TakeParts(Hdr(level, 0), r);
  }

  /** The streams are exactly what the decoder accepts. */
  lemma AcceptsExactlyStreams(e: seq<byte>)
    ensures RunBits(Start, BytesBits(e)).d == Idle <==> exists level, parts, rest :: IsStream(e, level, parts, rest)
  {
    hide RunBits, IsStream, PartsData;
    if RunBits(Start, BytesBits(e)).d == Idle {
      var level, parts := AcceptedIsStream(e);
    }
    if exists level, parts, rest :: IsStream(e, level, parts, rest) {
      var level, parts, rest :| IsStream(e, level, parts, rest);
      StreamIsAccepted(e, level, parts, rest);
    }
  }

  // ---------- refusals ----------

  /** Bytes that have been refused do not begin any stream. */
  lemma RefusedForGood(e: seq<byte>, more: seq<byte>, level: nat, parts: seq<Part>, rest: Bits)
    requires var d := RunBits(Start, BytesBits(e)).d;
             d.Failed? || d.Randomised?
    ensures !IsStream(e + more, level, parts, rest)
  {
    var r, b := RunBits(Start, BytesBits(e)), BytesBits(more);
    BytesBitsAppend(e, more);
    RunAppend(Start, BytesBits(e), b);
    RunTerminal(r.d, r.rest + b);
    hide RunBits, IsStream;
    if IsStream(e + more, level, parts, rest) { StreamIsAccepted(e + more, level, parts, rest); }
  }

  /** The bytes agree with the magic and a digit from 1 to 9 as far as they go. */
  predicate BeginsWell(e: seq<byte>) {
    && (|e| > 0 ==> e[0] == 0x42) && (|e| > 1 ==> e[1] == 0x5a) && (|e| > 2 ==> e[2] == 0x68)
    && (|e| > 3 ==> 0x31 <= e[3] <= 0x39)
  }

  /** Past the magic of the stream. */
  predicate PastMagic(d: D) {
    !d.Magic? && d != Failed(true)
  }

  lemma {:induction false} PastGroups(b: Blk, in16: seq<bool>, i: nat, done: seq<bool>)
    ensures PastMagic(EnterMapping2(b, in16, i, done))
    decreases |in16| - i
  {
    if i < |in16| && !in16[i] { PastGroups(b, in16, i + 1, done + NoGroup()); }
  }

  lemma PastStays(d: D, v: nat)
    requires PastMagic(d)
    ensures PastMagic(Advance(d, v))
  {
    hide EnterMapping2, UnSelMtf, SymStep, LookUp, MinLen, GroupLens, NoGroup, Used;
    match d
    case Mapping1(b, in16) => PastGroups(b, in16 + [v == 1], 0, []);
    case Mapping2(b, in16, i, done, cur) => PastGroups(b, in16, i + 1, done + (cur + [v == 1]));
    case _ =>
  }

  lemma {:induction false} PastForGood(d: D, bits: Bits)
    requires PastMagic(d)
    ensures PastMagic(RunBits(d, bits).d)
    decreases |bits|, if d.Output? then 1 else 0
  {
    hide Advance, Emitted, Need;
    if d.Output? {
      RunEmits(d, bits);
      PastForGood(AfterOutput(d), bits);
    } else if !Reading(d) || |bits| < Need(d) {
      RunStops(d, bits);
    } else {
      var n := Need(d);
      var v := FromBits(bits[..n]);
      RunReads(d, bits, n);
      PastStays(d, v);
      PastForGood(Advance(d, v), bits[n..]);
    }
  }

  lemma {:induction false} MagicRead(i: nat, s: seq<byte>)
    requires i < 4
    ensures RunBits(Magic(i), BytesBits(s)).d == Failed(true)
            <==> s != [] && (Advance(Magic(i), s[0]) == Failed(true)
                             || (i < 3 && RunBits(Magic(i + 1), BytesBits(s[1..])).d == Failed(true)))
  {
    if s == [] {
      RunStops(Magic(i), []);
    } else {
      var d, r := Advance(Magic(i), s[0]), BytesBits(s[1..]);
      ReadsByte(Magic(i), s, []);
      assert BytesBits(s) + [] == BytesBits(s) && r + [] == r;
      if d.Failed? { RunTerminal(d, r); } else if i == 3 { PastForGood(d, r); }
    }
    hide RunBits;
  }

  /** The magic is refused exactly when the bytes disagree with it. */
  lemma RefusesMagic(e: seq<byte>)
    ensures RunBits(Start, BytesBits(e)).d == Failed(true) <==> !BeginsWell(e)
  {
    hide RunBits, BytesBits;
    MagicRead(0, e);
    if |e| > 0 { MagicRead(1, e[1..]); }
    if |e| > 1 { MagicRead(2, e[1..][1..]); }
    if |e| > 2 { MagicRead(3, e[1..][1..][1..]); }
  }
}
