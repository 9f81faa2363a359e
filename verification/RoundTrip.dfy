/** What the encoder sends is a stream, and so decoding any encoding of some data yields that data, and ends. */
module RoundTrip {
  import opened Bits
  import opened BitIO
  import opened Crc
  import opened Rotations
  import opened InverseBwt
  import opened RunLength
  import opened Huffman
  import opened MoveToFront
  import opened StreamFormat
  import opened Decoder
  import opened StreamGrammar
  import opened ReadBack
  import opened AcceptedStreams

  // ---------- the byte map ----------

  lemma {:induction false} GroupFlagAt(u: seq<bool>, k: nat, i: nat)
    requires |u| == 256 && i < k <= 16
    ensures GroupFlags(u, k)[i] <==> true in Group(u, i)
  {
    if i < k - 1 { GroupFlagAt(u, k - 1, i); }
  }

  /** The encoder announces the groups with a byte in use. */
  lemma {:induction false} GroupsAnnounced(u: seq<bool>, i: nat)
    requires |u| == 256 && i <= 16
    ensures Announced(GroupFlags(u, 16), u, i) == GroupBits(u, i) && NoOthers(GroupFlags(u, 16), u, i)
    decreases 16 - i
  {
    if i < 16 {
      GroupFlagAt(u, 16, i);
      GroupsAnnounced(u, i + 1);
      forall x | 16 * i <= x < 256 && u[x]
        ensures GroupFlags(u, 16)[x / 16]
      {
        if x < 16 * i + 16 { assert Group(u, i)[x - 16 * i] && x / 16 == i; }
      }
    }
  }

  // ---------- code tables ----------

  /** The steps from one length straight to another. */
  function Straight(curr: nat, x: nat): Bits
    decreases if curr < x then x - curr else curr - x
  {
    if curr < x then [false] + Straight(curr + 1, x)
    else if curr > x then [true] + Straight(curr - 1, x)
    else []
  }

  lemma {:induction false} StraightClimbs(curr: nat, x: nat)
    requires 1 <= curr <= 20 && 1 <= x <= 20
    ensures Climbs(curr, Straight(curr, x), x) && RowBits(Straight(curr, x)) == Moves(curr, x) + [false]
    decreases if curr < x then x - curr else curr - x
  {
    if curr != x {
      var next := if curr < x then curr + 1 else curr - 1;
      StraightClimbs(next, x);
      assert Straight(curr, x)[1..] == Straight(next, x);
      Assoc3([true, curr > x], Moves(next, x), [false]);
    }
  }

  function StraightRows(curr: nat, lens: seq<nat>): seq<Bits>
    decreases |lens|
  {
    if lens == [] then [] else [Straight(curr, lens[0])] + StraightRows(lens[0], lens[1..])
  }

  lemma {:induction false} StraightRowsClimb(curr: nat, lens: seq<nat>)
    requires 1 <= curr <= 20 && LensIn(lens, 1, 20)
    ensures ClimbAll(curr, StraightRows(curr, lens), lens) && RowsBits(StraightRows(curr, lens)) == Deltas(curr, lens)
    decreases |lens|
  {
    hide Climbs, Straight, Moves, RowBits;
    if lens != [] {
      StraightClimbs(curr, lens[0]);
      StraightRowsClimb(lens[0], lens[1..]);
      assert StraightRows(curr, lens)[1..] == StraightRows(lens[0], lens[1..]);
      Assoc3(Moves(curr, lens[0]), [false], Deltas(lens[0], lens[1..]));
    }
  }

  function SentAs(lens: seq<seq<nat>>): (t: seq<Table>)
    requires forall t :: 0 <= t < |lens| ==> lens[t] != []
    ensures |t| == |lens|
  {
    if lens == [] then [] else [Table(lens[0][0], StraightRows(lens[0][0], lens[0]))] + SentAs(lens[1..])
  }

  lemma {:induction false} TablesSent(lens: seq<seq<nat>>, alphaSize: nat)
    requires alphaSize > 0 && forall t :: 0 <= t < |lens| ==> |lens[t]| == alphaSize && LensIn(lens[t], 1, 20)
    ensures SentTables(SentAs(lens)) == TablesBits(lens)
    ensures forall t :: 0 <= t < |lens| ==> GoodTable(SentAs(lens)[t], lens[t], alphaSize)
  {
    hide ClimbAll, StraightRows, Deltas, RowsBits, ToBits;
    if lens != [] {
      StraightRowsClimb(lens[0][0], lens[0]);
      TablesSent(lens[1..], alphaSize);
      var s := SentAs(lens);
      assert s[1..] == SentAs(lens[1..]);
      forall t | 0 <= t < |lens|
        ensures GoodTable(s[t], lens[t], alphaSize)
      {
        if t > 0 { assert s[t] == s[1..][t - 1] && lens[t] == lens[1..][t - 1]; }
      }
    }
  }

  // ---------- symbols ----------

  /** Codes of complete tables fit. */
  lemma {:induction false} AllSendable(lens: seq<seq<nat>>, sels: seq<byte>, g: nat, pos: nat, syms: seq<nat>)
    requires SymbolsFit(lens, sels, syms) && g <= |sels| && (g == 0 ==> pos == 0)
    requires forall t :: 0 <= t < |lens| ==> GoodLens(lens[t], |lens[t]|)
    requires |syms| <= 50 * (|sels| - g) + pos
    ensures Sendable(lens, sels, g, pos, syms)
    decreases |syms|, if pos == 0 then 1 else 0
  {
    hide Code, Kraft;
    if syms != [] {
      if pos == 0 {
        AllSendable(lens, sels, g + 1, 50, syms);
      } else {
        CodeFits(lens[sels[g - 1]], syms[0]);
        AllSendable(lens, sels, g, pos - 1, syms[1..]);
      }
    }
  }

  // ---------- selectors ----------

  lemma SelectorsSent(n: nat, sels: seq<byte>)
    requires n <= 6 && |sels| <= MAX_SELECTORS && forall k :: 0 <= k < |sels| ==> sels[k] < n
    ensures var js := SelMtf(Identity(n), sels);
            |js| == |sels| && Kept(js) == js && forall k :: 0 <= k < |js| ==> js[k] < n
  {
    hide Identity, SelMtf, UnSelMtf;
    forall k | 0 <= k < |sels|
      ensures sels[k] in Identity(n)
    {
      IdentityHas(n, sels[k]);
    }
    SelMtfInverse(Identity(n), sels);
  }

  // ---------- blocks ----------

  /** A block of the encoder, as a part of a stream. */
  ghost function PartOf(c: BlockCode, level: nat): Part
    requires GoodBlock(c, level)
  {
    SymbolsInAlphabet(c, level);
    var u := InUse(c.block, 256);
    Part(CrcOf(c) as nat, c.origPtr, GroupFlags(u, 16), u, SelMtf(Identity(|c.lens|), c.sels), SentAs(c.lens), c.sels,
         c.lens, LastColumn(c.block, c.ptr))
  }

  lemma PtrIn(b: seq<byte>, ptr: seq<nat>)
    requires IsSorted(b, ptr)
    ensures |ptr| == |b| && forall i :: 0 <= i < |ptr| ==> ptr[i] < |b|
  {
    hide Le;
  }

  lemma PartColumn(c: BlockCode, level: nat)
    requires GoodBlock(c, level)
    ensures var p := PartOf(c, level);
            && Inverse(p.col, p.orig) == c.block && |p.col| == |c.block|
            && Used(p.u) != [] && (forall k :: 0 <= k < |p.col| ==> p.col[k] in Used(p.u))
  {
    hide InUse, Used, SelMtf, Identity, SentAs, GroupFlags, CrcOf, Complete, GoodLens, Symbols, Inverse, LastColumn, Le;
    PtrIn(c.block, c.ptr);
    ColumnBytesUsed(c.block, c.ptr);
    BlockBytesUsed(c.block, c.block[0]);
    InverseCorrect(c.block, c.ptr, c.origPtr);
  }

  lemma PartChoices(c: BlockCode, level: nat)
    requires GoodBlock(c, level)
    ensures var p := PartOf(c, level);
            GoodChoices(p) && Coded(p) && PartSymbols(p) == Symbols(c.block, c.ptr)
            && SentTables(p.tables) == TablesBits(c.lens)
  {
    hide InUse, Used, SelMtf, Identity, SentAs, GroupFlags, CrcOf, Complete, Inverse, LastColumn, MtfCode, Kraft, Kept,
         NoOthers, Announced, Climbs, ClimbAll, SymbolsFit, Sendable, Le;
    var p := PartOf(c, level);
    PtrIn(c.block, c.ptr);
    PartColumn(c, level);
    SymbolsInAlphabet(c, level);
    GroupsAnnounced(p.u, 0);
    SelectorsSent(|c.lens|, c.sels);
    TablesSent(c.lens, |Used(p.u)| + 2);
    AllSendable(c.lens, c.sels, 0, 0, PartSymbols(p));
  }

  lemma PartIsGood(c: BlockCode, level: nat)
    requires GoodBlock(c, level)
    ensures GoodPart(PartOf(c, level), level) && PartData(PartOf(c, level)) == UnRle(c.block)
  {
    hide InUse, Used, SelMtf, Identity, SentAs, GroupFlags, Complete, Inverse, LastColumn, IsSorted, GoodLens, Symbols,
         UnRle, BlockCrc, GoodChoices, Coded;
    PartColumn(c, level);
    PartChoices(c, level);
  }

  lemma WordBits(u: nat)
    requires u < 0x1_0000_0000
    ensures BytesBits(U32Bytes(u)) == ToBits(u, 32)
  {
    hide ToBits, BytesBits;
    var x, y, z := u / 256, u / 0x1_0000, u / 0x100_0000;
    assert y == x / 256 && z == y / 256 && z < 256;
    assert Shift8(z, y % 256) == y && Shift8(y, x % 256) == x && Shift8(x, u % 256) == u;
    WordOf(z % 256, y % 256, x % 256, u % 256, u);
  }

  lemma WordOf(a: byte, b: byte, c: byte, d: byte, u: nat)
    requires u == Shift8(Shift8(Shift8(a, b), c), d)
    ensures BytesBits([a, b, c, d]) == ToBits(u, 32)
  {
    hide ToBits, FromBits, BytesBits, Shift8;
    var w1 := ToBits(a, 8);
    var w2 := w1 + ToBits(b, 8);
    var w3 := w2 + ToBits(c, 8);
    var w4 := w3 + ToBits(d, 8);
    ByteValue(a);
    OneByteMore(w1, b);
    OneByteMore(w2, c);
    OneByteMore(w3, d);
    ToFromBits(w4);
    FourBytes(a, b, c, d);
  }

  lemma ByteValue(a: byte)
    ensures FromBits(ToBits(a, 8)) == a
  {
    hide ToBits, FromBits;
    Pow2Values();
    FromToBits(a, 8);
  }

  lemma FourBytes(a: byte, b: byte, c: byte, d: byte)
    ensures BytesBits([a, b, c, d]) == ToBits(a, 8) + ToBits(b, 8) + ToBits(c, 8) + ToBits(d, 8)
  {
    hide ToBits, BytesBits;
    FirstByte(a, [b, c, d]);
    FirstByte(b, [c, d]);
    FirstByte(c, [d]);
    FirstByte(d, []);
    assert [a] + [b, c, d] == [a, b, c, d] && [b] + [c, d] == [b, c, d] && [c] + [d] == [c, d] && [d] + [] == [d];
    var w, x, y, z := ToBits(a, 8), ToBits(b, 8), ToBits(c, 8), ToBits(d, 8);
    assert w + (x + (y + (z + BytesBits([])))) == w + x + y + z;
  }

  lemma FirstByte(a: byte, s: seq<byte>)
    ensures BytesBits([a] + s) == ToBits(a, 8) + BytesBits(s) && |BytesBits([])| == 0
  {
    assert ([a] + s)[1..] == s;
  }

  /** The encoder's bits for a block are those of the part. */
  lemma PartBitsAre(c: BlockCode, level: nat)
    requires GoodBlock(c, level)
    ensures GoodPart(PartOf(c, level), level) && PartBits(PartOf(c, level)) == BlockBits(c, level)
  {
    hide InUse, Used, SelMtf, Identity, SentAs, GroupFlags, GroupBits, Complete, Inverse, LastColumn, IsSorted,
         GoodLens,
         Symbols, UnRle, CrcOf, GoodChoices, Coded, ToBits, BytesBits, U32Bytes, SymBits, SentTables, TablesBits,
         UnaryBits, Announced, BlockCrc;
    var p := PartOf(c, level);
    SymbolsInAlphabet(c, level);
    PartIsGood(c, level);
    PartChoices(c, level);
    GroupsAnnounced(p.u, 0);
    SelectorsSent(|c.lens|, c.sels);
    WordBits(CrcOf(c) as nat);
    JoinSeven(p.flags, GroupBits(p.u, 0), ToBits(|c.lens|, 3), ToBits(|c.sels|, 15), UnaryBits(p.js),
              TablesBits(c.lens), SymBits(c.lens, c.sels, 0, 0, PartSymbols(p)), []);
  }

  // ---------- the stream ----------

  ghost function PartsOf(blocks: seq<BlockCode>, level: nat): seq<Part>
    requires GoodBlocks(blocks, level)
  {
    if blocks == [] then []
    else PartsOf(blocks[..|blocks| - 1], level) + [PartOf(blocks[|blocks| - 1], level)]
  }

  lemma {:induction false} LastPart(parts: seq<Part>, p: Part, level: nat, c: word)
    requires GoodParts(parts, level) && GoodPart(p, level)
    ensures GoodParts(parts + [p], level) && PartsBits(parts + [p], level) == PartsBits(parts, level) + PartBits(p)
    ensures PartsData(parts + [p]) == PartsData(parts) + PartData(p)
    ensures PartsCrc(c, parts + [p]) == Combine(PartsCrc(c, parts), BlockCrc(PartData(p)))
    decreases |parts|
  {
    hide PartBits, PartData, BlockCrc, Combine, GoodChoices, Coded, Complete, Inverse, Used;
    if parts == [] {
      assert parts + [p] == [p] && [p][1..] == [];
      assert PartBits(p) + [] == PartBits(p) && PartData(p) + [] == PartData(p);
    } else {
      var q, tail := parts[0], parts[1..];
      assert (parts + [p])[1..] == tail + [p];
      LastPart(tail, p, level, Combine(c, BlockCrc(PartData(q))));
      Assoc3(PartBits(q), PartsBits(tail, level), PartBits(p));
      AssocBytes(PartData(q), PartsData(tail), PartData(p));
    }
  }

  lemma {:induction false} PartsAre(blocks: seq<BlockCode>, level: nat)
    requires GoodBlocks(blocks, level)
    ensures var parts := PartsOf(blocks, level);
            && GoodParts(parts, level) && PartsBits(parts, level) == BlocksBits(blocks, level)
            && PartsData(parts) == Data(blocks) && PartsCrc(0, parts) == CombinedCrc(blocks)
  {
    hide PartBits, PartData, BlockBits, BlockCrc, Combine, GoodPart, GoodBlock, UnRle, PartOf;
    if blocks != [] {
      var front, c := blocks[..|blocks| - 1], blocks[|blocks| - 1];
      PartsAre(front, level);
      PartBitsAre(c, level);
      PartIsGood(c, level);
      LastPart(PartsOf(front, level), PartOf(c, level), level, 0);
    }
  }

  /** What the encoder sends is a stream for its data, with less than a byte of padding. */
  lemma EncodingIsStream(e: seq<byte>, data: seq<byte>, blocks: seq<BlockCode>, level: nat)
    requires IsEncoding(e, data, blocks, level)
    ensures exists pad :: |pad| < 8 && IsStream(e, level, PartsOf(blocks, level), pad)
    ensures PartsData(PartsOf(blocks, level)) == data
  {
    hide BytesBits, ToBits, BlocksBits, PartsBits, PartsOf, PartsData, Data, GoodParts, GoodBlocks, U32Bytes;
    var w := StreamBits(blocks, level);
    var pad := if |w| % 8 == 0 then [] else Zeros(8 - |w| % 8);
    assert PadToByte(w) == w + pad;
    PartsAre(blocks, level);
    var crc := CombinedCrc(blocks) as nat;
    WordBits(crc);
    assert HeaderBytes(level) == [0x42, 0x5a, 0x68, 0x30 + level];
    JoinStream(BytesBits(HeaderBytes(level)), BlocksBits(blocks, level), BytesBits(END_MAGIC), ToBits(crc, 32), pad);
    assert IsStream(e, level, PartsOf(blocks, level), pad);
  }

  lemma JoinStream(a: Bits, b: Bits, c: Bits, d: Bits, pad: Bits)
    ensures a + (b + (c + d)) + pad == a + (b + (c + (d + pad)))
  {}

  /** Decoding any encoding of data gives data, with the CRCs matching, and stops in the last byte. */
  lemma RoundTrip(e: seq<byte>, data: seq<byte>, blocks: seq<BlockCode>, level: nat)
    requires IsEncoding(e, data, blocks, level)
    ensures var r := RunBits(Start, BytesBits(e));
            r.out == data && r.d == Idle && |r.rest| < 8
  {
    hide RunBits, GoodBlocks, Data, StreamBits, PadToByte, BytesBits, IsStream, PartsOf, PartsData;
    EncodingIsStream(e, data, blocks, level);
    var pad :| |pad| < 8 && IsStream(e, level, PartsOf(blocks, level), pad);
    StreamIsAccepted(e, level, PartsOf(blocks, level), pad);
  }
}
