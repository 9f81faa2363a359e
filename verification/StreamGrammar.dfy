/**
 Which streams there are, whoever made them: a header, blocks, a trailer, and what is in each. Unlike the encoder's own
 format this leaves open all that a decoder has to put up with: groups of the byte map with no byte in use, selectors
 to spare, and code lengths reached by detours.
*/
module StreamGrammar {
  import opened Bits
  import opened Crc
  import opened Huffman
  import opened MoveToFront
  import opened RunLength
  import opened InverseBwt
  import opened StreamFormat

  /** A code table as it is sent: a first length, and for each symbol the steps to its length, true for down. */
  datatype Table = Table(start: nat, rows: seq<Bits>)

  /** A block as it is sent, and the selectors, lengths and column that it stands for. */
  datatype Part = Part(crc: nat, orig: nat, flags: Bits, u: seq<bool>, js: seq<nat>, tables: seq<Table>,
                       sels: seq<byte>, lens: seq<seq<nat>>, col: seq<byte>)

  // ---------- the byte map ----------

  /** Which bytes are in use, from group i on: sixteen flags for each group announced. */
  function Announced(flags: Bits, u: seq<bool>, i: nat): Bits
    requires |flags| == 16 && |u| == 256 && i <= 16
    decreases 16 - i
  {
    if i == 16 then [] else (if flags[i] then Group(u, i) else []) + Announced(flags, u, i + 1)
  }

  /** No byte is in use in a group from i on that is not announced. */
  predicate NoOthers(flags: Bits, u: seq<bool>, i: nat)
    requires |flags| == 16 && |u| == 256
  {
    forall x :: 16 * i <= x < 256 && u[x] ==> flags[x / 16]
  }

  // ---------- selectors ----------

  /** The selectors that are kept. */
  function Kept(js: seq<nat>): seq<nat> {
    if |js| <= 18002 then js else js[..18002]
  }

  // ---------- code tables ----------

  /** From a length, the steps lead to length x without ever leaving 1 to 20. */
  predicate Climbs(curr: int, row: Bits, x: nat)
    decreases |row|
  {
    1 <= curr <= 20 && if row == [] then x == curr else Climbs(if row[0] then curr - 1 else curr + 1, row[1..], x)
  }

  predicate ClimbAll(curr: nat, rows: seq<Bits>, lens: seq<nat>)
    decreases |rows|
  {
    |rows| == |lens| && (rows != [] ==> Climbs(curr, rows[0], lens[0]) && ClimbAll(lens[0], rows[1..], lens[1..]))
  }

  function RowBits(row: Bits): Bits {
    if row == [] then [false] else [true, row[0]] + RowBits(row[1..])
  }

  function RowsBits(rows: seq<Bits>): Bits {
    if rows == [] then [] else RowBits(rows[0]) + RowsBits(rows[1..])
  }

  function SentTable(t: Table): Bits {
    ToBits(t.start, 5) + RowsBits(t.rows)
  }

  function SentTables(tables: seq<Table>): Bits {
    if tables == [] then [] else SentTable(tables[0]) + SentTables(tables[1..])
  }

  // ---------- blocks ----------

  ghost predicate GoodTable(t: Table, lens: seq<nat>, alphaSize: nat) {
    |lens| == alphaSize && ClimbAll(t.start, t.rows, lens)
  }

  /** The symbols of the column. */
  function PartSymbols(p: Part): seq<nat> {
    MtfCode(Used(p.u), p.col)
  }

  /** There are groups enough for the symbols, and each has a code in as many bits as its length says. */
  ghost predicate Sendable(lens: seq<seq<nat>>, sels: seq<byte>, g: nat, pos: nat, syms: seq<nat>)
    requires SymbolsFit(lens, sels, syms) && g <= |sels| && (g == 0 ==> pos == 0)
    decreases |syms|, if pos == 0 then 1 else 0
  {
    if syms == [] then true
    else if pos == 0 then g < |sels| && Sendable(lens, sels, g + 1, 50, syms)
    else
      var l := lens[sels[g - 1]];
      Code(l, MinLen(l), syms[0]) < Pow2(l[syms[0]]) && Sendable(lens, sels, g, pos - 1, syms[1..])
  }

  /** Every symbol of the column is coded. */
  ghost predicate Coded(p: Part) {
    SymbolsFit(p.lens, p.sels, PartSymbols(p)) && Sendable(p.lens, p.sels, 0, 0, PartSymbols(p))
  }

  /** The byte map, the selectors and the tables are in order. */
  ghost predicate GoodChoices(p: Part) {
    && |p.flags| == 16 && |p.u| == 256 && NoOthers(p.flags, p.u, 0) && Used(p.u) != []
    && 2 <= |p.tables| == |p.lens| <= 6
    && 1 <= |p.js| < 32768 && (forall k :: 0 <= k < |p.js| ==> p.js[k] < |p.tables|)
    && SelMtf(Identity(|p.tables|), p.sels) == Kept(p.js) && |p.sels| == |Kept(p.js)|
    && forall t :: 0 <= t < |p.tables| ==> GoodTable(p.tables[t], p.lens[t], |Used(p.u)| + 2)
  }

  /** What the block puts out. */
  function PartData(p: Part): seq<byte> {
    UnRle(Inverse(p.col, p.orig))
  }

  /** A block of a stream of this level: its data has the CRC it is sent with. */
  ghost predicate GoodPart(p: Part, level: nat) {
    && GoodChoices(p) && Coded(p)
    && p.orig < |p.col| <= 100000 * level
    && (forall k :: 0 <= k < |p.col| ==> p.col[k] in Used(p.u))
    && Complete(Inverse(p.col, p.orig)) && p.crc == BlockCrc(PartData(p)) as nat
  }

  /** What is sent behind the origin pointer. */
  ghost function BodyBits(p: Part): Bits
    requires GoodChoices(p) && Coded(p)
  {
    p.flags + (Announced(p.flags, p.u, 0)
    + (ToBits(|p.tables|, 3) + (ToBits(|p.js|, 15) + (UnaryBits(p.js)
    + (SentTables(p.tables) + SymBits(p.lens, p.sels, 0, 0, PartSymbols(p)))))))
  }

  ghost function PartBits(p: Part): Bits
    requires GoodChoices(p) && Coded(p)
  {
    BytesBits([0x31, 0x41, 0x59, 0x26, 0x53, 0x59]) + (ToBits(p.crc, 32) + ([false] + (ToBits(p.orig, 24)
    + BodyBits(p))))
  }

  // ---------- streams ----------

  ghost predicate GoodParts(parts: seq<Part>, level: nat) {
    forall k :: 0 <= k < |parts| ==> GoodPart(parts[k], level)
  }

  ghost function PartsBits(parts: seq<Part>, level: nat): Bits
    requires GoodParts(parts, level)
  {
    if parts == [] then [] else PartBits(parts[0]) + PartsBits(parts[1..], level)
  }

  function PartsData(parts: seq<Part>): seq<byte> {
    if parts == [] then [] else PartData(parts[0]) + PartsData(parts[1..])
  }

  /** The CRCs of the blocks' data, combined, from c on. */
  function PartsCrc(c: word, parts: seq<Part>): word
    decreases |parts|
  {
    if parts == [] then c else PartsCrc(Combine(c, BlockCrc(PartData(parts[0]))), parts[1..])
  }

  /** The blocks, the trailer with their CRCs combined from c on, and what follows. */
  ghost function AfterHeader(parts: seq<Part>, level: nat, c: word, rest: Bits): Bits
    requires GoodParts(parts, level)
  {
    PartsBits(parts, level)
    + (BytesBits([0x17, 0x72, 0x45, 0x38, 0x50, 0x90]) + (ToBits(PartsCrc(c, parts) as nat, 32) + rest))
  }

  /** The bytes are a stream of these blocks, and rest is what follows it. */
  ghost predicate IsStream(e: seq<byte>, level: nat, parts: seq<Part>, rest: Bits) {
    && 1 <= level <= 9 && GoodParts(parts, level)
    && BytesBits(e) == BytesBits([0x42, 0x5a, 0x68, 0x30 + level]) + AfterHeader(parts, level, 0, rest)
  }

  // ---------- what follows at once ----------

  lemma {:induction false} ClimbsWithin(curr: int, row: Bits, x: nat)
    requires Climbs(curr, row, x)
    ensures 1 <= x <= 20
    decreases |row|
  {
    if row != [] { ClimbsWithin(if row[0] then curr - 1 else curr + 1, row[1..], x); }
  }

  lemma {:induction false} LengthsWithin(curr: nat, rows: seq<Bits>, lens: seq<nat>)
    requires ClimbAll(curr, rows, lens)
    ensures LensIn(lens, 1, 20)
    decreases |rows|
  {
    hide Climbs;
    if rows != [] {
      ClimbsWithin(curr, rows[0], lens[0]);
      LengthsWithin(lens[0], rows[1..], lens[1..]);
    }
  }

  /** Every table has a length from 1 to 20 for each symbol, and every selector a table. */
  ghost predicate Tabled(lens: seq<seq<nat>>, sels: seq<byte>, alphaSize: nat) {
    && (forall t :: 0 <= t < |lens| ==> |lens[t]| == alphaSize && LensIn(lens[t], 1, 20))
    && (forall k :: 0 <= k < |sels| ==> sels[k] < |lens|)
  }

  lemma TablesAre(tables: seq<Table>, lens: seq<seq<nat>>, sels: seq<byte>, alphaSize: nat)
    requires |tables| == |lens| && forall t :: 0 <= t < |tables| ==> GoodTable(tables[t], lens[t], alphaSize)
    requires forall k :: 0 <= k < |sels| ==> sels[k] < |lens|
    ensures Tabled(lens, sels, alphaSize)
  {
    hide ClimbAll;
    forall t | 0 <= t < |lens|
      ensures |lens[t]| == alphaSize && LensIn(lens[t], 1, 20)
    {
      assert GoodTable(tables[t], lens[t], alphaSize);
      LengthsWithin(tables[t].start, tables[t].rows, lens[t]);
    }
  }

  lemma FirstPart(p: Part, parts: seq<Part>, level: nat, c: word, c': word, rest: Bits)
    requires GoodPart(p, level) && GoodParts(parts, level) && c' == Combine(c, BlockCrc(PartData(p)))
    ensures GoodParts([p] + parts, level) && PartsData([p] + parts) == PartData(p) + PartsData(parts)
    ensures PartBits(p) + AfterHeader(parts, level, c', rest) == AfterHeader([p] + parts, level, c, rest)
  {
    hide ToBits, BytesBits, PartBits, PartData, GoodChoices, Coded, BlockCrc, Combine, Complete, Inverse, Used;
    assert ([p] + parts)[1..] == parts;
    Assoc3(PartBits(p), PartsBits(parts, level),
           BytesBits([0x17, 0x72, 0x45, 0x38, 0x50, 0x90]) + (ToBits(PartsCrc(c', parts) as nat, 32) + rest));
  }

  lemma JoinSeven(a: Bits, b: Bits, c: Bits, d: Bits, e: Bits, f: Bits, g: Bits, rest: Bits)
    ensures a + (b + (c + (d + (e + (f + (g + rest)))))) == a + (b + (c + (d + (e + (f + g))))) + rest
  {
    Assoc3(e, f + g, rest);
    Assoc3(f, g, rest);
    Assoc3(d, e + (f + g), rest);
    Assoc3(c, d + (e + (f + g)), rest);
    Assoc3(b, c + (d + (e + (f + g))), rest);
    Assoc3(a, b + (c + (d + (e + (f + g)))), rest);
  }

  lemma JoinFour(a: Bits, b: Bits, c: Bits, d: Bits, e: Bits, rest: Bits)
    ensures a + (b + (c + (d + (e + rest)))) == a + (b + (c + (d + e))) + rest
  {
    Assoc3(d, e, rest);
    Assoc3(c, d + e, rest);
    Assoc3(b, c + (d + e), rest);
    Assoc3(a, b + (c + (d + e)), rest);
  }
}
