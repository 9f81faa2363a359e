/**
 The decoder as an automaton over bits. Each state is one GET_BITS label of BZ2_decompress together
 with exactly the values that live across it; Advance is the code from that label to the next.
 */
module Decoder {
  import opened Bits
  import opened Crc
  import opened Huffman
  import opened MoveToFront
  import opened RunLength
  import opened InverseBwt
  import opened StreamFormat

  /** Known for the whole stream: block size and the combined CRC so far. */
  datatype Hdr = Hdr(level: nat, combined: word)
  /** Known for the whole block. */
  datatype Blk = Blk(h: Hdr, crc: nat, origPtr: nat)
  /** Block data before the tables are read, and after. */
  datatype Pre = Pre(b: Blk, used: seq<byte>, nGroups: nat, sels: seq<byte>)
  datatype Ctx = Ctx(b: Blk, sels: seq<byte>, lens: seq<seq<nat>>, g: nat, pos: nat)

  datatype D =
    | Magic(i: nat)                                                            // MAGIC_1 .. MAGIC_4
    | BlkHdr(h: Hdr, i: nat)                                                   // BLKHDR_1 .. BLKHDR_6
    | Bcrc(h: Hdr, i: nat, acc: nat)                                           // BCRC_1 .. BCRC_4
    | RandBit(h: Hdr, crc: nat)                                                // RANDBIT
    | OrigPtr(h: Hdr, crc: nat, i: nat, acc: nat)                              // ORIGPTR_1 .. ORIGPTR_3
    | Mapping1(b: Blk, in16: seq<bool>)                                        // MAPPING_1
    | Mapping2(b: Blk, in16: seq<bool>, i: nat, done: seq<bool>, cur: seq<bool>)  // MAPPING_2
    | Selector1(b: Blk, used: seq<byte>)                                       // SELECTOR_1
    | Selector2(b: Blk, used: seq<byte>, nGroups: nat)                         // SELECTOR_2
    | Selector3(b: Blk, used: seq<byte>, nGroups: nat, nSel: nat, i: nat, js: seq<nat>, j: nat)  // SELECTOR_3
    | Coding1(p: Pre, lens: seq<seq<nat>>)                                     // CODING_1
    | Coding2(p: Pre, lens: seq<seq<nat>>, lenT: seq<nat>, curr: nat)          // CODING_2
    | Coding3(p: Pre, lens: seq<seq<nat>>, lenT: seq<nat>, curr: nat)          // CODING_3
    | Mtf(c: Ctx, s: SymState)                                                 // MTF_1, MTF_3, MTF_5
    | MtfBit(c: Ctx, s: SymState, zn: nat, zvec: nat)                          // MTF_2, MTF_4, MTF_6
    | EndHdr(h: Hdr, i: nat)                                                   // ENDHDR_2 .. ENDHDR_6
    | Ccrc(h: Hdr, i: nat, acc: nat)                                           // CCRC_1 .. CCRC_4
    | Output(h: Hdr, crc: nat, col: seq<byte>, orig: nat)                      // OUTPUT
    | Idle                                                                     // end of stream, CRCs agree
    | Failed(magic: bool)                                                      // DATA_ERROR or DATA_ERROR_MAGIC
    | Randomised                                                               // a randomised block: left out

  predicate Reading(d: D) {
    !d.Output? && !d.Idle? && !d.Failed? && !d.Randomised?
  }

  /** The table of the open group. */
  function GroupLens(c: Ctx): seq<nat> {
    if 0 < c.g <= |c.sels| && c.sels[c.g - 1] < |c.lens| then c.lens[c.sels[c.g - 1]] else []
  }

  function AtLeastOne(n: nat): nat {
    if n == 0 then 1 else n
  }

  /** How many bits the next GET_BITS asks for. */
  function Need(d: D): (n: nat)
    ensures n >= 1
  {
    match d
    case Magic(_) => 8
    case BlkHdr(_, _) => 8
    case Bcrc(_, _, _) => 8
    case OrigPtr(_, _, _, _) => 8
    case EndHdr(_, _) => 8
    case Ccrc(_, _, _) => 8
    case Selector1(_, _) => 3
    case Selector2(_, _, _) => 15
    case Coding1(_, _) => 5
    case Mtf(c, _) => AtLeastOne(MinLen(GroupLens(c)))
    case _ => 1
  }

  // ---------- between labels ----------

  function AfterMapping(b: Blk, u: seq<bool>): D {
    if Used(u) == [] then Failed(false) else Selector1(b, Used(u))
  }

  /** On to the next used group of the byte map, from group i. */
  function EnterMapping2(b: Blk, in16: seq<bool>, i: nat, done: seq<bool>): D
    decreases |in16| - i
  {
    if i >= |in16| then AfterMapping(b, done)
    else if in16[i] then Mapping2(b, in16, i, done, [])
    else EnterMapping2(b, in16, i + 1, done + NoGroup())
  }

  function NoGroup(): (u: seq<bool>)
    ensures |u| == 16
  {
    [false, false, false, false, false, false, false, false, false, false, false, false, false, false, false, false]
  }

  /** Undo the move-to-front of the selectors. */
  function UnSelMtf(pos: seq<byte>, js: seq<nat>): seq<byte>
    decreases |js|
  {
    if js == [] || js[0] >= |pos| then []
    else [pos[js[0]]] + UnSelMtf(Front(pos, js[0]), js[1..])
  }

  function AfterSelectors(b: Blk, used: seq<byte>, nGroups: nat, js: seq<nat>): D {
    if nGroups > N_GROUPS then Failed(false)
    else Coding1(Pre(b, used, nGroups, UnSelMtf(Identity(nGroups), js)), [])
  }

  /** The check at the top of the inner loop over code lengths. */
  function EnterCoding2(p: Pre, lens: seq<seq<nat>>, lenT: seq<nat>, curr: int): D {
    if curr < 1 || curr > LONGEST then Failed(false) else Coding2(p, lens, lenT, curr)
  }

  function AfterLength(p: Pre, lens: seq<seq<nat>>, lenT: seq<nat>, curr: nat): D {
    if |lenT| < |p.used| + 2 then EnterCoding2(p, lens, lenT, curr)
    else if |lens| + 1 < p.nGroups then Coding1(p, lens + [lenT])
    else EnterMtf(Ctx(p.b, p.sels, lens + [lenT], 0, 0), SymState(NoRun, p.used, []))
  }

  /** The start of GET_MTF_VAL: open the next group if needed. */
  function EnterMtf(c: Ctx, s: SymState): D {
    if c.pos > 0 then Mtf(c.(pos := c.pos - 1), s)
    else if c.g >= |c.sels| then Failed(false)
    else Mtf(c.(g := c.g + 1, pos := G_SIZE - 1), s)
  }

  function MaxBlock(b: Blk): nat {
    100000 * b.h.level
  }

  /** A symbol has been read. */
  function OnSymbol(c: Ctx, s: SymState, sym: nat): D {
    match SymStep(s, sym, MaxBlock(c.b))
    case Go(s') => EnterMtf(c, s')
    case Bad => Failed(false)
    case Done(col) => OnColumn(c.b, col)
  }

  /** The whole column has been read. */
  function OnColumn(b: Blk, col: seq<byte>): D {
    if b.origPtr >= |col| then Failed(false) else Output(b.h, b.crc, col, b.origPtr)
  }

  /** One round of the loop of GET_MTF_VAL. */
  function OnCode(c: Ctx, s: SymState, zn: nat, zvec: nat): D {
    match LookUp(GroupLens(c), zn, zvec)
    case NeedBit => MtfBit(c, s, zn + 1, zvec)
    case BadCode => Failed(false)
    case Symbol(sym) => OnSymbol(c, s, sym)
  }

  /** A byte gathered into a number, most significant first. */
  function Shift8(acc: nat, v: nat): nat {
    256 * acc + v
  }

  /** The code from the current label, having read v, to the next. */
  function Advance(d: D, v: nat): D {
    match d
    case Magic(i) =>
      if i < 3 then (if v == STREAM_MAGIC[i] then Magic(i + 1) else Failed(true))
      else if 0x31 <= v <= 0x39 then BlkHdr(Hdr(v - 0x30, 0), 0) else Failed(true)
    case BlkHdr(h, i) =>
      if i == 0 && v == 0x17 then EndHdr(h, 1)
      else if i > 5 || v != BLOCK_MAGIC[i] then Failed(false)
      else if i < 5 then BlkHdr(h, i + 1) else Bcrc(h, 0, 0)
    case Bcrc(h, i, acc) =>
      if i < 3 then Bcrc(h, i + 1, Shift8(acc, v)) else RandBit(h, Shift8(acc, v))
    case RandBit(h, crc) => if v == 0 then OrigPtr(h, crc, 0, 0) else Randomised
    case OrigPtr(h, crc, i, acc) =>
      if i < 2 then OrigPtr(h, crc, i + 1, Shift8(acc, v))
      else if Shift8(acc, v) > 10 + 100000 * h.level then Failed(false)
      else Mapping1(Blk(h, crc, Shift8(acc, v)), [])
    case Mapping1(b, in16) =>
      var in16' := in16 + [v == 1];
      if |in16'| < 16 then Mapping1(b, in16') else EnterMapping2(b, in16', 0, [])
    case Mapping2(b, in16, i, done, cur) =>
      var cur' := cur + [v == 1];
      if |cur'| < 16 then Mapping2(b, in16, i, done, cur') else EnterMapping2(b, in16, i + 1, done + cur')
    case Selector1(b, used) =>
      if v < 2 || v > N_GROUPS then Failed(false) else Selector2(b, used, v)
    case Selector2(b, used, nGroups) =>
      if v < 1 then Failed(false) else Selector3(b, used, nGroups, v, 0, [], 0)
    case Selector3(b, used, nGroups, nSel, i, js, j) =>
      if v != 0 then
        if j + 1 >= nGroups then Failed(false) else Selector3(b, used, nGroups, nSel, i, js, j + 1)
      else
        var js' := if |js| < MAX_SELECTORS then js + [j] else js;
        if i + 1 < nSel then Selector3(b, used, nGroups, nSel, i + 1, js', 0)
        else AfterSelectors(b, used, nGroups, js')
    case Coding1(p, lens) => EnterCoding2(p, lens, [], v)
    case Coding2(p, lens, lenT, curr) =>
      if v == 0 then AfterLength(p, lens, lenT + [curr], curr) else Coding3(p, lens, lenT, curr)
    case Coding3(p, lens, lenT, curr) =>
      EnterCoding2(p, lens, lenT, if v == 0 then curr + 1 else curr - 1)
    case Mtf(c, s) => OnCode(c, s, MinLen(GroupLens(c)), v)
    case MtfBit(c, s, zn, zvec) => OnCode(c, s, zn, 2 * zvec + v)
    case EndHdr(h, i) =>
      if i > 5 || v != END_MAGIC[i] then Failed(false)
      else if i < 5 then EndHdr(h, i + 1) else Ccrc(h, 0, 0)
    case Ccrc(h, i, acc) =>
      if i < 3 then Ccrc(h, i + 1, Shift8(acc, v))
      else if Shift8(acc, v) == h.combined as nat then Idle else Failed(false)
    case _ => d
  }

  // ---------- output ----------

  /**
   What a block puts out; one that ends in a run of four has its count read from beyond its end before that is
   noticed.
  */
  function Target(col: seq<byte>, orig: nat): seq<byte> {
    if Complete(Inverse(col, orig)) then UnRle(Inverse(col, orig)) else UnRle(Walk(col, TInv(col), orig, |col| + 1))
  }

  function Emitted(d: D): seq<byte> {
    if d.Output? then Target(d.col, d.orig) else []
  }

  /** The state after a block has been put out: its CRC is checked and folded in. */
  function AfterOutput(d: D): D
    requires d.Output?
  {
    var block := Inverse(d.col, d.orig);
    if !Complete(block) then Failed(false)
    else
      var crc := BlockCrc(UnRle(block));
      if crc as nat != d.crc then Failed(false)
      else BlkHdr(d.h.(combined := Combine(d.h.combined, crc)), 0)
  }

  // ---------- runs ----------

  /** Everything put out, the state reached, and the bits left over (fewer than it asks for). */
  datatype Outcome = Outcome(out: seq<byte>, d: D, rest: Bits)

  /** One contiguous feed of bits, with all the output space it wants. */
  function RunBits(d: D, bits: Bits): Outcome
    decreases |bits|, if d.Output? then 1 else 0
  {
    if d.Output? then
      var r := RunBits(AfterOutput(d), bits);
      Outcome(Emitted(d) + r.out, r.d, r.rest)
    else if !Reading(d) || |bits| < Need(d) then Outcome([], d, bits)
    else RunBits(Advance(d, FromBits(bits[..Need(d)])), bits[Need(d)..])
  }

  /** The start of a stream. */
  const Start: D := Magic(0)

  /** One GET_BITS: the state and the bits after it. */
  lemma RunReads(d: D, bits: Bits, n: nat)
    requires Reading(d) && n == Need(d) <= |bits|
    ensures RunBits(d, bits) == RunBits(Advance(d, FromBits(bits[..n])), bits[n..])
  {}

  lemma RunEmits(d: D, bits: Bits)
    requires d.Output?
    ensures var r := RunBits(AfterOutput(d), bits);
            RunBits(d, bits) == Outcome(Emitted(d) + r.out, r.d, r.rest)
  {}

  lemma RunStops(d: D, bits: Bits)
    requires !d.Output? && (!Reading(d) || |bits| < Need(d))
    ensures RunBits(d, bits) == Outcome([], d, bits)
  {}

  /** Resumability: feeding bits in two pieces, carrying over only the state and the unread bits, is one feed. */
  lemma {:induction false} RunAppend(d: D, a: Bits, b: Bits)
    ensures var r := RunBits(d, a);
            var r' := RunBits(r.d, r.rest + b);
            RunBits(d, a + b) == Outcome(r.out + r'.out, r'.d, r'.rest)
    decreases |a|, if d.Output? then 1 else 0
  {
    if d.Output? {
      RunAppend(AfterOutput(d), a, b);
      RunEmits(d, a);
      RunEmits(d, a + b);
      var r := RunBits(AfterOutput(d), a);
      AssocBytes(Emitted(d), r.out, RunBits(r.d, r.rest + b).out);
    } else if !Reading(d) || |a| < Need(d) {
      RunStops(d, a);
      var r' := RunBits(d, a + b);
      assert [] + r'.out == r'.out;
    } else {
      var n := Need(d);
      RunReads(d, a, n);
      RunReads(d, a + b, n);
      SliceAppend(a, b, n);
      RunAppend(Advance(d, FromBits(a[..n])), a[n..], b);
    }
  }

  lemma AssocBytes(a: seq<byte>, b: seq<byte>, c: seq<byte>)
    ensures a + (b + c) == a + b + c
  {}

  /** Once a run has failed or ended it stays so. */
  lemma RunTerminal(d: D, bits: Bits)
    requires d.Idle? || d.Failed? || d.Randomised?
    ensures RunBits(d, bits) == Outcome([], d, bits)
  {}
}
