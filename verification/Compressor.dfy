/**
 The compressor's state machine: input through run-length coding into blocks, blocks into output, under RUN, FLUSH and
 FINISH.
*/
module Compressor {
  import opened Bits
  import opened BitIO
  import opened Crc
  import opened MoveToFront
  import opened RunLength
  import opened StreamFormat
  import opened BlockCompressor

  datatype Mode = ModeIdle | ModeRunning | ModeFlushing | ModeFinishing
  datatype Phase = InputPhase | OutputPhase
  datatype Action = Run | Flush | Finish
  datatype Result = RunOk | FlushOk | FinishOk | StreamEnd | SequenceError | ParamError

  /** state_in_ch when no run is pending. */
  const NO_CHAR := 256
  /** How far below its capacity a block is called full. */
  const MARGIN := 19

  /** The bytes of the pending run. */
  function RunBytes(ch: nat, len: nat): seq<byte> {
    if ch < NO_CHAR then Repeat(ch, len) else []
  }

  /** The bits of the stream so far, before the trailer. */
  ghost function StreamSoFar(blocks: seq<BlockCode>, level: nat, started: bool): Bits
    requires 1 <= level <= 9 && GoodBlocks(blocks, level)
  {
    (if started then BytesBits(HeaderBytes(level)) else []) + BlocksBits(blocks, level)
  }

  /** A snapshot of the compressor: its stages, its buffers, and what it has taken in, made and sent. */
  datatype View = View(level: nat, phase: Phase, blockNo: nat, inCh: nat, inLen: nat, blockCRC: word, combinedCRC: word,
                             block: seq<byte>, zbits: seq<byte>, pending: Bits, outPos: nat,
                             consumed: seq<byte>, blocks: seq<BlockCode>, drained: seq<byte>, output: seq<byte>,
                             ended: bool)

  /** Blocks and pending bytes account for all input taken. */
  ghost predicate InputValid(v: View) {
    && 1 <= v.level <= 9 && GoodBlocks(v.blocks, v.level) && v.combinedCRC == CombinedCrc(v.blocks)
    && v.inCh <= NO_CHAR && (if v.inCh < NO_CHAR then 1 <= v.inLen <= 255 else v.inLen == 0)
    && (v.phase.InputPhase? ==>
          && !v.ended && |v.block| <= 100000 * v.level && Complete(v.block) && v.blockCRC == Running(UnRle(v.block))
          && v.consumed == Data(v.blocks) + (UnRle(v.block) + RunBytes(v.inCh, v.inLen)))
    && (v.phase.OutputPhase? ==> v.consumed == Data(v.blocks) + RunBytes(v.inCh, v.inLen))
    && (v.ended ==> v.inCh == NO_CHAR)
  }

  /** Output and unsent bits account for all blocks made. */
  ghost predicate OutputValid(v: View)
    requires InputValid(v)
  {
    && 1 <= v.blockNo && v.outPos <= |v.zbits| && v.output == v.drained + v.zbits[..v.outPos]
    && (v.phase.InputPhase? ==>
          && v.outPos == 0 && v.zbits == [] && (v.blockNo == 1 ==> v.blocks == [] && v.drained == [] && v.pending == [])
          && BytesBits(v.drained) + v.pending == StreamSoFar(v.blocks, v.level, v.blockNo > 1))
    && (v.phase.OutputPhase? && !v.ended ==>
          BytesBits(v.drained) + (BytesBits(v.zbits) + v.pending) == StreamSoFar(v.blocks, v.level, true))
    && (v.phase.OutputPhase? && v.ended ==>
          BytesBits(v.drained) + BytesBits(v.zbits) == PadToByte(StreamBits(v.blocks, v.level)))
  }

  /** The block has room for the pending run and the one after it, and the run may follow what is in it. */
  ghost predicate RunFits(v: View) {
    v.phase.InputPhase? ==>
      && |v.block| <= 100000 * v.level - MARGIN + 4
      && if v.inCh < NO_CHAR then Fresh(v.block, v.inCh) else v.block == []
  }

  ghost predicate Good(v: View) {
    InputValid(v) && OutputValid(v) && RunFits(v)
  }

  /**
   The blocks made: every table fitted to what it codes, and the places where the input was cut. A block holds no more
   than its capacity less ten, and, unless a flush or the finish came after all input was taken in, at least its
   capacity less nineteen.
  */
  ghost predicate WellMade(blocks: seq<BlockCode>, early: seq<bool>, level: nat) {
    && |early| == |blocks|
    && forall k :: 0 <= k < |blocks| ==> WellCut(blocks[k], early[k], level)
  }

  ghost predicate WellCut(c: BlockCode, early: bool, level: nat) {
    && WellFitted(c) && |c.block| <= 100000 * level - 10
    && (early || |c.block| >= 100000 * level - 19)
  }

  /** Later blocks, of which only the last may have come early. */
  ghost predicate MoreCuts(was: seq<bool>, now: seq<bool>) {
    was <= now && forall k :: |was| <= k < |now| - 1 ==> !now[k]
  }

  /** A block has been cut early. */
  predicate LastEarly(was: seq<bool>, now: seq<bool>) {
    |was| < |now| && now[|now| - 1]
  }

  /** The cuts after compressing block c. */
  function MoreEarly(early: seq<bool>, c: BlockCode, e: bool): seq<bool> {
    if c.block == [] then early else early + [e]
  }

  lemma OneMoreCut(blocks: seq<BlockCode>, early: seq<bool>, level: nat, c: BlockCode, e: bool)
    requires WellMade(blocks, early, level) && (c.block != [] ==> WellCut(c, e, level))
    ensures WellMade(MoreBlocks(blocks, c), MoreEarly(early, c, e), level)
  {
    hide WellCut;
  }

  // ---------- taking in a byte ----------

  /** The view after the pending run has gone into the block. */
  ghost function Paired(v: View): View
    requires v.inCh < NO_CHAR && 1 <= v.inLen <= 255
  {
    v.(block := v.block + Pair(v.inCh, v.inLen), blockCRC := Running(UnRle(v.block) + Repeat(v.inCh, v.inLen)),
       inCh := NO_CHAR, inLen := 0)
  }

  lemma PairKeeps(v: View)
    requires Good(v) && v.phase.InputPhase? && v.inCh < NO_CHAR
    ensures var p := Paired(v);
            && UnRle(p.block) == UnRle(v.block) + Repeat(v.inCh, v.inLen) && Complete(p.block)
            && p.blockCRC == Running(UnRle(p.block))
            && v.consumed == Data(v.blocks) + UnRle(p.block)
            && forall x: byte :: x != v.inCh || v.inLen == 255 ==> Fresh(p.block, x)
  {
    hide Data, Running, RleFold, Repeat, BlocksBits, StreamBits, BytesBits, Fresh, Complete, Pair;
    var ch: byte := v.inCh;
    PairUnRle(v.block, ch, v.inLen);
    PairComplete(v.block, ch, v.inLen);
    assert Data(v.blocks) + (UnRle(v.block) + Repeat(ch, v.inLen)) == v.consumed;
    forall x: byte | x != v.inCh || v.inLen == 255
      ensures Fresh(Paired(v).block, x)
    {
      FreshAfterPair(v.block, ch, v.inLen, x);
    }
  }

  lemma PairUnRle(b: seq<byte>, ch: byte, len: nat)
    requires Fresh(b, ch) && 1 <= len <= 255
    ensures UnRle(b + Pair(ch, len)) == UnRle(b) + Repeat(ch, len)
  {
    PairExpands(b, ch, len);
  }

  lemma PairComplete(b: seq<byte>, ch: byte, len: nat)
    requires Fresh(b, ch) && 1 <= len <= 255
    ensures Complete(b + Pair(ch, len))
  {
    PairExpands(b, ch, len);
  }

  /** A byte that ends the pending run: the run goes into the block, and the byte begins a new one. */
  lemma BreakKeeps(v: View, x: byte)
    requires Good(v) && v.phase.InputPhase? && |v.block| + 5 <= 100000 * v.level - MARGIN + 4
    requires v.inCh < NO_CHAR && (x != v.inCh || v.inLen == 255)
    ensures Good(Paired(v).(inCh := x, inLen := 1, consumed := v.consumed + [x]))
  {
    hide Data, Running, RleFold, BlocksBits, StreamBits, BytesBits, Fresh, Complete, CombinedCrc, GoodBlocks,
         StreamSoFar, PadToByte;
    PairKeeps(v);
    PairLength(v.inCh, v.inLen);
    assert Repeat(x, 1) == [x];
    var u := UnRle(Paired(v).block);
    assert Data(v.blocks) + u + [x] == Data(v.blocks) + (u + [x]);
  }

  lemma PairLength(ch: byte, len: nat)
    requires 1 <= len <= 255
    ensures 1 <= |Pair(ch, len)| <= 5
  {}

  /** The first byte after none were pending. */
  lemma FirstKeeps(v: View, x: byte)
    requires Good(v) && v.phase.InputPhase? && v.inCh == NO_CHAR && Fresh(v.block, x)
    ensures Good(v.(inCh := x, inLen := 1, consumed := v.consumed + [x]))
  {
    hide Data, Running, RleFold, BlocksBits, StreamBits, BytesBits, Fresh, Complete, CombinedCrc, GoodBlocks,
         StreamSoFar, PadToByte;
    assert Repeat(x, 1) == [x];
    var u := UnRle(v.block);
    assert Data(v.blocks) + (u + []) + [x] == Data(v.blocks) + (u + [x]);
  }

  /** One more of the byte pending. */
  lemma MoreKeeps(v: View)
    requires Good(v) && v.phase.InputPhase? && v.inCh < NO_CHAR && v.inLen < 255
    ensures Good(v.(inLen := v.inLen + 1, consumed := v.consumed + [v.inCh as byte]))
  {
    hide Data, Running, RleFold, BlocksBits, StreamBits, BytesBits, Fresh, Complete, CombinedCrc, GoodBlocks,
         StreamSoFar, PadToByte;
    var x: byte := v.inCh;
    var u, r := UnRle(v.block), Repeat(x, v.inLen);
    assert Repeat(x, v.inLen + 1) == r + [x];
    assert Data(v.blocks) + (u + r) + [x] == Data(v.blocks) + (u + (r + [x]));
  }

  // ---------- compressing a block ----------

  /** The blocks after compressing block c, which may be empty. */
  function MoreBlocks(blocks: seq<BlockCode>, c: BlockCode): seq<BlockCode> {
    if c.block == [] then blocks else blocks + [c]
  }

  lemma MoreBlocksData(blocks: seq<BlockCode>, c: BlockCode, level: nat)
    requires 1 <= level <= 9 && GoodBlocks(blocks, level) && (c.block != [] ==> GoodBlock(c, level))
    ensures GoodBlocks(MoreBlocks(blocks, c), level) && Data(MoreBlocks(blocks, c)) == Data(blocks) + UnRle(c.block)
    ensures CombinedCrc(MoreBlocks(blocks, c)) == if c.block == [] then CombinedCrc(blocks)
            else Combine(CombinedCrc(blocks), CrcOf(c))
    ensures BlocksBits(MoreBlocks(blocks, c), level) == BlocksBits(blocks, level) + if c.block == [] then []
            else BlockBits(c, level)
  {
    hide BlockBits, CrcOf, Combine, GoodBlock;
    var m := MoreBlocks(blocks, c);
    if c.block == [] {
      assert UnRle([]) == [];
      assert Data(blocks) + [] == Data(blocks);
      assert BlocksBits(blocks, level) + [] == BlocksBits(blocks, level);
    } else {
      assert m[..|m| - 1] == blocks && m[|m| - 1] == c;
    }
  }

  /** The bits so far grow by what compressing the block adds. */
  lemma SoFarGrows(drained: seq<byte>, pending: Bits, blocks: seq<BlockCode>, c: BlockCode, level: nat, first: bool,
                   added: Bits)
    requires 1 <= level <= 9 && GoodBlocks(blocks, level) && (c.block != [] ==> GoodBlock(c, level))
    requires BytesBits(drained) + pending == StreamSoFar(blocks, level, !first) && (first ==> blocks == [])
    requires added == (if first then BytesBits(HeaderBytes(level)) else []) + if c.block != [] then BlockBits(c, level)
             else []
    ensures GoodBlocks(MoreBlocks(blocks, c), level)
    ensures BytesBits(drained) + (pending + added) == StreamSoFar(MoreBlocks(blocks, c), level, true)
  {
    hide BlockBits, GoodBlock, BytesBits, CombinedCrc, Data, HeaderBytes, BlocksBits, GoodBlocks, CrcOf, UnRle;
    MoreBlocksData(blocks, c, level);
    NoBlocks(level);
    var h, k := BytesBits(HeaderBytes(level)), if c.block != [] then BlockBits(c, level) else [];
    JoinSoFar(BytesBits(drained), pending, h, BlocksBits(blocks, level), k, first);
  }

  lemma NoBlocks(level: nat)
    ensures GoodBlocks([], level) && BlocksBits([], level) == []
  {}

  lemma JoinSoFar(d: Bits, p: Bits, h: Bits, bb: Bits, k: Bits, first: bool)
    requires d + p == (if !first then h else []) + bb && (first ==> bb == [])
    ensures d + (p + ((if first then h else []) + k)) == h + (bb + k)
  {
    if first {
      assert d + (p + (h + k)) == d + p + h + k;
      assert d + p == [];
      assert h + (bb + k) == h + k;
    } else {
      assert d + (p + ([] + k)) == d + p + k;
      assert h + bb + k == h + (bb + k);
    }
  }

  lemma PadShift(a: seq<byte>, x: Bits)
    ensures BytesBits(a) + PadToByte(x) == PadToByte(BytesBits(a) + x)
  {
    hide BytesBits;
    var b := BytesBits(a);
    assert |b| == 8 * |a| && |b + x| % 8 == |x| % 8;
    if |x| % 8 != 0 { Assoc3(b, x, Zeros(8 - |x| % 8)); }
  }

  /** The last block's bits, the trailer and the padding complete the stream. */
  lemma StreamCompletes(drained: seq<byte>, zbits: seq<byte>, bits: Bits, blocks: seq<BlockCode>, level: nat)
    requires 1 <= level <= 9 && GoodBlocks(blocks, level)
             && BytesBits(drained) + bits == StreamSoFar(blocks, level, true)
    requires BytesBits(zbits) == PadToByte(bits + TrailerBits(blocks))
    ensures BytesBits(drained) + BytesBits(zbits) == PadToByte(StreamBits(blocks, level))
  {
    hide BytesBits, BlocksBits, TrailerBits, PadToByte, HeaderBytes;
    PadShift(drained, bits + TrailerBits(blocks));
    Assoc3(BytesBits(drained), bits, TrailerBits(blocks));
    Assoc3(BytesBits(HeaderBytes(level)), BlocksBits(blocks, level), TrailerBits(blocks));
  }

  /** What the rest of the state must show for the block to be compressed. */
  ghost predicate Ready(v: View) {
    InputValid(v) && OutputValid(v) && v.phase.InputPhase?
  }

  /** The view after compressing: the block has become c, and zbits, pending and combined are what it left. */
  ghost function Compressed(v: View, c: BlockCode, last: bool, zbits: seq<byte>, pending: Bits, combined: word): View {
    v.(phase := OutputPhase, blocks := MoreBlocks(v.blocks, c), zbits := zbits, pending := pending,
       combinedCRC := combined, ended := last)
  }

  lemma CompressKeeps(v: View, c: BlockCode, last: bool, zbits: seq<byte>, pending: Bits, combined: word, added: Bits)
    requires Ready(v) && c.block == v.block && (c.block != [] ==> GoodBlock(c, v.level)) && (last ==> v.inCh == NO_CHAR)
    requires combined == if c.block == [] then v.combinedCRC else Combine(v.combinedCRC, CrcOf(c))
    requires added == (if v.blockNo == 1 then BytesBits(HeaderBytes(v.level)) else [])
             + if c.block != [] then BlockBits(c, v.level) else []
    requires !last ==> BytesBits(zbits) + pending == v.pending + added
    requires last ==> pending == []
                      && BytesBits(zbits)
                         == PadToByte(v.pending + added + (BytesBits(END_MAGIC) + BytesBits(U32Bytes(combined as nat))))
    ensures Good(Compressed(v, c, last, zbits, pending, combined))
  {
    hide BlockBits, GoodBlock, BytesBits, HeaderBytes, BlocksBits, GoodBlocks, CrcOf, UnRle, Data, CombinedCrc,
         StreamBits, Repeat, Fresh, Complete, Running, PadToByte, U32Bytes;
    MoreBlocksData(v.blocks, c, v.level);
    SoFarGrows(v.drained, v.pending, v.blocks, c, v.level, v.blockNo == 1, added);
    var m := MoreBlocks(v.blocks, c);
    assert v.output == v.drained + zbits[..0];
    assert Data(v.blocks) + (UnRle(v.block) + RunBytes(v.inCh, v.inLen)) == Data(m) + RunBytes(v.inCh, v.inLen);
    if last {
      assert BytesBits(END_MAGIC) + BytesBits(U32Bytes(combined as nat)) == TrailerBits(m);
      StreamCompletes(v.drained, zbits, v.pending + added, m, v.level);
    }
  }

  /** The pending run, if there is one, flushed into the block. */
  ghost function RunFlushed(v: View): View
    requires v.inCh < NO_CHAR ==> 1 <= v.inLen <= 255
  {
    if v.inCh < NO_CHAR then Paired(v) else v
  }

  lemma FlushKeeps(v: View)
    requires Good(v) && v.phase.InputPhase?
    ensures Ready(RunFlushed(v)) && RunFlushed(v).inCh == NO_CHAR
  {
    hide BlocksBits, StreamBits, PadToByte, GoodBlocks, Data, CombinedCrc, BytesBits, Fresh, Complete, Running, RleFold,
         Repeat;
    if v.inCh < NO_CHAR {
      PairKeeps(v);
      PairLength(v.inCh, v.inLen);
      var u := UnRle(Paired(v).block);
      assert u + [] == u;
    }
  }

  /** The block, and the block with the pending run, stay below the capacity. */
  lemma Capacity(v: View)
    requires Good(v) && v.phase.InputPhase?
    ensures |v.block| <= 100000 * v.level - 15 && |RunFlushed(v).block| <= 100000 * v.level - 10
  {
    hide InputValid, OutputValid, Fresh, Pair;
    if v.inCh < NO_CHAR { RunPairLength(v); }
  }

  lemma RunPairLength(v: View)
    requires Good(v) && v.inCh < NO_CHAR
    ensures |RunFlushed(v).block| <= |v.block| + 5
  {
    PairLength(v.inCh, v.inLen);
  }

  lemma GoodReady(v: View)
    requires Good(v) && v.phase.InputPhase?
    ensures Ready(v)
  {}

  // ---------- starting the next block ----------

  lemma NextBlockKeeps(v: View)
    requires Good(v) && v.phase.OutputPhase? && !v.ended && v.outPos == |v.zbits|
    ensures Good(v.(phase := InputPhase, blockNo := v.blockNo + 1, outPos := 0, zbits := [], block := [],
                    blockCRC := 0xffff_ffff,
                    drained := v.drained + v.zbits))
  {
    hide BlocksBits, StreamBits, PadToByte, HeaderBytes, GoodBlocks, Data, CombinedCrc, Repeat;
    assert v.zbits[..v.outPos] == v.zbits;
    BytesBitsAppend(v.drained, v.zbits);
    Assoc3(BytesBits(v.drained), BytesBits(v.zbits), v.pending);
    assert UnRle([]) == [] && [] + RunBytes(v.inCh, v.inLen) == RunBytes(v.inCh, v.inLen);
    assert v.drained + v.zbits + [] == v.drained + v.zbits;
  }

  /** One byte of output. */
  lemma OutputKeeps(v: View)
    requires Good(v) && v.outPos < |v.zbits|
    ensures Good(v.(outPos := v.outPos + 1, output := v.output + [v.zbits[v.outPos]]))
  {
    hide BlocksBits, StreamBits, PadToByte, HeaderBytes, GoodBlocks, Data, CombinedCrc, Repeat, BytesBits;
    assert v.zbits[..v.outPos + 1] == v.zbits[..v.outPos] + [v.zbits[v.outPos]];
  }

  // ---------- the machine ----------

  class EState {
    const blk: BlockState
    const workFactor: int
    var mode: Mode
    var phase: Phase
    var blockNo: nat
    var inCh: nat
    var inLen: nat
    var blockCRC: word
    var combinedCRC: word
    var availInExpect: nat
    var outPos: nat
    /** The caller's buffers: the input left, the room for output, and all output so far. */
    var nextIn: seq<byte>
    var availOut: nat
    var output: seq<byte>
    /** All input taken, the blocks made of it, the output of earlier blocks, and whether the trailer has been made. */
    ghost var consumed: seq<byte>
    ghost var blocks: seq<BlockCode>
    ghost var drained: seq<byte>
    ghost var ended: bool
    /** For each block, whether it was cut because a flush or the finish came after all input was taken in. */
    ghost var early: seq<bool>

    ghost predicate Made()
      reads this`blocks, this`early
    {
      WellMade(blocks, early, blk.level)
    }

    ghost function V(): View
      requires blk.nblock <= blk.sort.arr2.Length
      reads this, blk, blk.sort.arr2, blk.w
    {
      View(blk.level, phase, blockNo, inCh, inLen, blockCRC, combinedCRC, blk.Block(), blk.w.zbits, blk.w.pending,
           outPos,
           consumed, blocks, drained, output, ended)
    }

    /** The storage is sound and apart from this object. */
    ghost predicate Sound()
      reads this, blk, blk.repr
    {
      this !in blk.repr && blk in blk.repr && blk.w in blk.repr && blk.sort.arr2 in blk.repr && blk.Valid()
      && blk.nblock <= blk.sort.arr2.Length
    }

    ghost predicate Core()
      reads this, blk, blk.repr
    {
      Sound() && Good(V())
    }

    /** BZ2_bzCompressInit, with the parameters it accepts; order says which half of a word comes first in memory. */
    constructor (level: nat, work: nat, order: nat)
      requires 1 <= level <= 9 && work <= 250 && order <= 1
      ensures Between() && fresh(blk.repr) && mode == ModeRunning && phase.InputPhase?
      ensures consumed == [] && output == [] && blk.level == level && blocks == [] && early == [] && !ended
    {
      var b := new BlockState(level, order);
      blk := b;
      workFactor := if work == 0 then 30 else work;
      mode, phase, blockNo, inCh, inLen := ModeRunning, InputPhase, 1, NO_CHAR, 0;
      blockCRC, combinedCRC, availInExpect, outPos := 0xffff_ffff, 0, 0, 0;
      nextIn, availOut, output := [], 0, [];
      consumed, blocks, drained, ended, early := [], [], [], false, [];
      new;
      blk.Ready();
      StartGood(V());
    }

    /** The memory of the block, its bit writer and this object are apart. */
    lemma StorageApart()
      requires Sound()
      ensures blk.Apart() && (blk.w as object) != (blk as object) && (blk.sort.arr2 as object) != (blk.w as object)
      ensures (blk.inUse as object) != (blk.w as object) && blk.inUse in blk.repr && blk in blk.repr
              && (this as object) != (blk.w as object)
      ensures blk.Limit() == 100000 * blk.level && (this as object) != (blk as object)
              && (blk.sort.arr2 as object) != (blk as object)
    {
      blk.Ready();
    }

    /** add_pair_to_block. */
    method AddPairToBlock()
      requires Core() && phase.InputPhase? && inCh < NO_CHAR
      modifies this`blockCRC, blk.repr
      ensures Sound() && V() == old(Paired(V())).(inCh := inCh, inLen := inLen)
    {
      hide Good, UnRle, Running, Repeat, Update, Pair, BlockState.Valid, BlockState.Apart, InputValid, OutputValid;
      ghost var v := V();
      PairReady(v);
      StorageApart();
      CrcStart(v);
      for i := 0 to inLen
        invariant Sound() && blockCRC == Running(UnRle(v.block) + Repeat(inCh, i)) && V() == v.(blockCRC := blockCRC)
      {
        RunningMore(UnRle(v.block), inCh, i);
        blockCRC := Update(blockCRC, inCh);
      }
      blk.AddPair(inCh, inLen);
      blk.Ready();
    }

    /** flush_RL. */
    method FlushRL()
      requires Core() && phase.InputPhase?
      modifies this`blockCRC, this`inCh, this`inLen, blk.repr
      ensures Sound() && Ready(V()) && V() == old(RunFlushed(V())) && inCh == NO_CHAR
      ensures blk.nblock <= 100000 * blk.level - 10
    {
      hide Good, Ready, UnRle, Running, Repeat, Pair, BlockState.Valid, BlockState.Apart, InputValid, OutputValid;
      FlushKeeps(V());
      Capacity(V());
      RunFields(V());
      if inCh < NO_CHAR { AddPairToBlock(); }
      inCh, inLen := NO_CHAR, 0;
    }

    /** ADD_CHAR_TO_BLOCK. */
    method AddCharToBlock(x: byte)
      requires Core() && phase.InputPhase? && blk.nblock < 100000 * blk.level - MARGIN
      modifies this`blockCRC, this`inCh, this`inLen, this`consumed, blk.repr
      ensures Core() && consumed == old(consumed) + [x] && inCh < NO_CHAR
    {
      hide Good, UnRle, Running, Repeat, Pair, BlockState.Valid, BlockState.Apart, InputValid, OutputValid, Fresh;
      ghost var v := V();
      RunFields(v);
      if x != inCh && inLen == 1 {
        BreakKeeps(v, x);
        AddPairToBlock();
        inCh := x;
      } else if x != inCh || inLen == 255 {
        if inCh < NO_CHAR {
          BreakKeeps(v, x);
          AddPairToBlock();
        } else {
          FirstFresh(v, x);
          FirstKeeps(v, x);
        }
        inCh, inLen := x, 1;
      } else {
        MoreKeeps(v);
        inLen := inLen + 1;
      }
      consumed := consumed + [x];
    }

    /** The next byte of input goes into the block. */
    method TakeByte()
      requires Core() && phase.InputPhase? && (mode != ModeRunning ==> availInExpect == |nextIn|) && nextIn != []
      requires blk.nblock < 100000 * blk.level - MARGIN
      modifies this`blockCRC, this`inCh, this`inLen, this`consumed, this`nextIn, this`availInExpect, blk.repr
      ensures Core() && (mode != ModeRunning ==> availInExpect == |nextIn|)
      ensures nextIn == old(nextIn)[1..] && consumed == old(consumed) + [old(nextIn)[0]]
    {
      hide Good, BlockState.Valid, BlockState.Apart;
      AddCharToBlock(nextIn[0]);
      nextIn := nextIn[1..];
      if mode != ModeRunning { availInExpect := availInExpect - 1; }
    }

    /** copy_input_until_stop. */
    method CopyInputUntilStop() returns (progressIn: bool)
      requires Core() && phase.InputPhase? && (mode != ModeRunning ==> availInExpect == |nextIn|)
      modifies this`blockCRC, this`inCh, this`inLen, this`consumed, this`nextIn, this`availInExpect, blk.repr
      ensures Core() && (mode != ModeRunning ==> availInExpect == |nextIn|)
      ensures |nextIn| <= old(|nextIn|) && old(nextIn) == old(nextIn)[..old(|nextIn|) - |nextIn|] + nextIn
      ensures consumed == old(consumed) + old(nextIn)[..old(|nextIn|) - |nextIn|]
      ensures progressIn <==> |nextIn| < old(|nextIn|)
      ensures nextIn == [] || blk.nblock >= 100000 * blk.level - MARGIN
      ensures !progressIn ==> inCh == old(inCh) && blk.nblock == old(blk.nblock)
    {
      hide *;
      NotInStorage();
      progressIn := false;
      ghost var given, taken := nextIn, 0;
      assert given[..0] == [];
      while true
        invariant Core() && (mode != ModeRunning ==> availInExpect == |nextIn|) && taken <= |given|
                  && nextIn == given[taken..]
        invariant consumed == old(consumed) + given[..taken] && (progressIn <==> taken > 0)
                  && (taken == 0 ==> inCh == old(inCh) && blk.nblock == old(blk.nblock))
        decreases |nextIn|
      {
        if blk.nblock >= 100000 * blk.level - MARGIN { break; }
        if nextIn == [] { break; }
        if mode != ModeRunning && availInExpect == 0 { break; }
        progressIn := true;
        assert given[..taken + 1] == given[..taken] + [nextIn[0]];
        TakeByte();
        taken := taken + 1;
      }
    }

    /** copy_output_until_stop. */
    method CopyOutputUntilStop() returns (progressOut: bool)
      requires Core()
      modifies this`outPos, this`availOut, this`output
      ensures Core() && (availOut == 0 || outPos == |blk.w.zbits|)
      ensures |output| == old(|output|) + (outPos - old(outPos)) && outPos <= |blk.w.zbits|
      ensures old(outPos) <= outPos && availOut == old(availOut) - (outPos - old(outPos)) && old(output) <= output
      ensures progressOut <==> outPos > old(outPos)
      ensures old(availOut) > 0 && old(outPos) < |blk.w.zbits| ==> progressOut
    {
      hide Good, BlockState.Valid, BlockState.Apart;
      progressOut := false;
      OutFields(V());
      while true
        invariant Core() && old(outPos) <= outPos <= |blk.w.zbits| && availOut == old(availOut) - (outPos - old(outPos))
        invariant (progressOut <==> outPos > old(outPos)) && old(output) <= output
                  && |output| == old(|output|) + (outPos - old(outPos))
        decreases availOut
      {
        if availOut == 0 { break; }
        if outPos >= |blk.w.zbits| { break; }
        progressOut := true;
        OutputKeeps(V());
        output := output + [blk.w.zbits[outPos]];
        outPos := outPos + 1;
        availOut := availOut - 1;
      }
    }

    /** prepare_new_block. */
    method PrepareNewBlock()
      requires Core() && phase.OutputPhase? && !ended && outPos == |blk.w.zbits|
      modifies this`phase, this`blockNo, this`outPos, this`blockCRC, this`drained, blk.repr
      ensures Core() && phase.InputPhase? && blk.nblock == 0 && outPos == 0 && blockNo == old(blockNo) + 1
    {
      hide Good, BlockState.Valid, BlockState.Apart;
      NextBlockKeeps(V());
      drained := drained + blk.w.zbits;
      blk.NewBlock();
      blk.Ready();
      outPos := 0;
      blockCRC := 0xffff_ffff;
      blockNo := blockNo + 1;
      phase := InputPhase;
    }

    /** BZ2_compressBlock, called from handle_compress. */
    method CompressBlock(last: bool) returns (ghost c: BlockCode)
      requires Sound() && Ready(V()) && (last ==> inCh == NO_CHAR)
      modifies this`phase, this`combinedCRC, this`blocks, this`ended, blk.repr
      ensures Core() && phase.OutputPhase? && ended == last && (last ==> |blk.w.zbits| > 0)
      ensures blocks == MoreBlocks(old(blocks), c) && |c.block| == old(blk.nblock) && (c.block != [] ==> WellFitted(c))
    {
      hide Good, Ready, BlockState.Valid, BlockState.Apart, BlockState.Added, PadToByte, BytesBits, Combine, CrcOf,
           GoodBlock;
      hide BlockBits, U32Bytes, Complete, UnRle, Running, CombinedCrc, HeaderBytes, BitWriter.Valid, Finalise;
      hide WellFitted;
      ghost var v := V();
      ReadyFields(v);
      c, combinedCRC := blk.CompressBlock(blockNo == 1, last, workFactor, blockCRC, combinedCRC);
      blk.Ready();
      AddedBits(blk, c, blockNo == 1);
      CompressKeeps(v, c, last, blk.w.zbits, blk.w.pending, combinedCRC, blk.Added(c, blockNo == 1));
      blocks := MoreBlocks(blocks, c);
      phase, ended := OutputPhase, last;
      if last { TrailerBytes(blk.w.zbits, v.pending + blk.Added(c, blockNo == 1), combinedCRC); }
    }

    /** The block is compressed, and the place of the cut noted. */
    method CutBlock(last: bool, ghost e: bool)
      requires Sound() && Ready(V()) && (last ==> inCh == NO_CHAR) && Made()
      requires blk.nblock <= 100000 * blk.level - 10 && (e || blk.nblock >= 100000 * blk.level - 19)
      modifies this`phase, this`combinedCRC, this`blocks, this`ended, this`early, blk.repr
      ensures Made() && (early == old(early) || early == old(early) + [e])
      ensures Core() && phase.OutputPhase? && ended == last && (last ==> |blk.w.zbits| > 0)
    {
      hide Good, Ready, BlockState.Valid, BlockState.Apart, WellMade, WellFitted, MoreBlocks;
      ghost var c := CompressBlock(last);
      OneMoreCut(old(blocks), early, blk.level, c, e);
      early := MoreEarly(early, c, e);
    }

    /** isempty_RL. */
    predicate IsEmptyRL()
      reads this`inCh, this`inLen
    {
      !(inCh < NO_CHAR && inLen > 0)
    }

    /** While flushing or finishing, the input expected is the input there. */
    ghost predicate Expected()
      reads this`mode, this`availInExpect, this`nextIn
    {
      mode != ModeRunning ==> availInExpect == |nextIn|
    }

    /**
     The trailer has been made only when all input was taken in finishing; a block being sent leaves a run pending, or
     a flush.
    */
    ghost predicate Orderly()
      reads this
    {
      && (ended ==> (mode == ModeFinishing || mode == ModeIdle) && availInExpect == 0)
      && (phase.OutputPhase? && !ended && mode != ModeFlushing ==> inCh < NO_CHAR)
      && (mode == ModeIdle ==> ended)
    }

    /** Between calls: either taking input, with room in the block, or sending output, with some left. */
    ghost predicate Settled()
      reads this`phase, this`outPos, blk, blk.w
    {
      (phase.OutputPhase? ==> outPos < |blk.w.zbits|)
      && (phase.InputPhase? ==> blk.nblock < 100000 * blk.level - MARGIN)
    }

    /** All output of the stream is with the caller. */
    ghost predicate Drained()
      reads this`phase, this`outPos, this`ended, blk, blk.w
    {
      phase.OutputPhase? && ended && outPos == |blk.w.zbits|
    }

    /** The output part of a turn of handle_compress. */
    method OutputRound() returns (progressOut: bool, stop: bool)
      requires Core() && Expected() && Orderly() && mode != ModeIdle && phase.OutputPhase?
      modifies this`phase, this`blockNo, this`outPos, this`blockCRC, this`availOut, this`output, this`drained, blk.repr
      ensures Core() && Expected() && Orderly()
      ensures old(output) <= output && availOut + |output| == old(availOut + |output|)
              && (progressOut <==> |output| > old(|output|))
      ensures stop ==> Settled() || Drained()
      ensures stop && phase.InputPhase? ==>
                mode == ModeFlushing && availInExpect == 0 && IsEmptyRL() && blk.nblock == 0 && blockNo > 1
      ensures stop && mode == ModeRunning ==> availOut == 0
      ensures stop && mode == ModeFlushing && phase.OutputPhase? ==> availOut == 0
      ensures old(Settled()) ==> if old(availOut) > 0 then progressOut else stop && !progressOut && Settled()
      ensures stop && mode == ModeFinishing ==> phase.OutputPhase? && (availOut == 0 || Drained())
      ensures !stop ==> phase.InputPhase? && Settled() && !(mode != ModeRunning && availInExpect == 0 && IsEmptyRL())
                        && !(mode == ModeRunning && IsEmptyRL())
    {
      hide Good, BlockState.Valid, BlockState.Apart;
      progressOut := CopyOutputUntilStop();
      stop := true;
      OutFields(V());
      RunFields(V());
      if outPos < |blk.w.zbits| { return; }
      if mode == ModeFinishing && availInExpect == 0 && IsEmptyRL() {
        return;
      }
      NotEnded(V());
      PrepareNewBlock();
      if mode == ModeFlushing && availInExpect == 0 && IsEmptyRL() { return; }
      stop := false;
    }

    /** A full block can be compressed with a run still pending. */
    lemma WhenFull()
      requires Core() && phase.InputPhase?
      ensures Ready(V()) && !ended && blk.nblock <= 100000 * blk.level - 15
      ensures blk.nblock >= 100000 * blk.level - MARGIN ==> inCh < NO_CHAR && 1 <= inLen
    {
      hide Good, Ready, BlockState.Valid;
      Capacity(V());
      GoodReady(V());
      InputFields(V());
      if blk.nblock >= 100000 * blk.level - MARGIN { FullHasRun(V()); }
    }

    /** After copying input: the block is compressed if it is the last or full, and otherwise there is nothing to do. */
    method StartOutput() returns (stop: bool)
      requires Core() && phase.InputPhase? && mode != ModeIdle && (mode != ModeRunning ==> availInExpect == |nextIn|)
      requires nextIn == [] || blk.nblock >= 100000 * blk.level - MARGIN
      requires Made()
      modifies this`phase, this`inCh, this`inLen, this`blockCRC, this`combinedCRC, this`blocks, this`ended, this`early,
               blk.repr
      ensures Made() && MoreCuts(old(early), early) && |early| <= |old(early)| + 1
      ensures LastEarly(old(early), early) ==> mode != ModeRunning && availInExpect == 0 && !stop
      ensures ended ==> mode == ModeFinishing && availInExpect == 0
      ensures LastEarly(old(early), early) && mode == ModeFinishing ==> ended
      ensures Core() && Orderly()
      ensures stop ==> phase.InputPhase? && Settled() && nextIn == [] && mode == ModeRunning
      ensures !stop ==> phase.OutputPhase? && (mode == ModeRunning ==> old(blk.nblock) >= 100000 * blk.level - MARGIN)
      ensures mode != ModeRunning && availInExpect == 0 ==> IsEmptyRL() && (mode == ModeFinishing ==> Settled())
    {
      hide Good, Ready, Sound, V, BlockState.Valid, BlockState.Apart, Made, MoreCuts, LastEarly;
      NoCuts(early);
      OneCut(early, early + [true], true);
      OneCut(early, early + [false], false);
      Fields();
      NotInStorage();
      WhenFull();
      stop := false;
      if mode != ModeRunning && availInExpect == 0 {
        FlushRL();
        CutBlock(mode == ModeFinishing, true);
        Fields();
      } else if blk.nblock >= 100000 * blk.level - MARGIN {
        CutBlock(false, false);
      } else {
        stop := true;
      }
    }

    /** The input part of a turn of handle_compress. */
    method InputRound() returns (progressIn: bool, stop: bool)
      requires Core() && Expected() && mode != ModeIdle && phase.InputPhase? && Settled() && Made()
      modifies this`phase, this`inCh, this`inLen, this`blockCRC, this`combinedCRC, this`availInExpect
      modifies this`nextIn, this`consumed, this`blocks, this`ended, this`early, blk.repr
      ensures Made() && MoreCuts(old(early), early) && |early| <= |old(early)| + 1
      ensures LastEarly(old(early), early) ==>
                mode != ModeRunning && availInExpect == 0 && nextIn == [] && IsEmptyRL() && !stop
                && (mode == ModeFinishing ==> ended)
      ensures Core() && Expected() && Orderly()
      ensures Took(old(nextIn), old(consumed), nextIn, consumed)
      ensures |nextIn| <= old(|nextIn|) && (progressIn <==> |nextIn| < old(|nextIn|))
              && (progressIn <==> old(nextIn) != [])
      ensures stop ==> phase.InputPhase? && Settled() && nextIn == [] && mode == ModeRunning
      ensures !stop ==> phase.OutputPhase?
      ensures !stop && !progressIn ==>
                mode != ModeRunning && old(availInExpect) == 0 && IsEmptyRL() && (mode == ModeFinishing ==> Settled())
    {
      hide Good, Took, BlockState.Valid, BlockState.Apart, Orderly, Made, MoreCuts, LastEarly;
      progressIn := CopyInputUntilStop();
      TookSome(old(nextIn), old(consumed), nextIn, consumed);
      stop := StartOutput();
    }

    /** What the steps need to know of the numbers in the state. */
    lemma Fields()
      requires Core()
      ensures 1 <= blk.level <= 9 && 1 <= blockNo && outPos <= |blk.w.zbits|
      ensures inCh <= NO_CHAR && (if inCh < NO_CHAR then 1 <= inLen <= 255 else inLen == 0)
      ensures phase.InputPhase? ==> outPos == 0 && blk.w.zbits == [] && !ended
      ensures ended ==> inCh == NO_CHAR
    {
      hide GoodBlocks, CombinedCrc, StreamSoFar, BlockState.Valid;
    }

    lemma InputNotEnded()
      requires Core()
      ensures ended ==> phase.OutputPhase?
    {
      hide GoodBlocks, CombinedCrc, StreamSoFar, BlockState.Valid;
    }

    lemma AllSent()
      requires Core() && Drained()
      ensures IsEncoding(output, consumed, blocks, blk.level)
    {
      hide Good, BlockState.Valid, IsEncoding;
      DrainedEncodes(V());
    }

    lemma NotInStorage()
      requires Core()
      ensures this !in blk.repr
    {
      hide Good, BlockState.Valid;
    }

    /** Whether a call can take in or give out a byte; in finishing, the last block follows the last byte. */
    ghost predicate CanMove(input: seq<byte>, room: nat, finishing: bool)
      reads this`phase
    {
      if phase.OutputPhase? then room > 0 else input != [] || (finishing && room > 0)
    }

    /** All input has gone into blocks, the last of which is being sent. */
    ghost predicate AllCut()
      reads this`mode, this`phase, this`availInExpect, this`inCh, this`inLen
    {
      phase.OutputPhase? && mode != ModeRunning && availInExpect == 0 && IsEmptyRL()
    }

    /** One turn of handle_compress. */
    method Turn() returns (progress: bool, stop: bool)
      requires Core() && Expected() && Orderly() && mode != ModeIdle && Made() && (phase.InputPhase? ==> Settled())
      modifies this`phase, this`blockNo, this`inCh, this`inLen, this`blockCRC, this`combinedCRC, this`availInExpect,
               this`outPos
      modifies this`nextIn, this`availOut, this`output, this`consumed, this`blocks, this`drained, this`ended,
               this`early, blk.repr
      ensures Core() && Expected() && Orderly() && Made()
      ensures MoreCuts(old(early), early) && |early| <= |old(early)| + 1
      ensures LastEarly(old(early), early) ==> !stop && AllCut() && (mode == ModeFinishing ==> ended)
      ensures old(AllCut()) ==>
                stop && nextIn == old(nextIn) && early == old(early) && ended == old(ended) && blocks == old(blocks)
      ensures Took(old(nextIn), old(consumed), nextIn, consumed)
      ensures old(output) <= output && availOut + |output| == old(availOut + |output|)
      ensures progress <==> |nextIn| < old(|nextIn|) || |output| > old(|output|)
      ensures |nextIn| <= old(|nextIn|)
      ensures !stop ==> phase.OutputPhase?
      ensures !stop && |nextIn| == old(|nextIn|) ==> IsEmptyRL() && (old(phase.InputPhase?) || !old(IsEmptyRL()))
      ensures stop ==> Settled() || Drained()
      ensures mode != ModeFlushing && old(Settled()) && progress ==>
                old(CanMove(nextIn, availOut, mode == ModeFinishing))
      ensures mode != ModeFlushing && old(Settled()) && !progress ==>
                Settled() && (CanMove(nextIn, availOut, mode == ModeFinishing)
                              <==> old(CanMove(nextIn, availOut, mode == ModeFinishing)))
      ensures stop && mode != ModeFlushing && Settled() ==> !CanMove(nextIn, availOut, mode == ModeFinishing)
      ensures stop && mode == ModeFlushing && phase.InputPhase? ==>
                availInExpect == 0 && IsEmptyRL() && blk.nblock == 0 && blockNo > 1
      ensures stop && mode == ModeRunning ==> nextIn == [] || availOut == 0
      ensures stop && mode == ModeFlushing && phase.OutputPhase? ==> availOut == 0
      ensures stop && mode == ModeFinishing ==> phase.OutputPhase? && (availOut == 0 || Drained())
    {
      hide Good, Sound, V, Took, BlockState.Valid, BlockState.Apart, Made, MoreCuts, LastEarly;
      TookNone(nextIn, consumed);
      NoCuts(early);
      NotInStorage();
      progress, stop := false, false;
      if phase == OutputPhase {
        progress, stop := OutputRound();
        if stop { return; }
        NotInStorage();
      }
      InputNotEnded();
      var progressIn;
      progressIn, stop := InputRound();
      progress := progress || progressIn;
    }

    /** handle_compress. */
    method HandleCompress() returns (progress: bool)
      requires Core() && Expected() && Orderly() && Settled() && mode != ModeIdle && Made()
      modifies this`phase, this`blockNo, this`inCh, this`inLen, this`blockCRC, this`combinedCRC, this`availInExpect,
               this`outPos
      modifies this`nextIn, this`availOut, this`output, this`consumed, this`blocks, this`drained, this`ended,
               this`early, blk.repr
      ensures Made() && MoreCuts(old(early), early)
      ensures LastEarly(old(early), early) ==>
                mode != ModeRunning && nextIn == [] && (mode == ModeFinishing ==> ended)
      ensures old(ended) ==> ended && blocks == old(blocks) && early == old(early)
      ensures Core() && Expected() && Orderly()
      ensures Settled() || Drained()
      ensures Took(old(nextIn), old(consumed), nextIn, consumed)
      ensures old(output) <= output && availOut + |output| == old(availOut + |output|)
      ensures progress <==> |nextIn| < old(|nextIn|) || |output| > old(|output|)
      ensures mode != ModeFlushing ==> (progress <==> old(CanMove(nextIn, availOut, mode == ModeFinishing)))
      ensures mode == ModeFlushing && phase.InputPhase? ==>
                availInExpect == 0 && IsEmptyRL() && blk.nblock == 0 && blockNo > 1
      ensures mode == ModeRunning ==> nextIn == [] || availOut == 0
      ensures mode == ModeFlushing && phase.OutputPhase? ==> availOut == 0
      ensures mode == ModeFinishing ==> phase.OutputPhase? && (availOut == 0 || Drained())
      ensures !progress ==> nextIn == old(nextIn) && output == old(output) && (mode != ModeFlushing ==> Settled())
    {
      hide *;
      NotInStorage();
      progress := false;
      TookNone(nextIn, consumed);
      NoCuts(early);
      EndedCut();
      while true
        invariant |nextIn| <= old(|nextIn|)
        invariant Core() && Expected() && Orderly() && Made() && (phase.InputPhase? ==> Settled())
        invariant Took(old(nextIn), old(consumed), nextIn, consumed)
        invariant old(output) <= output && availOut + |output| == old(availOut + |output|)
        invariant progress <==> |nextIn| < old(|nextIn|) || |output| > old(|output|)
        invariant mode != ModeFlushing && progress ==> old(CanMove(nextIn, availOut, mode == ModeFinishing))
        invariant mode != ModeFlushing && !progress ==>
                    Settled() && (CanMove(nextIn, availOut, mode == ModeFinishing)
                                  <==> old(CanMove(nextIn, availOut, mode == ModeFinishing)))
        invariant MoreCuts(old(early), early)
        invariant LastEarly(old(early), early) ==> AllCut() && (mode == ModeFinishing ==> ended)
        invariant old(ended) ==> AllCut() && ended && blocks == old(blocks) && early == old(early)
        decreases |nextIn|, if IsEmptyRL() then 0 else 1, if phase.InputPhase? then 1 else 0
      {
        ghost var left, was, cuts := nextIn, consumed, early;
        CutTaken();
        var progressed, stop := Turn();
        CutsGoOn(old(early), cuts, early);
        TookTwice(old(nextIn), old(consumed), left, was, nextIn, consumed);
        progress := progress || progressed;
        if stop { break; }
      }
      TookAllOrNone(old(nextIn), old(consumed), nextIn, consumed);
    }

    lemma EndedCut()
      requires Core() && Orderly()
      ensures ended && mode != ModeIdle ==> AllCut()
    {
      hide GoodBlocks, CombinedCrc, StreamSoFar, BlockState.Valid;
    }

    lemma CutTaken()
      requires Expected()
      ensures AllCut() ==> mode != ModeRunning && nextIn == []
    {}

    /** Between calls of BZ2_bzCompress. */
    ghost predicate Between()
      reads this, blk, blk.repr
    {
      Core() && Orderly() && Made() && if mode == ModeIdle then Drained() else Settled()
    }

    /** All input so far is in blocks whose bits, but for the last thirty-two at most, have been sent. */
    ghost predicate Flushed()
      reads this`blocks, this`consumed, this`output, blk, blk.w
    {
      && GoodBlocks(blocks, blk.level) && Data(blocks) == consumed && 1 <= blk.level <= 9 && |blk.w.pending| <= 32
      && BytesBits(output) + blk.w.pending == StreamSoFar(blocks, blk.level, true)
    }

    /** The caller's buffers. */
    method Accept(input: seq<byte>, room: nat)
      requires Core()
      modifies this`nextIn, this`availOut
      ensures Core() && nextIn == input && availOut == room
    {
      hide Good, BlockState.Valid, BlockState.Apart;
      nextIn, availOut := input, room;
    }

    /** A flush or the finish begins. */
    method Expect(m: Mode)
      requires Core()
      modifies this`mode, this`availInExpect
      ensures Core() && mode == m && availInExpect == |nextIn|
    {
      hide Good, BlockState.Valid, BlockState.Apart;
      mode, availInExpect := m, |nextIn|;
    }

    /** Changes the mode and nothing else. */
    method Enter(m: Mode)
      requires Core()
      modifies this`mode
      ensures Core() && mode == m
    {
      hide Good, BlockState.Valid, BlockState.Apart;
      mode := m;
    }

    /** A flush that is over. */
    lemma FlushDone()
      requires Core() && phase.InputPhase? && blk.nblock == 0 && blockNo > 1 && IsEmptyRL()
      ensures Flushed()
    {
      hide BlocksBits, StreamSoFar, GoodBlocks, Data, CombinedCrc, BytesBits;
      FlushComplete(V());
      assert blk.w.Valid();
    }

    /** BZ_M_FLUSHING. */
    method CompressFlushing() returns (r: Result)
      requires Core() && Orderly() && Settled() && mode == ModeFlushing && availInExpect == |nextIn|
      requires Made()
      modifies this, blk.repr
      ensures MoreCuts(old(early), early)
      ensures LastEarly(old(early), early) ==> nextIn == [] && (old(mode) == ModeFinishing ==> ended)
      ensures old(ended) ==> ended && blocks == old(blocks) && early == old(early)
      ensures Between() && Took(old(nextIn), old(consumed), nextIn, consumed)
      ensures old(output) <= output && availOut + |output| == old(availOut + |output|)
      ensures r == FlushOk || r == RunOk
      ensures r == FlushOk ==> mode == ModeFlushing && availOut == 0 && availInExpect == |nextIn|
      ensures r == RunOk ==> mode == ModeRunning && nextIn == [] && Flushed()
    {
      hide Good, Core, Took, Flushed, BlockState.Valid, BlockState.Apart, Made, MoreCuts, LastEarly;
      NotInStorage();
      var progress := HandleCompress();
      Fields();
      if availInExpect > 0 || !IsEmptyRL() || outPos < |blk.w.zbits| { return FlushOk; }
      FlushDone();
      Enter(ModeRunning);
      return RunOk;
    }

    /** BZ_M_FINISHING. */
    method CompressFinishing() returns (r: Result)
      requires Core() && Orderly() && Settled() && mode == ModeFinishing && availInExpect == |nextIn|
      requires Made()
      modifies this, blk.repr
      ensures MoreCuts(old(early), early)
      ensures LastEarly(old(early), early) ==> nextIn == [] && (old(mode) == ModeFinishing ==> ended)
      ensures old(ended) ==> ended && blocks == old(blocks) && early == old(early)
      ensures Between() && Took(old(nextIn), old(consumed), nextIn, consumed)
      ensures old(output) <= output && availOut + |output| == old(availOut + |output|)
      ensures r == SequenceError || r == FinishOk || r == StreamEnd
      ensures r == SequenceError <==> !old(CanMove(nextIn, availOut, true))
      ensures r == SequenceError ==> nextIn == old(nextIn) && output == old(output)
      ensures r != StreamEnd ==> mode == ModeFinishing && availOut == 0 && availInExpect == |nextIn|
      ensures r == StreamEnd ==> mode == ModeIdle && nextIn == [] && IsEncoding(output, consumed, blocks, blk.level)
    {
      hide Good, Core, Took, BlockState.Valid, BlockState.Apart, IsEncoding, Made, MoreCuts, LastEarly;
      NotInStorage();
      var progress := HandleCompress();
      Fields();
      if !progress { return SequenceError; }
      if availInExpect > 0 || !IsEmptyRL() || outPos < |blk.w.zbits| { return FinishOk; }
      AllSent();
      Enter(ModeIdle);
      return StreamEnd;
    }

    /** BZ2_bzCompress, with the buffers the caller has set. */
    method Compress(action: Action, input: seq<byte>, room: nat) returns (r: Result)
      requires Between()
      modifies this, blk.repr
      ensures MoreCuts(old(early), early)
      ensures LastEarly(old(early), early) ==> !action.Run? && nextIn == [] && (action.Finish? ==> ended)
      ensures old(ended) ==> ended && blocks == old(blocks) && early == old(early)
      ensures Between() && Took(input, old(consumed), nextIn, consumed)
      ensures old(output) <= output && availOut + |output| == room + |old(output)|
      ensures r == StreamEnd <==> old(mode) != ModeIdle && mode == ModeIdle
      ensures r == SequenceError <==>
                match old(mode)
                case ModeIdle => true
                case ModeRunning => action.Finish? && !old(CanMove(input, room, true))
                case ModeFlushing => !action.Flush? || |input| != old(availInExpect)
                case ModeFinishing => !action.Finish? || |input| != old(availInExpect)
                                      || !old(CanMove(input, room, true))
      ensures r == ParamError <==> old(mode) == ModeRunning && action.Run? && !old(CanMove(input, room, false))
      ensures r == SequenceError || r == ParamError ==> nextIn == input && output == old(output)
      ensures r == FlushOk ==> action.Flush? && mode == ModeFlushing && availOut == 0 && availInExpect == |nextIn|
      ensures r == FinishOk ==> action.Finish? && mode == ModeFinishing && availOut == 0 && availInExpect == |nextIn|
      ensures r == RunOk && action.Run? ==> mode == ModeRunning && (nextIn == [] || availOut == 0)
      ensures r == RunOk && action.Flush? ==> mode == ModeRunning && nextIn == [] && Flushed()
      ensures r == StreamEnd ==> action.Finish? && nextIn == [] && IsEncoding(output, consumed, blocks, blk.level)
      ensures old(mode) == ModeIdle ==>
                consumed == old(consumed) && output == old(output) && blocks == old(blocks) && mode == ModeIdle
      ensures old(mode) == ModeFinishing && action.Finish? && |input| == old(availInExpect) && room > 0 ==>
                r == StreamEnd || (r == FinishOk && |output| == |old(output)| + room)
    {
      hide Good, Core, Took, BlockState.Valid, BlockState.Apart, IsEncoding, Flushed, Made, MoreCuts, LastEarly;
      NotInStorage();
      NoCuts(early);
      TookNone(input, consumed);
      Accept(input, room);
      if mode == ModeIdle { return SequenceError; }
      if mode == ModeRunning {
        if action.Run? {
          var progress := HandleCompress();
          return if progress then RunOk else ParamError;
        }
        Expect(if action.Flush? then ModeFlushing else ModeFinishing);
      }
      if mode == ModeFlushing {
        if !action.Flush? || availInExpect != |input| { return SequenceError; }
        r := CompressFlushing();
      } else {
        if !action.Finish? || availInExpect != |input| { return SequenceError; }
        r := CompressFinishing();
      }
    }
  }

  // ---------- accounting for cuts ----------

  lemma NoCuts(early: seq<bool>)
    ensures MoreCuts(early, early) && !LastEarly(early, early)
  {}

  /** One more block, or none. */
  lemma OneCut(was: seq<bool>, now: seq<bool>, e: bool)
    requires now == was || now == was + [e]
    ensures MoreCuts(was, now) && |now| <= |was| + 1 && (LastEarly(was, now) ==> e)
  {}

  lemma CutsGoOn(first: seq<bool>, mid: seq<bool>, last: seq<bool>)
    ensures MoreCuts(first, mid) && !LastEarly(first, mid) && MoreCuts(mid, last) && |last| <= |mid| + 1
            ==> MoreCuts(first, last) && (LastEarly(first, last) <==> LastEarly(mid, last))
  {}

  // ---------- accounting for input ----------

  /** From given, with before taken already, now is left and after has been taken. */
  ghost predicate Took(given: seq<byte>, before: seq<byte>, now: seq<byte>, after: seq<byte>) {
    |now| <= |given| && now == given[|given| - |now|..] && after == before + given[..|given| - |now|]
  }

  lemma TookNone(given: seq<byte>, before: seq<byte>)
    ensures Took(given, before, given, before)
  {
    assert given[..0] == [];
  }

  lemma TookAllOrNone(given: seq<byte>, before: seq<byte>, now: seq<byte>, after: seq<byte>)
    requires Took(given, before, now, after)
    ensures |now| == |given| ==> now == given && after == before
  {}

  lemma TookSome(given: seq<byte>, before: seq<byte>, now: seq<byte>, after: seq<byte>)
    requires |now| <= |given| && given == given[..|given| - |now|] + now && after == before + given[..|given| - |now|]
    ensures Took(given, before, now, after)
  {}

  lemma TookTwice(given: seq<byte>, before: seq<byte>, left: seq<byte>, was: seq<byte>, now: seq<byte>,
                  after: seq<byte>)
    requires Took(given, before, left, was) && Took(left, was, now, after)
    ensures Took(given, before, now, after)
  {
    var a, b := |given| - |left|, |left| - |now|;
    assert given[..a] + left[..b] == given[..a + b];
    assert before + given[..a] + left[..b] == before + (given[..a] + left[..b]);
    assert left[b..] == given[a + b..];
  }

  /** When the flush is over, the blocks and their bits account for everything. */
  lemma FlushComplete(v: View)
    requires Good(v) && v.phase.InputPhase? && v.block == [] && v.blockNo > 1 && v.inCh == NO_CHAR
    ensures Data(v.blocks) == v.consumed && BytesBits(v.output) + v.pending == StreamSoFar(v.blocks, v.level, true)
  {
    hide BlocksBits, StreamSoFar, GoodBlocks, Data, CombinedCrc, BytesBits;
    assert UnRle([]) == [] && v.drained + [] == v.drained;
  }

  /** When the trailer is with the caller, the output is a complete stream for the input. */
  lemma DrainedEncodes(v: View)
    requires Good(v) && v.ended && v.phase.OutputPhase? && v.outPos == |v.zbits|
    ensures IsEncoding(v.output, v.consumed, v.blocks, v.level)
  {
    hide StreamBits, GoodBlocks, Data, CombinedCrc, BytesBits, PadToByte;
    assert v.zbits[..v.outPos] == v.zbits;
    BytesBitsAppend(v.drained, v.zbits);
  }

  lemma NotEnded(v: View)
    requires Good(v)
    ensures 1 <= v.blockNo && (v.ended ==> v.inCh == NO_CHAR && v.phase.OutputPhase?)
  {}

  lemma InputFields(v: View)
    requires Good(v) && v.phase.InputPhase?
    ensures v.outPos == 0 && v.zbits == [] && !v.ended
  {}

  /** A full block has a run pending. */
  lemma FullHasRun(v: View)
    requires Good(v) && v.phase.InputPhase? && |v.block| >= 100000 * v.level - MARGIN
    ensures v.inCh < NO_CHAR && 1 <= v.inLen
  {}

  lemma OutFields(v: View)
    requires Good(v)
    ensures v.outPos <= |v.zbits|
  {}

  lemma ReadyFields(v: View)
    requires Ready(v)
    ensures Complete(v.block) && v.blockCRC == Running(UnRle(v.block)) && v.zbits == [] && v.outPos == 0
            && 1 <= v.level <= 9
    ensures v.blockNo == 1 ==> v.pending == []
    ensures v.phase.InputPhase? && !v.ended
  {}

  lemma AddedBits(blk: BlockState, c: BlockCode, first: bool)
    requires 1 <= blk.level <= 9 && (c.block != [] ==> GoodBlock(c, blk.level))
    ensures blk.Added(c, first)
            == (if first then BytesBits(HeaderBytes(blk.level)) else []) + if c.block != [] then BlockBits(c, blk.level)
            else []
  {
    hide BytesBits, BlockBits, GoodBlock;
  }

  /** The trailer alone fills more than a byte. */
  lemma TrailerBytes(zbits: seq<byte>, bits: Bits, combined: word)
    requires BytesBits(zbits) == PadToByte(bits + (BytesBits(END_MAGIC) + BytesBits(U32Bytes(combined as nat))))
    ensures |zbits| > 0
  {
    hide BytesBits, U32Bytes;
    assert |BytesBits(END_MAGIC)| == 48;
  }

  lemma RunFields(v: View)
    requires Good(v)
    ensures 1 <= v.level <= 9 && v.inCh <= NO_CHAR && (if v.inCh < NO_CHAR then 1 <= v.inLen <= 255 else v.inLen == 0)
  {}

  lemma FirstFresh(v: View, x: byte)
    requires Good(v) && v.phase.InputPhase? && v.inCh == NO_CHAR
    ensures Fresh(v.block, x)
  {
    assert RleFold([]).run == 0;
  }

  lemma CrcStart(v: View)
    ensures UnRle(v.block) + Repeat(0, 0) == UnRle(v.block)
            && forall x: byte :: UnRle(v.block) + Repeat(x, 0) == UnRle(v.block)
  {}

  /** The state after BZ2_bzCompressInit. */
  lemma StartGood(v: View)
    requires 1 <= v.level <= 9 && v.phase.InputPhase? && v.blockNo == 1 && v.inCh == NO_CHAR && v.inLen == 0
    requires v.blockCRC == 0xffff_ffff && v.combinedCRC == 0 && v.block == [] && v.zbits == [] && v.pending == []
             && v.outPos == 0
    requires v.consumed == [] && v.blocks == [] && v.drained == [] && v.output == [] && !v.ended
    ensures Good(v)
  {
    NoBlocks(v.level);
    assert UnRle([]) == [] && BytesBits([]) == [];
  }

  lemma PairReady(v: View)
    requires Good(v) && v.phase.InputPhase? && v.inCh < NO_CHAR
    ensures v.inCh < 256 && 1 <= v.inLen <= 255 && |v.block| + 5 <= 100000 * v.level
    ensures Fresh(v.block, v.inCh) && v.blockCRC == Running(UnRle(v.block))
  {}

  lemma RunningMore(s: seq<byte>, x: byte, i: nat)
    ensures Running(s + Repeat(x, i + 1)) == Update(Running(s + Repeat(x, i)), x)
  {
    assert s + Repeat(x, i + 1) == s + Repeat(x, i) + [x];
    RunningSnoc(s + Repeat(x, i), x);
  }
}
