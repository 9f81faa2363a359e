/**
 BZ2_bzDecompress: bytes taken as they come, output put out as far as there is room, and everything else kept between
 calls.
*/
module Decompressor {
  import opened Bits
  import opened BitIO
  import opened Crc
  import opened Huffman
  import opened MoveToFront
  import opened RunLength
  import opened InverseBwt
  import opened StreamFormat
  import opened Decoder
  import opened DecoderRegs
  import opened DecoderSteps
  import opened DecoderFeeding
  import opened StreamGrammar
  import opened AcceptedStreams
  import opened MtfArena
  import opened BlockRows
  import opened BlockStore
  import opened BlockOutput

  /** What a call returns; a randomised block is where this model stops. */
  datatype Code = OK | StreamEnd | SequenceError | DataError | DataErrorMagic | Unmodelled

  /** The save_ fields. */
  class SaveArea {
    var i: nat
    var j: nat
    var t: nat
    var alphaSize: nat
    var nGroups: nat
    var nSelectors: nat
    var eob: nat
    var groupNo: int
    var groupPos: nat
    var nextSym: nat
    var nblockMAX: nat
    var es: int
    var n: nat
    var curr: int
    var zn: nat
    var zvec: nat
    var gSel: nat
    var gMinlen: nat
    var gLimit: seq<int>
    var gBase: seq<int>
    var gPerm: seq<nat>

    /** What is restored from the save area. */
    function Saved(): Locals
      reads this
    {
      Locals(i, j, t, alphaSize, nGroups, nSelectors, eob, groupNo, groupPos, nextSym, nblockMAX, es, n, curr, zn, zvec,
             gSel, gMinlen, gLimit, gBase, gPerm)
    }

    constructor ()
    {
      i, j, t, alphaSize, nGroups, nSelectors, eob, groupNo, groupPos, nextSym, nblockMAX := 0, 0, 0, 0, 0, 0, 0, 0, 0,
      0, 0;
      es, n, curr, zn, zvec, gSel, gMinlen, gLimit, gBase, gPerm := 0, 0, 0, 0, 0, 0, 0, [], [], [];
    }

    /** Initialise the save area. */
    method Clear()
      modifies this
    {
      i, j, t, alphaSize, nGroups, nSelectors, eob, groupNo, groupPos, nextSym, nblockMAX := 0, 0, 0, 0, 0, 0, 0, 0, 0,
      0, 0;
      es, n, curr, zn, zvec, gSel, gMinlen, gLimit, gBase, gPerm := 0, 0, 0, 0, 0, 0, 0, [], [], [];
    }

    /** save_state_and_return. */
    method Save(x: Locals)
      modifies this
      ensures Saved() == x
    {
      SaveTables(x);
      SaveSymbols(x);
      SaveGroup(x);
    }

    method SaveTables(x: Locals)
      modifies this`i, this`j, this`t, this`alphaSize, this`nGroups, this`nSelectors, this`curr
      ensures i == x.i && j == x.j && t == x.t && alphaSize == x.alphaSize && nGroups == x.nGroups
              && nSelectors == x.nSelectors && curr == x.curr
    {
      i, j, t, alphaSize, nGroups, nSelectors, curr := x.i, x.j, x.t, x.alphaSize, x.nGroups, x.nSelectors, x.curr;
    }

    method SaveSymbols(x: Locals)
      modifies this`eob, this`nextSym, this`nblockMAX, this`es, this`n, this`zn, this`zvec
      ensures eob == x.EOB && nextSym == x.nextSym && nblockMAX == x.nblockMAX && es == x.es && n == x.N && zn == x.zn
              && zvec == x.zvec
    {
      eob, nextSym, nblockMAX, es, n, zn, zvec := x.EOB, x.nextSym, x.nblockMAX, x.es, x.N, x.zn, x.zvec;
    }

    method SaveGroup(x: Locals)
      modifies this`groupNo, this`groupPos, this`gSel, this`gMinlen, this`gLimit, this`gBase, this`gPerm
      ensures groupNo == x.groupNo && groupPos == x.groupPos && gSel == x.gSel && gMinlen == x.gMinlen
      ensures gLimit == x.gLimit && gBase == x.gBase && gPerm == x.gPerm
    {
      groupNo, groupPos, gSel, gMinlen, gLimit, gBase, gPerm := x.groupNo, x.groupPos, x.gSel, x.gMinlen, x.gLimit,
      x.gBase, x.gPerm;
    }
  }

  class DecompressStream {
    const s: DState
    const save: SaveArea
    const reader: BitReader
    const stage: OutputStage
    /** The caller's input that has not been taken yet. */
    var nextIn: seq<byte>
    /** All bytes taken, and the state of the automaton they have led to. */
    ghost var fed: seq<byte>
    ghost var d: D

    /** The memories are apart. */
    ghost predicate Separate() {
      && s.Apart() && stage.store == s.store
      && this !in s.store.repr && save !in s.store.repr && reader !in s.store.repr && stage !in s.store.repr
    }

    ghost function Memory(): set<object> {
      {this, s, save, reader, stage, s.arena, s.arena.mtfa, s.arena.mtfbase} + s.store.repr
    }

    /** Reading, with these locals. */
    ghost predicate Inside(x: Locals)
      reads Memory()
    {
      Separate() && reader.Valid() && s.Steady(x, d) && Reached(fed, stage.output, d, reader.pending) && Slack()
    }

    /** No byte is taken before it is needed. */
    ghost predicate Slack()
      reads this, reader
    {
      reader.bsLive < 8 || reader.bsLive < Need(d)
    }

    /** Putting out a block. */
    ghost predicate PuttingOut()
      reads Memory()
    {
      && Separate() && reader.Valid() && s.AtOutput(save.Saved(), d) && stage.Flowing()
      && Reached(fed, stage.before, d, reader.pending)
      && reader.bsLive < 8
    }

    /** The stream has ended, and well. */
    ghost predicate Ended()
      reads Memory()
    {
      Separate() && s.state == X_IDLE && d == Idle && Decoded(fed) == Outcome(stage.output, Idle, reader.pending)
      && |reader.pending| < 8
    }

    /** What holds between calls, as long as there has been no error. */
    ghost predicate Valid()
      reads Memory()
    {
      Inside(save.Saved()) || PuttingOut() || Ended()
    }

    constructor (small: bool)
      ensures Valid() && fed == [] && stage.output == [] && !d.Idle?
      ensures fresh(s) && fresh(save) && fresh(reader) && fresh(stage) && fresh(s.arena) && fresh(s.arena.mtfa)
              && fresh(s.arena.mtfbase)
      ensures fresh(s.store.repr)
    {
      var arena := new Arena();
      var store := new Store(small);
      var state := new DState(small, arena, store);
      var area := new SaveArea();
      var bits := new BitReader();
      var out := new OutputStage(store);
      s, save, reader, stage, nextIn, fed, d := state, area, bits, out, [], [], Start;
      new;
      Begun();
    }

    lemma Begun()
      requires Separate() && reader.Valid() && reader.pending == [] && fed == [] && stage.output == [] && d == Start
      requires s.state == X_MAGIC(1) && s.calculatedCombinedCRC == 0 && Sized(s.T())
      ensures Valid() && !d.Idle?
    {
      hide RunBits, BytesBits, DState.Apart, DState.Working, Sized, Reached, OutputStage.Flowing;
      ReachedStart();
    }

    // ---------- GET_BITS ----------

    /** GET_BITS: whether there were enough bits, and the number they make. */
    method GetBits(n: nat) returns (enough: bool, v: nat)
      requires Separate() && reader.Valid() && Slack() && Reading(d) && n == Need(d) <= LONGEST
               && Reached(fed, stage.output, d, reader.pending)
      modifies this`nextIn, this`fed, this`d, reader
      ensures Separate() && reader.Valid() && Reached(fed, stage.output, d, reader.pending)
              && Took(old(fed), old(nextIn))
      ensures enough ==> reader.bsLive < 8 && v < Pow2(n) && d == Advance(old(d), v)
                         && 8 * |nextIn| + reader.bsLive < 8 * |old(nextIn)| + old(reader.bsLive)
      ensures !enough ==> d == old(d) && nextIn == [] && |reader.pending| < n
                          && 8 * |nextIn| + reader.bsLive == 8 * |old(nextIn)| + old(reader.bsLive)
    {
      hide RunBits, Reached, Advance, Pow2, Need, Separate;
      while reader.bsLive < n
        invariant reader.Valid() && Reached(fed, stage.output, d, reader.pending) && Took(old(fed), old(nextIn))
        invariant d == old(d) && reader.bsLive < n + 8
                  && 8 * |nextIn| + reader.bsLive == 8 * |old(nextIn)| + old(reader.bsLive)
        decreases |nextIn|
      {
        if nextIn == [] { return false, 0; }
        ReachedByte(fed, stage.output, d, reader.pending, nextIn[0]);
        reader.Load(nextIn[0]);
        TookOne(old(fed), old(nextIn), fed, nextIn);
        fed := fed + [nextIn[0]];
        nextIn := nextIn[1..];
      }
      ReachedStep(fed, stage.output, d, reader.pending, n);
      NumberBelow(reader.pending[..n]);
      v := reader.Take(n);
      d := Advance(d, v);
      enough := true;
    }

    /** Bytes have gone from the input to those taken. */
    ghost predicate Took(fed': seq<byte>, nextIn': seq<byte>)
      reads this
    {
      fed' <= fed && fed + nextIn == fed' + nextIn'
    }

    // ---------- BZ2_decompress ----------

    /** What each result of BZ2_decompress stands for. */
    ghost predicate Returned(ret: Code)
      reads Memory()
    {
      match ret
      case OK => if s.state == X_OUTPUT then PuttingOut()
                 else Inside(save.Saved()) && nextIn == [] && |reader.pending| < Need(d)
      case StreamEnd =>
        && Separate() && s.state == X_IDLE && Reached(fed, stage.output, d, reader.pending)
        && |reader.pending| < 8 && d == if s.storedCombinedCRC == s.calculatedCombinedCRC as nat then Idle
           else Failed(false)
      case SequenceError => false
      case DataError => Reached(fed, stage.output, d, reader.pending) && d == Failed(false) && s.state != X_OUTPUT
      case DataErrorMagic => Reached(fed, stage.output, d, reader.pending) && d == Failed(true) && s.state != X_OUTPUT
      case Unmodelled => Reached(fed, stage.output, d, reader.pending) && d == Randomised && s.state != X_OUTPUT
    }

    /** One step has been made. */
    lemma Stepped(x: Locals, e: Ending)
      requires Separate() && reader.Valid() && reader.bsLive < 8 && s.Leads(x, e, d)
               && Reached(fed, stage.output, d, reader.pending)
      ensures e == Next ==> Inside(x)
      ensures e == End ==> Returned(StreamEnd)
      ensures e == Error ==> Returned(DataError)
      ensures e == MagicError ==> Returned(DataErrorMagic)
      ensures e == RandomisedBlock ==> Returned(Unmodelled)
    {
      hide Rel, Reached, DState.Steady, DState.AtOutput, Separate;
    }

    /** There is no more input: what lives on is in the save area. */
    lemma Starved(x: Locals)
      requires Inside(x) && save.Saved() == x && nextIn == [] && |reader.pending| < Need(d)
      ensures Returned(OK) && s.state != X_OUTPUT
    {
      hide Reached, Separate, Rel, DState.Apart, DState.Working, Need;
      s.NotOutput(x, d);
    }

    /** A block is ready: its output starts. */
    method BeginOutput(x: Locals)
      requires Separate() && reader.Valid() && reader.bsLive < 8 && s.Leads(x, Ready, d)
               && Reached(fed, stage.output, d, reader.pending)
      modifies save, stage, s.store`tPos, s.store`fetched
      ensures Returned(OK) && s.state == X_OUTPUT && stage.output == old(stage.output)
              && stage.availOut == old(stage.availOut)
    {
      hide Reached, Rel, Store.Ready, Store.Shaped, Arena.Shaped, Between, Running;
      s.OutputMemory(x, d);
      var corrupt := stage.Start(100000 * s.blockSize100k);
      save.Save(x);
    }

    /** Clearing the save area at the start of a stream loses nothing. */
    method InitSaveArea()
      requires Inside(save.Saved()) && s.state == X_MAGIC(1)
      modifies save
      ensures Inside(save.Saved())
    {
      hide Reached, DState.Steady;
      ghost var was := save.Saved();
      save.Clear();
      s.AnyLocals(was, save.Saved(), d);
    }

    /** From one label to the next, or to a return. */
    method Round(x: Locals) returns (x': Locals, go: bool, ret: Code)
      requires Inside(x)
      modifies this`nextIn, this`fed, this`d, s, save, reader, stage, s.arena, s.arena.mtfa, s.arena.mtfbase,
               s.store.repr
      ensures Took(old(fed), old(nextIn)) && stage.output == old(stage.output) && stage.availOut == old(stage.availOut)
      ensures if go then Inside(x') else Returned(ret)
      ensures go || s.state == X_OUTPUT ==> 8 * |nextIn| + reader.bsLive < 8 * |old(nextIn)| + old(reader.bsLive)
    {
      hide Reached, Rel, DState.Steady, DState.AtOutput, DState.Leads, DState.Apart, Advance, Need, Returned,
           Store.Shaped, Arena.Shaped, Took;
      s.WantedIs(x, d);
      ghost var was := d;
      x', go := x, false;
      var enough, v := GetBits(s.Wanted(x));
      if !enough {
        save.Save(x);
        Starved(x);
        ret := OK;
        return;
      }
      var e;
      x', e := s.Step(x, v, was);
      if e == Ready {
        s.StoreMemory();
        BeginOutput(x');
        ret := OK;
        return;
      }
      if e != Next { save.Save(x'); }
      Stepped(x', e);
      match e {
        case End => ret := StreamEnd;
        case Error => ret := DataError;
        case MagicError => ret := DataErrorMagic;
        case RandomisedBlock => ret := Unmodelled;
        case _ => go, ret := true, OK;
      }
    }

    /** BZ2_decompress. */
    method Decompress() returns (ret: Code)
      requires Inside(save.Saved())
      modifies this`nextIn, this`fed, this`d, s, save, reader, stage, s.arena, s.arena.mtfa, s.arena.mtfbase,
               s.store.repr
      ensures Took(old(fed), old(nextIn)) && stage.output == old(stage.output) && stage.availOut == old(stage.availOut)
      ensures Returned(ret)
      ensures s.state == X_OUTPUT ==> 8 * |nextIn| + reader.bsLive < 8 * |old(nextIn)| + old(reader.bsLive)
    {
      hide Returned, Inside;
      if s.state == X_MAGIC(1) { InitSaveArea(); }
      var x := save.Saved();
      var go := true;
      ret := OK;
      while go
        invariant (if go then Inside(x) else Returned(ret)) && Took(old(fed), old(nextIn))
        invariant stage.output == old(stage.output) && stage.availOut == old(stage.availOut)
        invariant 8 * |nextIn| + reader.bsLive <= 8 * |old(nextIn)| + old(reader.bsLive) || (!go && s.state != X_OUTPUT)
        invariant !go && s.state == X_OUTPUT ==> 8 * |nextIn| + reader.bsLive < 8 * |old(nextIn)| + old(reader.bsLive)
        decreases go, 8 * |nextIn| + reader.bsLive
      {
        x, go, ret := Round(x);
      }
    }

    // ---------- BZ2_bzDecompress ----------

    /** The output stage, by itself. */
    lemma StageIs()
      requires PuttingOut()
      ensures stage.before <= stage.output && Reached(fed, stage.before, d, reader.pending)
      ensures Between(s.store.col, s.store.orig, stage.nblockUsed, stage.k0, stage.Out(), stage.stateOutLen,
                      stage.stateOutCh)
    {
      hide Reached, Between, Running, DState.Apart, DState.AtOutput, Store.Shaped, Store.Ready;
    }

    /** What each result of BZ2_bzDecompress stands for. */
    ghost predicate Answer(ret: Code)
      reads Memory()
    {
      && stage.output <= Decoded(fed).out
      && match ret
         case OK => Valid() && !d.Idle?
         case StreamEnd => Valid() && Decoded(fed) == Outcome(stage.output, Idle, reader.pending)
                           && |reader.pending| < 8
         case SequenceError => Valid() && d.Idle?
         case DataError => Decoded(fed).d == Failed(false)
         case DataErrorMagic => Decoded(fed).d == Failed(true)
         case Unmodelled => Decoded(fed).d == Randomised
    }

    /** What has been put out of the block so far is the beginning of what it puts out. */
    lemma SoFar()
      requires PuttingOut()
      ensures d.Output? && stage.before <= stage.output <= stage.before + Emitted(d) <= Decoded(fed).out
    {
      hide PuttingOut, Reached, Between, RunBits, Target, Decoded;
      StoreIs();
      StageIs();
      WithinTarget(d.col, d.orig, stage.nblockUsed, stage.k0, stage.Out(), stage.stateOutLen, stage.stateOutCh);
      ReachedBlock(fed, stage.before, d, reader.pending);
      assert stage.output == stage.before + stage.Out();
    }

    lemma StoreIs()
      requires PuttingOut()
      ensures d.Output? && d.col == s.store.col
              && d.orig == s.store.orig < |d.col| == s.store.nblock <= 100000 * s.blockSize100k
      ensures s.storedBlockCRC == d.crc && s.calculatedCombinedCRC == d.h.combined
      ensures Sized(s.T()) && 1 <= s.blockSize100k == d.h.level <= 9
    {
      hide Reached, OutputStage.Flowing, DState.Apart, Store.Shaped, Sized, Rel;
      OutputRel(s.V(save.Saved()), d);
    }

    /** The block has been put out: its CRC is that of the bytes. */
    lemma BlockOut()
      requires PuttingOut() && stage.Finished()
      ensures d.Output? && stage.output == stage.before + Emitted(d) && Complete(Inverse(d.col, d.orig))
      ensures Finalise(stage.blockCRC) == BlockCrc(UnRle(Inverse(d.col, d.orig)))
    {
      hide Reached, Between, RunBits, Running, Target, DState.Apart, Store.Shaped, Rel, Complete, UnRle, Inverse;
      StoreIs();
      TargetMet(d.col, d.orig, stage.k0, stage.Out(), stage.stateOutCh);
      assert stage.output == stage.before + stage.Out();
    }

    /** A block that does not survive its output. */
    lemma BlockBad()
      requires PuttingOut() && AfterOutput(d) == Failed(false)
      ensures Decoded(fed).d == Failed(false)
    {
      hide Emitted, AfterOutput, DState.Apart, Store.Shaped, Rel, OutputStage.Flowing;
      ReachedBlock(fed, stage.before, d, reader.pending);
      ReachedAll(fed, stage.before + Emitted(d), AfterOutput(d), reader.pending);
    }

    /** On to the next block's header. */
    lemma NextHeader(x: Locals, was: D)
      requires s.Apart() && Sized(s.T()) && was.Output? && d == BlkHdr(was.h.(combined := s.calculatedCombinedCRC), 0)
      requires s.state == X_BLKHDR(1) && 1 <= s.blockSize100k == was.h.level <= 9
      ensures s.Steady(x, d)
    {
      hide Sized, DState.Apart, DState.Working;
    }

    lemma CorruptFails()
      requires PuttingOut() && !Complete(Read(s.store.col, s.store.orig, s.store.nblock))
      ensures d.Output? && AfterOutput(d) == Failed(false)
    {
      hide Reached, Between, RunBits, Running, DState.Apart, Store.Shaped, Sized, Complete, Read, Inverse,
           OutputStage.Flowing;
      StoreIs();
      TargetIs(d.col, d.orig);
    }

    /** unRLE_obuf_to_output_FAST or _SMALL. */
    method UnRleToOutput() returns (corrupt: bool)
      requires PuttingOut()
      modifies stage`nblockUsed, stage`stateOutLen, stage`stateOutCh, stage`k0, stage`output, stage`blockCRC,
               stage`availOut
      modifies s.store`tPos, s.store`fetched
      ensures old(stage.output) <= stage.output
              && stage.availOut + |stage.output| == old(stage.availOut + |stage.output|)
      ensures !corrupt ==> PuttingOut() && (stage.availOut == 0 || stage.Finished())
      ensures corrupt ==> Decoded(fed).d == Failed(false) && stage.output <= Decoded(fed).out
    {
      hide Reached, Rel, Between, Running, RunBits, Store.Shaped, Store.Ready, DState.Apart, AfterOutput, Target,
           Complete, Inverse, Read;
      StoreIs();
      SoFar();
      if !Complete(Read(s.store.col, s.store.orig, s.store.nblock)) {
        CorruptFails();
        BlockBad();
      }
      if s.small { corrupt := stage.UnRleSmall(100000 * s.blockSize100k); }
         else { corrupt := stage.UnRleFast(100000 * s.blockSize100k); }
      if !corrupt || s.small { SoFar(); }
    }

    /** The block's CRC is folded in, and the next header is expected. */
    method FoldCrc()
      requires Separate() && reader.Valid() && reader.bsLive < 8 && Sized(s.T()) && d.Output?
               && 1 <= s.blockSize100k == d.h.level <= 9
      requires Reached(fed, stage.output, AfterOutput(d), reader.pending)
      requires AfterOutput(d) == BlkHdr(d.h.(combined := Combine(s.calculatedCombinedCRC, stage.blockCRC)), 0)
      modifies this`d, s`calculatedCombinedCRC, s`state
      ensures Inside(save.Saved())
    {
      hide Reached, DState.Steady, DState.Apart, AfterOutput, Combine, Sized;
      s.calculatedCombinedCRC := Combine(s.calculatedCombinedCRC, stage.blockCRC);
      s.state := X_BLKHDR(1);
      ghost var was := d;
      d := AfterOutput(d);
      NextHeader(save.Saved(), was);
    }

    /** The block is out: its CRC is checked. */
    method CheckCrc() returns (ok: bool)
      requires PuttingOut() && stage.Finished()
      modifies this`d, s`calculatedCombinedCRC, s`state, stage`blockCRC
      ensures ok ==> Inside(save.Saved())
      ensures !ok ==> Decoded(fed).d == Failed(false) && stage.output <= Decoded(fed).out
    {
      hide PuttingOut, Inside, Reached, AfterOutput, Emitted, Decoded, Complete, Inverse, BlockCrc, Finalise, Combine,
           UnRle, Sized, Separate;
      OneStore();
      StoreIs();
      StageIs();
      SoFar();
      BlockOut();
      ReachedBlock(fed, stage.before, d, reader.pending);
      AfterBlock(d);
      stage.blockCRC := Finalise(stage.blockCRC);
      if stage.blockCRC as nat != s.storedBlockCRC {
        ReachedAll(fed, stage.before + Emitted(d), AfterOutput(d), reader.pending);
        return false;
      }
      FoldCrc();
      ok := true;
    }

    /** Which label goes with which of the three. */
    lemma States()
      ensures Inside(save.Saved()) ==> Reading(d) && s.state != X_OUTPUT && s.state != X_IDLE
      ensures PuttingOut() ==> s.state == X_OUTPUT && !d.Idle?
      ensures Ended() ==> s.state == X_IDLE && d.Idle?
      ensures Valid() <==> Inside(save.Saved()) || PuttingOut() || Ended()
    {
      hide Reached, Rel, OutputStage.Flowing, Store.Ready, DState.Apart, DState.Working, Decoded;
      if Inside(save.Saved()) { s.NotOutput(save.Saved(), d); }
      if PuttingOut() { s.OutputMemory(save.Saved(), d); }
    }

    /** The end of the stream: whether its CRCs agree. */
    lemma AtEnd()
      requires Returned(StreamEnd)
      ensures s.calculatedCombinedCRC as nat == s.storedCombinedCRC ==>
                Ended() && Decoded(fed) == Outcome(stage.output, Idle, reader.pending) && |reader.pending| < 8
      ensures s.calculatedCombinedCRC as nat != s.storedCombinedCRC ==>
                Decoded(fed).d == Failed(false) && stage.output <= Decoded(fed).out
    {
      hide Reached, Decoded, RunBits, DState.Apart;
      ReachedAll(fed, stage.output, d, reader.pending);
    }

    /** A return that is not followed by more output. */
    lemma Leaving(ret: Code)
      requires Returned(ret) && ret != StreamEnd && s.state != X_OUTPUT
      ensures ret == OK ==> Inside(save.Saved()) && Reading(d) && nextIn == []
                            && Decoded(fed) == Outcome(stage.output, d, reader.pending)
      ensures ret == DataError ==> Decoded(fed).d == Failed(false)
      ensures ret == DataErrorMagic ==> Decoded(fed).d == Failed(true)
      ensures ret == Unmodelled ==> Decoded(fed).d == Randomised
      ensures stage.output <= Decoded(fed).out && ret != SequenceError
    {
      hide Reached, Decoded, RunBits, DState.Apart, Rel, Need;
      if ret == OK { States(); }
      ReachedAll(fed, stage.output, d, reader.pending);
    }

    lemma GoingOn(ret: Code)
      requires Returned(ret) && ret != StreamEnd && s.state == X_OUTPUT
      ensures ret == OK && PuttingOut()
    {
      hide Reached, PuttingOut, Inside;
    }

    lemma OneStore()
      requires PuttingOut()
      ensures Separate() && reader.Valid() && reader.bsLive < 8 && stage.store == s.store && s.store in s.store.repr
    {
      s.StoreMemory();
      hide DState.Apart;
    }

    /** The state BZ_X_OUTPUT: as much of the block as there is room for; then, if that was all of it, its CRC. */
    method OutputRound() returns (go: bool, ret: Code)
      requires PuttingOut()
      modifies this`d, s`calculatedCombinedCRC, s`state, stage, s.store`tPos, s.store`fetched
      ensures old(stage.output) <= stage.output
              && stage.availOut + |stage.output| == old(stage.availOut + |stage.output|)
      ensures go ==> Inside(save.Saved())
      ensures !go ==> Answer(ret) && if ret == OK then stage.availOut == 0 else ret == DataError
    {
      hide PuttingOut, Inside, Ended, Decoded;
      OneStore();
      var corrupt := UnRleToOutput();
      if corrupt { return false, DataError; }
      if stage.nblockUsed == s.store.nblock + 1 && stage.stateOutLen == 0 {
        var ok := CheckCrc();
        return ok, if ok then OK else DataError;
      }
      SoFar();
      States();
      return false, OK;
    }

    /** The states that read: on to the next block to be put out, or to a return. */
    method ReadRound() returns (go: bool, ret: Code)
      requires Inside(save.Saved())
      modifies this`nextIn, this`fed, this`d, s, save, reader, stage, s.arena, s.arena.mtfa, s.arena.mtfbase,
               s.store.repr
      ensures Took(old(fed), old(nextIn)) && stage.output == old(stage.output) && stage.availOut == old(stage.availOut)
      ensures go ==> PuttingOut() && 8 * |nextIn| + reader.bsLive < 8 * |old(nextIn)| + old(reader.bsLive)
      ensures !go ==> Answer(ret) && ret != SequenceError
      ensures !go && ret == OK ==>
                nextIn == [] && Decoded(fed) == Outcome(stage.output, d, reader.pending) && Reading(d)
    {
      hide PuttingOut, Inside, Ended, Decoded, Returned;
      ret := Decompress();
      go := false;
      States();
      if ret == StreamEnd {
        AtEnd();
        if s.calculatedCombinedCRC as nat != s.storedCombinedCRC { ret := DataError; }
        return;
      }
      if s.state != X_OUTPUT {
        Leaving(ret);
        return;
      }
      GoingOn(ret);
      go := true;
    }

    /** The caller's next_in and avail_out. */
    method Supply(input: seq<byte>, room: nat)
      requires Valid()
      modifies this`nextIn, stage`availOut
      ensures nextIn == input && stage.availOut == room
      ensures (old(Inside(save.Saved())) ==> Inside(save.Saved())) && (old(PuttingOut()) ==> PuttingOut())
              && (old(Ended()) ==> Ended())
    {
      hide Reached, Rel, Between, Running, Store.Shaped, Store.Ready, DState.Apart, DState.Steady, DState.AtOutput,
           Decoded;
      nextIn := input;
      stage.availOut := room;
    }

    /** BZ2_bzDecompress, with this input and so much room for output; where the input is left off is in nextIn. */
    method BzDecompress(input: seq<byte>, room: nat) returns (ret: Code)
      requires Valid()
      modifies this`nextIn, this`fed, this`d, s, save, reader, stage, s.arena, s.arena.mtfa, s.arena.mtfbase,
               s.store.repr
      ensures fed + nextIn == old(fed) + input && old(fed) <= fed
      ensures old(stage.output) <= stage.output && |stage.output| <= |old(stage.output)| + room
      ensures ret == SequenceError <==> old(d.Idle?)
      ensures ret == SequenceError ==> fed == old(fed) && stage.output == old(stage.output)
      ensures Answer(ret)
      ensures ret == OK && |stage.output| < |old(stage.output)| + room ==>
                nextIn == [] && Decoded(fed) == Outcome(stage.output, d, reader.pending) && Reading(d)
      ensures ret == DataErrorMagic <==> !BeginsWell(fed)
      ensures ret == StreamEnd ==> exists level, parts ::
                IsStream(fed, level, parts, reader.pending) && stage.output == PartsData(parts)
      ensures ret == DataError || ret == DataErrorMagic || ret == Unmodelled ==>
                forall more, level, parts, rest :: !IsStream(fed + more, level, parts, rest)
    {
      ret := Serve(input, room);
      Answered(ret);
    }

    /** What an answer says of the bytes taken. */
    lemma Answered(ret: Code)
      requires Answer(ret)
      ensures ret == DataErrorMagic <==> !BeginsWell(fed)
      ensures ret == StreamEnd ==> exists level, parts ::
                IsStream(fed, level, parts, reader.pending) && stage.output == PartsData(parts)
      ensures ret == DataError || ret == DataErrorMagic || ret == Unmodelled ==>
                forall more, level, parts, rest :: !IsStream(fed + more, level, parts, rest)
    {
      hide RunBits, Valid, IsStream, PartsData, BeginsWell;
      RefusesMagic(fed);
      if Valid() { NotRefused(); }
      if ret == StreamEnd { var level, parts := AcceptedIsStream(fed); }
      if ret == DataError || ret == DataErrorMagic || ret == Unmodelled {
        forall more, level, parts, rest
          ensures !IsStream(fed + more, level, parts, rest)
        {
          RefusedForGood(fed, more, level, parts, rest);
        }
      }
    }

    /** As long as there has been no error the magic has not been refused. */
    lemma NotRefused()
      requires Valid()
      ensures Decoded(fed).d != Failed(true)
    {
      hide RunBits, Rel, DState.Apart, DState.Working, OutputStage.Flowing, Store.Ready, DState.Steady, DState.AtOutput;
      States();
      if PuttingOut() { StoreIs(); }
      if !Ended() {
        if d.Magic? { RunStops(d, reader.pending); } else { PastForGood(d, reader.pending); }
      }
    }

    /** The call itself: blocks are read and put out in turn. */
    method Serve(input: seq<byte>, room: nat) returns (ret: Code)
      requires Valid()
      modifies this`nextIn, this`fed, this`d, s, save, reader, stage, s.arena, s.arena.mtfa, s.arena.mtfbase,
               s.store.repr
      ensures fed + nextIn == old(fed) + input && old(fed) <= fed
      ensures old(stage.output) <= stage.output && |stage.output| <= |old(stage.output)| + room
      ensures ret == SequenceError <==> old(d.Idle?)
      ensures ret == SequenceError ==> fed == old(fed) && stage.output == old(stage.output)
      ensures Answer(ret)
      ensures ret == OK && |stage.output| < |old(stage.output)| + room ==>
                nextIn == [] && Decoded(fed) == Outcome(stage.output, d, reader.pending) && Reading(d)
    {
      hide Valid, Inside, PuttingOut, Ended, Decoded, Answer;
      States();
      Supply(input, room);
      States();
      if s.state == X_IDLE {
        NothingLeft();
        return SequenceError;
      }
      while true
        invariant (Inside(save.Saved()) || PuttingOut()) && Took(old(fed), input) && fed + nextIn == old(fed) + input
        invariant old(stage.output) <= stage.output && stage.availOut + |stage.output| == room + |old(stage.output)|
        decreases 8 * |nextIn| + reader.bsLive
      {
        States();
        var go;
        if s.state == X_OUTPUT {
          OneStore();
          go, ret := OutputRound();
          if !go { return; }
        }
        go, ret := ReadRound();
        if !go { return; }
      }
    }

    lemma NothingLeft()
      requires Ended()
      ensures Answer(SequenceError)
    {
      hide Decoded, Separate;
    }
  }

  lemma OutputRel(v: View, d: D)
    ensures Rel(v, d) && d.Output? ==>
              && Sized(v.t) && v.col == d.col && v.r.origPtr == d.orig < |d.col| <= 100000 * v.r.level
              && 1 <= v.r.level == d.h.level <= 9
              && v.r.storedBlockCRC == d.crc && v.r.combined == d.h.combined
  {
    hide Sized;
  }

  lemma AfterBlock(d: D)
    requires d.Output? && Complete(Inverse(d.col, d.orig))
    ensures var crc := BlockCrc(UnRle(Inverse(d.col, d.orig)));
            AfterOutput(d) == if crc as nat != d.crc then Failed(false)
            else BlkHdr(d.h.(combined := Combine(d.h.combined, crc)), 0)
  {
    hide Complete, Inverse, UnRle, BlockCrc, Combine;
  }

  lemma NumberBelow(b: Bits)
    ensures FromBits(b) < Pow2(|b|)
  {}

  lemma TookOne(fed0: seq<byte>, in0: seq<byte>, fed: seq<byte>, rest: seq<byte>)
    requires rest != [] && fed0 <= fed && fed + rest == fed0 + in0
    ensures fed0 <= fed + [rest[0]] && fed + [rest[0]] + rest[1..] == fed0 + in0
  {
    assert fed + [rest[0]] + rest[1..] == fed + rest;
  }
}
