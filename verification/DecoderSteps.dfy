/** BZ2_decompress from one label to the next: what each piece of code does to the registers. */
module DecoderSteps {
  import opened Bits
  import opened Crc
  import opened Occurrences
  import opened Huffman
  import opened HuffmanTables
  import opened MoveToFront
  import opened StreamFormat
  import opened Decoder
  import opened DecoderRegs
  import opened MtfArena
  import opened BlockStore

  /** How a piece of code ends: at the next label, or in a return. */
  datatype Ending = Next | Ready | End | Error | MagicError | RandomisedBlock

  /** The state reached, given the ending: the automaton's next state. */
  ghost predicate Ends(v: View, e: Ending, d: D) {
    match e
    case Next => Reading(d) && Rel(v, d)
    case Ready => d.Output? && Rel(v, d)
    case End => v.r.state == X_IDLE && d == if v.r.storedCombinedCRC == v.r.combined as nat then Idle else Failed(false)
    case Error => d == Failed(false) && v.r.state != X_OUTPUT
    case MagicError => d == Failed(true) && v.r.state != X_OUTPUT
    case RandomisedBlock => d == Randomised && v.r.state != X_OUTPUT
  }

  class DState {
    const small: bool
    const arena: Arena
    const store: Store
    var state: Label
    var blockSize100k: nat
    var calculatedCombinedCRC: word
    var storedBlockCRC: nat
    var storedCombinedCRC: nat
    var origPtr: nat
    var inUse16: seq<bool>
    var inUse: seq<bool>
    var nInUse: nat
    var seqToUnseq: seq<byte>
    var selectorMtf: seq<byte>
    var selector: seq<byte>
    var len: seq<seq<nat>>
    var limit: seq<seq<int>>
    var base: seq<seq<int>>
    var perm: seq<seq<nat>>
    var minLens: seq<nat>

    ghost function R(): Regs
      reads this
    {
      Regs(state, blockSize100k, calculatedCombinedCRC, storedBlockCRC, storedCombinedCRC, origPtr)
    }

    ghost function T(): Tables
      reads this
    {
      Tables(inUse16, inUse, nInUse, seqToUnseq, selectorMtf, selector, len, limit, base, perm, minLens)
    }

    ghost function V(x: Locals): View
      reads this, arena, store
    {
      View(R(), T(), x, arena.list, store.col)
    }

    constructor (small: bool, arena: Arena, store: Store)
      requires store.small == small && arena.Shaped() && store.Shaped() && arena !in store.repr
      requires arena.mtfa !in store.repr && arena.mtfbase !in store.repr
      ensures this.small == small && this.arena == arena && this.store == store
      ensures Apart() && state == X_MAGIC(1) && calculatedCombinedCRC == 0 && Sized(T())
    {
      var selectors, row := new byte[MAX_SELECTORS], new nat[MAX_ALPHA_SIZE];
      this.small, this.arena, this.store := small, arena, store;
      state, blockSize100k, calculatedCombinedCRC, storedBlockCRC, storedCombinedCRC, origPtr := X_MAGIC(1), 0, 0, 0, 0,
      0;
      inUse16, inUse, nInUse, seqToUnseq := Falses(16), Falses(256), 0, Identity(256);
      selectorMtf, selector := selectors[..], selectors[..];
      len := [row[..], row[..], row[..], row[..], row[..], row[..]];
      limit, base, perm, minLens := [[], [], [], [], [], []], [[], [], [], [], [], []], [[], [], [], [], [], []],
      [0, 0, 0, 0, 0, 0];
    }

    // ---------- headers ----------

    /** MAGIC_1 to MAGIC_4. */
    method StepMagic(x: Locals, v: nat, ghost d: D) returns (e: Ending)
      requires Rel(V(x), d) && d.Magic? && v < 256
      modifies this`state, this`blockSize100k
      ensures Ends(V(x), e, Advance(d, v))
    {
      hide Rel, Ends, Pow2, Sized, STREAM_MAGIC;
      StreamMagicIs();
      HeadFacts(V(x), d);
      e := Next;
      if state == X_MAGIC(1) {
        if v != 0x42 { e := MagicError; } else { state := X_MAGIC(2); }
      } else if state == X_MAGIC(2) {
        if v != 0x5a { e := MagicError; } else { state := X_MAGIC(3); }
      } else if state == X_MAGIC(3) {
        if v != 0x68 { e := MagicError; } else { state := X_MAGIC(4); }
      } else {
        blockSize100k := v;
        if blockSize100k < 0x31 || blockSize100k > 0x39 {
          e := MagicError;
        } else {
          blockSize100k := blockSize100k - 0x30;
          state := X_BLKHDR(1);
        }
      }
      HeadEnd(V(x), e, Advance(d, v));
    }

    /** BLKHDR_1 to BLKHDR_6. */
    method StepBlkHdr(x: Locals, v: nat, ghost d: D) returns (e: Ending)
      requires Rel(V(x), d) && d.BlkHdr? && v < 256
      modifies this`state, this`storedBlockCRC
      ensures Ends(V(x), e, Advance(d, v))
    {
      hide Rel, Ends, Advance, Pow2, Sized, BLOCK_MAGIC;
      ghost var w := V(x);
      BlkHdrFacts(w, d);
      BlockMagicIs();
      e := Next;
      if state == X_BLKHDR(1) {
        if v == 0x17 { state := X_ENDHDR(2); } else if v != 0x31 { e := Error; } else { state := X_BLKHDR(2); }
      } else if state == X_BLKHDR(2) {
        if v != 0x41 { e := Error; } else { state := X_BLKHDR(3); }
      } else if state == X_BLKHDR(3) {
        if v != 0x59 { e := Error; } else { state := X_BLKHDR(4); }
      } else if state == X_BLKHDR(4) {
        if v != 0x26 { e := Error; } else { state := X_BLKHDR(5); }
      } else if state == X_BLKHDR(5) {
        if v != 0x53 { e := Error; } else { state := X_BLKHDR(6); }
      } else if v != 0x59 {
        e := Error;
      } else {
        storedBlockCRC := 0;
        state := X_BCRC(1);
      }
      assert V(x) == w.(r := w.r.(state := state, storedBlockCRC := storedBlockCRC));
      BlkHdrEnds(w, d, v, V(x), e);
    }

    /** ENDHDR_2 to ENDHDR_6. */
    method StepEndHdr(x: Locals, v: nat, ghost d: D) returns (e: Ending)
      requires Rel(V(x), d) && d.EndHdr? && v < 256
      modifies this`state, this`storedCombinedCRC
      ensures Ends(V(x), e, Advance(d, v))
    {
      hide Rel, Ends, Advance, Pow2, Sized, END_MAGIC;
      ghost var w := V(x);
      EndHdrFacts(w, d);
      EndMagicIs();
      e := Next;
      if state == X_ENDHDR(2) {
        if v != 0x72 { e := Error; } else { state := X_ENDHDR(3); }
      } else if state == X_ENDHDR(3) {
        if v != 0x45 { e := Error; } else { state := X_ENDHDR(4); }
      } else if state == X_ENDHDR(4) {
        if v != 0x38 { e := Error; } else { state := X_ENDHDR(5); }
      } else if state == X_ENDHDR(5) {
        if v != 0x50 { e := Error; } else { state := X_ENDHDR(6); }
      } else if v != 0x90 {
        e := Error;
      } else {
        storedCombinedCRC := 0;
        state := X_CCRC(1);
      }
      assert V(x) == w.(r := w.r.(state := state, storedCombinedCRC := storedCombinedCRC));
      EndHdrEnds(w, d, v, V(x), e);
    }

    /** BCRC_1 to BCRC_4. */
    method StepBcrc(x: Locals, v: nat, ghost d: D) returns (e: Ending)
      requires Rel(V(x), d) && d.Bcrc? && v < 256
      modifies this`state, this`storedBlockCRC
      ensures Ends(V(x), e, Advance(d, v))
    {
      hide Rel, Ends, Pow2, Sized;
      HeadFacts(V(x), d);
      ShiftedIn(storedBlockCRC, v, d.i);
      storedBlockCRC := Or(storedBlockCRC * 256 % 0x1_0000_0000, v);
      if state.k < 4 { state := X_BCRC(state.k + 1); } else { state := X_RANDBIT; }
      e := Next;
      HeadEnd(V(x), e, Advance(d, v));
    }

    /** CCRC_1 to CCRC_4. */
    method StepCcrc(x: Locals, v: nat, ghost d: D) returns (e: Ending)
      requires Rel(V(x), d) && d.Ccrc? && v < 256
      modifies this`state, this`storedCombinedCRC
      ensures Ends(V(x), e, Advance(d, v))
    {
      hide Rel, Ends, Advance, Pow2, Sized, Or;
      ghost var w := V(x);
      CcrcFacts(w, d, v);
      storedCombinedCRC := Or(storedCombinedCRC * 256 % 0x1_0000_0000, v);
      if state.k < 4 {
        state := X_CCRC(state.k + 1);
        e := Next;
      } else {
        state := X_IDLE;
        e := End;
      }
      assert V(x) == w.(r := w.r.(state := state, storedCombinedCRC := storedCombinedCRC));
      CcrcEnds(w, d, v, V(x), e);
    }

    /** RANDBIT; a randomised block is where this model stops. */
    method StepRandBit(x: Locals, v: nat, ghost d: D) returns (e: Ending)
      requires Rel(V(x), d) && d.RandBit? && v < 2
      modifies this`state, this`origPtr
      ensures Ends(V(x), e, Advance(d, v))
    {
      hide Rel, Ends, Pow2, Sized;
      HeadFacts(V(x), d);
      if v != 0 {
        e := RandomisedBlock;
      } else {
        origPtr := 0;
        state := X_ORIGPTR(1);
        e := Next;
      }
      PowZero();
      HeadEnd(V(x), e, Advance(d, v));
    }

    /** ORIGPTR_1 to ORIGPTR_3. */
    method StepOrigPtr(x: Locals, v: nat, ghost d: D) returns (x': Locals, e: Ending)
      requires Rel(V(x), d) && d.OrigPtr? && v < 256
      modifies this`state, this`origPtr
      ensures Ends(V(x'), e, Advance(d, v))
    {
      hide Rel, Ends, Pow2, Sized;
      HeadFacts(V(x), d);
      x' := x;
      ShiftedIn(origPtr, v, d.i);
      origPtr := Or(origPtr * 256 % 0x1_0000_0000, v);
      e := Next;
      if state.k < 3 {
        state := X_ORIGPTR(state.k + 1);
        HeadEnd(V(x'), e, Advance(d, v));
      } else if origPtr > 10 + 100000 * blockSize100k {
        e := Error;
        HeadEnd(V(x'), e, Advance(d, v));
      } else {
        x' := x.(i := 0);
        state := X_MAPPING_1;
        FlagsBegin(V(x'), Blk(d.h, d.crc, origPtr));
      }
    }

    // ---------- the byte map ----------

    /** makeMaps_d. */
    method MakeMaps()
      requires |inUse| == 256 && |seqToUnseq| == 256
      modifies this`nInUse, this`seqToUnseq
      ensures |seqToUnseq| == 256 && nInUse == |Used(inUse)| <= 256 && seqToUnseq[..nInUse] == Used(inUse)
    {
      hide Used;
      nInUse := 0;
      UsedNone(inUse);
      for i := 0 to 256
        invariant |seqToUnseq| == 256 && nInUse == |Used(inUse[..i])| <= i && seqToUnseq[..nInUse] == Used(inUse[..i])
      {
        UsedMore(inUse, i);
        if inUse[i] {
          seqToUnseq := seqToUnseq[nInUse := i];
          nInUse := nInUse + 1;
          assert seqToUnseq[..nInUse] == seqToUnseq[..nInUse - 1] + [i];
        }
      }
      assert inUse[..256] == inUse;
    }

    /** On to the next group of sixteen that has bytes in use, from group x.i; after the last, the maps are made. */
    method NextGroup(x: Locals, ghost b: Blk, ghost done: seq<bool>) returns (x': Locals, e: Ending)
      requires state != X_OUTPUT && Sized(T()) && BlkRel(R(), b) && x.i <= 16 && |done| == 16 * x.i
               && inUse == done + Falses(256 - 16 * x.i)
      modifies this`state, this`nInUse, this`seqToUnseq
      ensures Ends(V(x'), e, EnterMapping2(b, inUse16, x.i, done))
    {
      hide Rel, Ends, Used, EnterMapping2;
      x' := x;
      ghost var d := done;
      while x'.i < 16
        invariant x'.i <= 16 && |d| == 16 * x'.i && inUse == d + Falses(256 - 16 * x'.i)
        invariant EnterMapping2(b, inUse16, x.i, done) == EnterMapping2(b, inUse16, x'.i, d)
        invariant nInUse == old(nInUse) && seqToUnseq == old(seqToUnseq) && state == old(state)
        decreases 16 - x'.i
      {
        EnterAt(b, inUse16, x'.i, d);
        if inUse16[x'.i] {
          x' := x'.(j := 0);
          state := X_MAPPING_2;
          GroupBegins(V(x'), b, d);
          return x', Next;
        }
        SkipGroup(d, x'.i);
        d := d + NoGroup();
        x' := x'.(i := x'.i + 1);
      }
      assert inUse == d;
      EnterEnd(b, inUse16, d);
      x', e := EndMapping(x', b);
    }

    /** The byte map is complete: the maps are made, and must not be empty. */
    method EndMapping(x: Locals, ghost b: Blk) returns (x': Locals, e: Ending)
      requires state != X_OUTPUT && Sized(T()) && BlkRel(R(), b)
      modifies this`state, this`nInUse, this`seqToUnseq
      ensures Ends(V(x'), e, if Used(inUse) == [] then Failed(false) else Selector1(b, Used(inUse)))
    {
      hide Rel, Ends, Used;
      x' := x;
      MakeMaps();
      if nInUse == 0 {
        EndsInError(V(x'), false);
        return x', Error;
      }
      x' := x'.(alphaSize := nInUse + 2);
      state := X_SELECTOR_1;
      MapsMade(V(x'), b, Used(inUse));
      e := Next;
    }

    /** MAPPING_1. */
    method StepMapping1(x: Locals, v: nat, ghost d: D) returns (x': Locals, e: Ending)
      requires Rel(V(x), d) && d.Mapping1? && v < 2
      modifies this`inUse16, this`inUse, this`state, this`nInUse, this`seqToUnseq
      ensures Ends(V(x'), e, Advance(d, v))
    {
      hide Rel, Ends, Advance, Used, EnterMapping2;
      ghost var w := V(x);
      Mapping1Step(w, d, v);
      inUse16 := inUse16[x.i := v == 1];
      x' := x.(i := x.i + 1);
      assert V(x') == FlagRead(w, v);
      if x'.i < 16 { return x', Next; }
      inUse := Falses(256);
      assert [] + Falses(256) == Falses(256);
      x', e := NextGroup(x'.(i := 0), d.b, []);
    }

    /** MAPPING_2. */
    method StepMapping2(x: Locals, v: nat, ghost d: D) returns (x': Locals, e: Ending)
      requires Rel(V(x), d) && d.Mapping2? && v < 2
      modifies this`inUse, this`state, this`nInUse, this`seqToUnseq
      ensures Ends(V(x'), e, Advance(d, v))
    {
      hide Rel, Ends, Advance, Used, EnterMapping2;
      ghost var w := V(x);
      Mapping2Step(w, d, v);
      if v == 1 { inUse := inUse[x.i * 16 + x.j := true]; }
      x' := x.(j := x.j + 1);
      assert V(x') == ByteRead(w, v);
      if x'.j < 16 { return x', Next; }
      x', e := NextGroup(x'.(i := x.i + 1), d.b, d.done + (d.cur + [v == 1]));
    }

    // ---------- selectors ----------

    /** SELECTOR_1. */
    method StepSelector1(x: Locals, v: nat, ghost d: D) returns (x': Locals, e: Ending)
      requires Rel(V(x), d) && d.Selector1? && v < 8
      modifies this`state
      ensures Ends(V(x'), e, Advance(d, v))
    {
      hide CtxRel, SymRel, SelsRel, LensRel, CodingRel, SelectorsRead, MapRel, Sized, Used;
      x' := x.(nGroups := v);
      if x'.nGroups < 2 || x'.nGroups > N_GROUPS { return x', Error; }
      state := X_SELECTOR_2;
      e := Next;
    }

    /** SELECTOR_2. */
    method StepSelector2(x: Locals, v: nat, ghost d: D) returns (x': Locals, e: Ending)
      requires Rel(V(x), d) && d.Selector2?
      modifies this`state
      ensures Ends(V(x'), e, Advance(d, v))
    {
      hide CtxRel, SymRel, SelsRel, LensRel, CodingRel, MapRel, Used;
      x' := x.(nSelectors := v);
      if x'.nSelectors < 1 { return x', Error; }
      x' := x'.(i := 0, j := 0);
      state := X_SELECTOR_3;
      assert selectorMtf[..0] == [];
      e := Next;
    }

    /** SELECTOR_3. */
    method StepSelector3(x: Locals, v: nat, ghost d: D) returns (x': Locals, e: Ending)
      requires Rel(V(x), d) && d.Selector3? && v < 2
      modifies this`state, this`selectorMtf, this`selector
      ensures Ends(V(x'), e, Advance(d, v))
    {
      hide Rel, Ends, Advance, AfterSelectors;
      ghost var w := V(x);
      Selector3Facts(w, d, v);
      x' := x;
      if v != 0 {
        x' := x'.(j := x'.j + 1);
        Selector3More(w, d, v, V(x'));
        if x'.j >= x'.nGroups { return x', Error; }
        return x', Next;
      }
      if x'.i < MAX_SELECTORS { selectorMtf := selectorMtf[x'.i := x'.j]; }
      x' := x'.(i := x'.i + 1);
      Selector3Done(w, d, v, V(x'.(j := 0)));
      if x'.i < x'.nSelectors { return x'.(j := 0), Next; }
      x', e := EndSelectors(x', d.b, d.used, SelectorsNow(d));
    }

    /** The selectors have been read: too many are cut, and their move-to-front is undone. */
    method EndSelectors(x: Locals, ghost b: Blk, ghost used: seq<byte>, ghost js: seq<nat>)
      returns (x': Locals, e: Ending)
      requires Sized(T()) && BlkRel(R(), b) && UsedRel(T(), x, used) && 2 <= x.nGroups <= N_GROUPS
      requires SelectorsRead(T(), js, x.nSelectors, x.nGroups)
      modifies this`state, this`selector
      ensures Ends(V(x'), e, AfterSelectors(b, used, x.nGroups, js))
    {
      hide Rel, Ends;
      x' := x;
      if x'.nSelectors > MAX_SELECTORS { x' := x'.(nSelectors := MAX_SELECTORS); }
      UndoSelectorMtf(x'.nGroups, x'.nSelectors, js);
      x' := x'.(t := 0);
      state := X_CODING_1;
      SelectorsEnd(V(x'), b, used, x.nGroups, UnSelMtf(Identity(x.nGroups), js));
      e := Next;
    }

    /** The block that undoes the move-to-front of the selectors. */
    method UndoSelectorMtf(nGroups: nat, nSelectors: nat, ghost js: seq<nat>)
      requires |selectorMtf| == |selector| == MAX_SELECTORS && nGroups <= N_GROUPS
               && nSelectors == |js| <= MAX_SELECTORS
      requires selectorMtf[..nSelectors] == js && forall k :: 0 <= k < |js| ==> js[k] < nGroups
      modifies this`selector
      ensures |selector| == MAX_SELECTORS && |UnSelMtf(Identity(nGroups), js)| == nSelectors
      ensures selector[..nSelectors] == UnSelMtf(Identity(nGroups), js)
      ensures forall k :: 0 <= k < nSelectors ==> selector[k] < nGroups
    {
      hide UnSelMtf, Identity, Front;
      var pos: seq<byte> := Identity(nGroups);
      IdentityBelow(nGroups);
      ghost var all := UnSelMtf(pos, js);
      assert js[0..] == js;
      for i := 0 to nSelectors
        invariant |selector| == MAX_SELECTORS && |pos| == nGroups && (forall k :: 0 <= k < nGroups ==> pos[k] < nGroups)
        invariant selector[..i] + UnSelMtf(pos, js[i..]) == all && forall k :: 0 <= k < i ==> selector[k] < nGroups
      {
        assert selectorMtf[i] == selectorMtf[..nSelectors][i] == js[i];
        var v := selectorMtf[i];
        var tmp := pos[v];
        UnSelStep(pos, js, i);
        FrontBelow(pos, v, nGroups);
        pos := MoveUp(pos, v);
        selector := selector[i := tmp];
        assert selector[..i + 1] == selector[..i] + [tmp];
        assert selector[..i] + [tmp] + UnSelMtf(pos, js[i + 1..])
               == selector[..i] + ([tmp] + UnSelMtf(pos, js[i + 1..]));
      }
      UnSelEmpty(pos, js[nSelectors..]);
      assert selector[..nSelectors] + [] == selector[..nSelectors];
    }

    /** tmp = pos[v]; while v > 0 the one before moves up; pos[0] = tmp. */
    static method MoveUp(p: seq<byte>, j: nat) returns (pos: seq<byte>)
      requires j < |p|
      ensures pos == Front(p, j)
    {
      pos := p;
      var v, tmp := j, p[j];
      while v > 0
        invariant 0 <= v <= j && |pos| == |p| && pos[..v + 1] == p[..v + 1] && pos[v + 1..j + 1] == p[v..j]
                  && pos[j + 1..] == p[j + 1..]
      {
        assert pos[v - 1] == pos[..v + 1][v - 1] == p[v - 1];
        ghost var q := pos;
        pos := pos[v := pos[v - 1]];
        assert pos[..v] == q[..v + 1][..v] == p[..v + 1][..v] == p[..v];
        assert pos[v..j + 1] == [p[v - 1]] + q[v + 1..j + 1];
        assert p[v - 1..j] == [p[v - 1]] + p[v..j];
        v := v - 1;
      }
      pos := pos[0 := tmp];
      assert pos == [p[j]] + p[..j] + p[j + 1..];
    }

    // ---------- code lengths ----------

    /** CODING_1. */
    method StepCoding1(x: Locals, v: nat, ghost d: D) returns (x': Locals, e: Ending)
      requires Rel(V(x), d) && d.Coding1?
      modifies this`state
      ensures Ends(V(x'), e, Advance(d, v))
    {
      hide Rel, Ends, Advance, EnterCoding2;
      ghost var w := V(x);
      Coding1Facts(w, d, v);
      assert len[x.t][..0] == [];
      x', e := CheckCurr(x.(curr := v, i := 0), d.p, d.lens, []);
    }

    /** The check at the top of the loop over one code length. */
    method CheckCurr(x: Locals, ghost p: Pre, ghost lens: seq<seq<nat>>, ghost lenT: seq<nat>)
      returns (x': Locals, e: Ending)
      requires state != X_OUTPUT && Sized(T()) && BlkRel(R(), p.b) && PreRel(T(), x, p) && LensRel(T(), x, lens)
               && x.t == |lens| < p.nGroups
      requires x.i == |lenT| < x.alphaSize && len[x.t][..x.i] == lenT && LensIn(lenT, 1, LONGEST)
      modifies this`state
      ensures Ends(V(x'), e, EnterCoding2(p, lens, lenT, x.curr)) && e != Ready && (e == Next ==> state == X_CODING_2)
    {
      hide Rel, Ends, PreRel, LensRel;
      x' := x;
      if x.curr < 1 || x.curr > 20 {
        EndsInError(V(x'), false);
        return x', Error;
      }
      state := X_CODING_2;
      CodingGoes(V(x'), p, lens, lenT);
      e := Next;
    }

    /** CODING_3. */
    method StepCoding3(x: Locals, v: nat, ghost d: D) returns (x': Locals, e: Ending)
      requires Rel(V(x), d) && d.Coding3? && v < 2
      modifies this`state
      ensures Ends(V(x'), e, Advance(d, v))
    {
      hide Rel, Ends, Advance, EnterCoding2, PreRel, LensRel;
      ghost var w := V(x);
      Coding3Facts(w, d, v);
      x' := x.(curr := if v == 0 then x.curr + 1 else x.curr - 1);
      x', e := CheckCurr(x', d.p, d.lens, d.lenT);
    }

    /** CODING_2; after the last length of the last table, ready is set and the decode tables are to be made. */
    method StepCoding2(x: Locals, v: nat, ghost d: D) returns (x': Locals, e: Ending, ready: bool)
      requires Rel(V(x), d) && d.Coding2? && v < 2
      modifies this`state, this`len
      ensures !ready ==> Ends(V(x'), e, Advance(d, v)) && e != Ready && (e == Next ==> !state.X_MTF?)
      ensures ready ==> state != X_OUTPUT
      ensures ready ==> exists lens :: TablesComplete(V(x'), d, lens)
                          && Advance(d, v) == EnterMtf(Ctx(d.p.b, d.p.sels, lens, 0, 0), SymState(NoRun, d.p.used, []))
    {
      hide Rel, Ends, Advance, EnterCoding2, PreRel, LensRel, EnterMtf, AfterLength;
      ghost var w := V(x);
      Coding2Facts(w, d, v);
      x', e, ready := x, Next, false;
      if v != 0 {
        state := X_CODING_3;
        Coding2Moves(w, d, v, V(x'));
        return;
      }
      var curr: nat := x.curr;
      len := len[x.t := WithLength(len[x.t], x.i, curr)];
      LengthSet(w, d, V(x'));
      x' := x'.(i := x'.i + 1);
      if x'.i < x'.alphaSize {
        LengthGoes(w, d, v, V(x'));
        x', e := CheckCurr(x', d.p, d.lens, d.lenT + [d.curr]);
        return;
      }
      x' := x'.(t := x'.t + 1);
      if x'.t < x'.nGroups {
        state := X_CODING_1;
        TableGoes(w, d, v, V(x'));
        return;
      }
      LastTable(w, d, v, V(x'));
      ready := true;
    }

    /** The Huffman decoding tables. */
    method MakeTables(x: Locals, ghost lens: seq<seq<nat>>)
      requires Sized(T()) && LensRel(T(), x, lens) && |lens| == x.nGroups && 2 <= x.nGroups && 0 < x.alphaSize
      modifies this`limit, this`base, this`perm, this`minLens
      ensures Sized(T()) && AllTables(T(), lens, x.alphaSize)
    {
      hide LensIn, TablesFor, MinLen, MaxLen;
      for t := 0 to x.nGroups
        invariant Sized(T()) && forall k :: 0 <= k < t ==> |lens[k]| == x.alphaSize && TableRel(T(), k, lens[k])
      {
        MakeTable(x, t, lens);
      }
    }

    method MakeTable(x: Locals, t: nat, ghost lens: seq<seq<nat>>)
      requires Sized(T()) && LensRel(T(), x, lens) && t < |lens| == x.nGroups && 0 < x.alphaSize
      requires forall k :: 0 <= k < t ==> |lens[k]| == x.alphaSize && TableRel(T(), k, lens[k])
      modifies this`limit, this`base, this`perm, this`minLens
      ensures Sized(T()) && forall k :: 0 <= k < t + 1 ==> |lens[k]| == x.alphaSize && TableRel(T(), k, lens[k])
    {
      hide LensIn, TablesFor, MinLen, MaxLen;
      ghost var was := T();
      var row := len[t][..x.alphaSize];
      assert row == lens[t] && LensIn(row, 1, LONGEST);
      var minLen, maxLen := LengthRange(row);
      MinMaxIn(row, 1, LONGEST);
      MinMaxAll(row);
      var limits, bases, perms := new int[MAX_ALPHA_SIZE], new int[MAX_ALPHA_SIZE], new nat[MAX_ALPHA_SIZE];
      CreateDecodeTables(limits, bases, perms, row, minLen, maxLen);
      limit, base, perm, minLens := limit[t := limits[..]], base[t := bases[..]], perm[t := perms[..]],
      minLens[t := minLen];
      forall k | 0 <= k < t + 1
        ensures |lens[k]| == x.alphaSize && TableRel(T(), k, lens[k])
      {
        if k < t { assert TableRel(was, k, lens[k]); }
      }
    }

    /** The loop that finds the shortest and the longest code length. */
    static method LengthRange(row: seq<nat>) returns (minLen: nat, maxLen: nat)
      ensures minLen == MinLen(row) && maxLen == MaxLen(row)
    {
      minLen, maxLen := 32, 0;
      for i := 0 to |row|
        invariant minLen == MinLen(row[..i]) && maxLen == MaxLen(row[..i])
      {
        assert row[..i + 1][..i] == row[..i];
        if row[i] > maxLen { maxLen := row[i]; }
        if row[i] < minLen { minLen := row[i]; }
      }
      assert row[..|row|] == row;
    }

    // ---------- symbols ----------

    /** The start of GET_MTF_VAL, up to its first label, the k-th. */
    method OpenGroup(x: Locals, k: nat, ghost c: Ctx, ghost s: SymState) returns (x': Locals, e: Ending)
      requires state != X_OUTPUT && Sized(T()) && BlkRel(R(), c.b) && CtxRel(T(), x, c)
               && SymRel(V(x), s, InRunLabel(k)) && k in {1, 3, 5}
      modifies this`state
      ensures Ends(V(x'), e, EnterMtf(c, s)) && (e == Next || e == Error)
    {
      hide Rel, Ends, SymRel, SelsRel, AllTables, EnterMtf;
      x' := x;
      ghost var w := V(x);
      OpenFacts(T(), x, c);
      if x'.groupPos == 0 {
        x' := x'.(groupNo := x'.groupNo + 1);
        if x'.groupNo >= x'.nSelectors {
          EnterNone(c, s);
          EndsInError(V(x'), false);
          return x', Error;
        }
        var g: nat := x'.groupNo;
        x' := x'.(groupPos := G_SIZE, gSel := selector[g]);
        x' := x'.(gMinlen := minLens[x'.gSel], gLimit := limit[x'.gSel], gBase := base[x'.gSel],
                  gPerm := perm[x'.gSel]);
      }
      x' := x'.(groupPos := x'.groupPos - 1, zn := x'.gMinlen);
      state := X_MTF(k);
      GroupOpen(T(), x, x', c);
      SymSame(w, x, x', R(), s, InRunLabel(k));
      assert V(x') == w.(x := x', r := R());
      AtMtf(V(x'), c, s);
      e := Next;
    }

    /** The memories are apart. */
    ghost predicate Apart() {
      && arena.Shaped() && store.Shaped() && this !in store.repr && arena !in store.repr && arena.mtfa !in store.repr
      && arena.mtfbase !in store.repr
    }

    /** While symbols come in: the list and the column are in order. */
    ghost predicate Working()
      reads arena, arena.mtfa, arena.mtfbase, store, store.repr
    {
      Apart() && arena.Valid() && store.Filling()
    }

    /** One digit of a run. */
    method RunDigit(x: Locals, ghost c: Ctx, ghost s: SymState) returns (x': Locals, e: Ending)
      requires state != X_OUTPUT && Sized(T()) && BlkRel(R(), c.b) && CtxRel(T(), x, c) && SymBase(V(x), s)
               && RunSoFar(x, s) && x.nextSym <= RUNB
      modifies this`state
      ensures Ends(V(x'), e, OnSymbol(c, s, x.nextSym)) && (e == Next || e == Error)
    {
      hide Rel, Ends, SymBase, CtxRel, EnterMtf;
      ghost var w := V(x);
      x' := x;
      DigitStep(c, s, x);
      if x'.N >= 2 * 1024 * 1024 {
        EndsInError(V(x'), false);
        return x', Error;
      }
      if x'.nextSym == RUNA { x' := x'.(es := x'.es + x'.N); } else { x' := x'.(es := x'.es + 2 * x'.N); }
      x' := x'.(N := x'.N * 2);
      ghost var s' := s.(run := Run(x'.es, x'.N));
      CtxSame(T(), x, x', c);
      BaseSame(w, x, x', s, s');
      assert V(x') == w.(x := x');
      x', e := OpenGroup(x', 3, c, s');
    }

    /** The end of a run: its bytes go into the column. */
    method EndRun(x: Locals, ghost c: Ctx, ghost s: SymState) returns (ok: bool)
      requires Working() && Sized(T()) && BlkRel(R(), c.b) && SymRel(V(x), s, true) && x.nextSym > RUNB
      modifies store.repr
      ensures !ok ==> OnSymbol(c, s, x.nextSym) == Failed(false)
      ensures ok ==> Working() && SymRel(V(x), Caught(s), false)
                     && OnSymbol(c, s, x.nextSym) == OnSymbol(c, Caught(s), x.nextSym)
    {
      hide Store.Filling, Store.Shaped, Arena.Shaped, Arena.Valid, SymRel, Flushed, Repeat, OnSymbol, Sized, BlkRel;
      ghost var w := V(x);
      RunFacts(w, c, s);
      StoreMemory();
      StoreSizeIs();
      var es: nat := x.es + 1;
      var front := arena.First();
      var uc := seqToUnseq[front];
      ok := store.PutRun(uc, es, x.nblockMAX);
      RunEnds(w, c, s, uc, es);
      if ok {
        RunCaught(w, c, s, V(x));
      }
    }

    /** The memory the store writes is its own. */
    lemma StoreMemory()
      requires Apart()
      ensures store.tt in store.repr && store.ll.ll16 in store.repr && store.ll.ll4 in store.repr
              && store.unzftab in store.repr
      ensures store.cftab in store.repr && store.cftabCopy in store.repr && store in store.repr
    {}

    /** The loop over symbols, with a symbol that ends a run, or does not follow one. */
    method LoopTop(x: Locals, ghost c: Ctx, ghost s: SymState) returns (x': Locals, e: Ending)
      requires state != X_OUTPUT && Working() && Sized(T()) && BlkRel(R(), c.b) && CtxRel(T(), x, c)
               && SymRel(V(x), s, false) && x.nextSym < x.alphaSize
      modifies this`state, arena, arena.mtfa, arena.mtfbase, store.repr
      ensures Ends(V(x'), e, OnSymbol(c, s, x.nextSym))
      ensures e == Next ==> Working()
      ensures e == Ready ==> Apart() && store.Ready() && store.orig == origPtr && store.fetched == 0
    {
      hide Store.Filling, Store.Shaped, Store.Ready, Arena.Shaped, Arena.Valid, SymRel, CtxRel, OnSymbol, Sized, Rel,
           Ends;
      ghost var w := V(x);
      SymFacts(w, c, s);
      StoreSizeIs();
      if x.nextSym == x.EOB {
        e := Column(x, c, s);
        return x, e;
      }
      if x.nextSym == RUNA || x.nextSym == RUNB {
        x' := x.(es := -1, N := 1);
        RunBegins(w, c, s, x');
        assert V(x') == w.(x := x');
        x', e := RunDigit(x', c, s);
        return;
      }
      OtherSymbol(w, c, s);
      if store.nblock >= x.nblockMAX {
        EndsInError(V(x), false);
        return x, Error;
      }
      PlainSymbol(x, c, s);
      ghost var s' := SymState(NoRun, Front(s.list, x.nextSym - 1), s.col + [s.list[x.nextSym - 1]]);
      x', e := OpenGroup(x, 5, c, s');
    }

    /** A symbol that is a place in the list: its byte moves to the front and goes into the column. */
    method PlainSymbol(x: Locals, ghost c: Ctx, ghost s: SymState)
      requires Working() && Sized(T()) && SymRel(V(x), s, false) && 2 <= x.nextSym <= nInUse
               && store.nblock < x.nblockMAX <= LARGEST
      modifies arena, arena.mtfa, arena.mtfbase, store.repr
      ensures Working() && x.nextSym - 1 < |s.list|
      ensures SymRel(V(x), SymState(NoRun, Front(s.list, x.nextSym - 1), s.col + [s.list[x.nextSym - 1]]), false)
    {
      hide Store.Filling, Store.Shaped, Arena.Shaped, Arena.Valid, SymRel, Sized, Front;
      ghost var w := V(x);
      StoreMemory();
      StoreSizeIs();
      PlaceFacts(w, s, x.nextSym - 1);
      var uc := arena.Move(x.nextSym - 1);
      PlaceMoved(w, s, x.nextSym - 1, uc);
      store.PutOne(seqToUnseq[uc]);
      MovedRel(w, s, x.nextSym - 1, uc, V(x));
    }

    /** The end of the column: the inverse is built over it. */
    method Column(x: Locals, ghost c: Ctx, ghost s: SymState) returns (e: Ending)
      requires state != X_OUTPUT && Working() && Sized(T()) && BlkRel(R(), c.b) && SymRel(V(x), s, false)
               && x.nextSym == x.EOB
      modifies this`state, store.repr
      ensures Ends(V(x), e, OnSymbol(c, s, x.nextSym)) && (e == Ready || e == Error)
      ensures e == Ready ==> Apart() && store.Ready() && store.orig == origPtr && store.fetched == 0
    {
      hide Store.Filling, Store.Shaped, Store.Ready, Arena.Shaped, Arena.Valid, SymRel, OnSymbol, Sized, Rel, Ends;
      ghost var w := V(x);
      StoreMemory();
      ColumnFacts(w, c, s);
      StoreSizeIs();
      if origPtr >= store.nblock {
        EndsInError(V(x), false);
        return Error;
      }
      var ok := store.Prepare(origPtr);
      if !ok {
        return Error;
      }
      state := X_OUTPUT;
      ColumnReady(V(x), w, c, s);
      e := Ready;
    }

    lemma StoreSizeIs()
      requires store.Filling()
      ensures store.nblock == |store.col| <= LARGEST
    {}

    /** MTF init and the first symbol, once the tables have been made. */
    method BeginSymbols(x: Locals, ghost d: D, ghost lens: seq<seq<nat>>) returns (x': Locals, e: Ending)
      requires state != X_OUTPUT && Apart() && d.Coding2? && TablesComplete(V(x), d, lens)
      modifies this`state, this`limit, this`base, this`perm, this`minLens, arena, arena.mtfa, arena.mtfbase, store.repr
      ensures Ends(V(x'), e, EnterMtf(Ctx(d.p.b, d.p.sels, lens, 0, 0), SymState(NoRun, d.p.used, [])))
              && (e == Next || e == Error)
      ensures Working()
    {
      hide Store.Filling, Store.Shaped, Arena.Shaped, Arena.Valid, SymRel, AllTables, LensRel, PreRel, Rel, Ends,
           EnterMtf, Identity;
      ghost var w := V(x);
      StoreMemory();
      TablesFacts(w, d, lens);
      MakeTables(x, lens);
      x' := x.(EOB := nInUse + 1, nblockMAX := 100000 * blockSize100k, groupNo := -1, groupPos := 0);
      store.Begin();
      arena.Init();
      FirstSymbol(w, V(x'), d, lens);
      x', e := OpenGroup(x', 1, Ctx(d.p.b, d.p.sels, lens, 0, 0), SymState(NoRun, d.p.used, []));
    }

    /** A code begins, at MTF_1, MTF_3 or MTF_5. */
    method StepMtf(x: Locals, v: nat, ghost d: D) returns (x': Locals, e: Ending)
      requires Working() && Rel(V(x), d) && d.Mtf?
      modifies this`state, arena, arena.mtfa, arena.mtfbase, store.repr
      ensures Ends(V(x'), e, Advance(d, v))
      ensures e == Next ==> Working()
      ensures e == Ready ==> Apart() && store.Ready() && store.orig == origPtr && store.fetched == 0
    {
      hide Rel, Ends, Store.Filling, Store.Shaped, Store.Ready, Arena.Shaped, Arena.Valid, OnCode;
      ghost var w := V(x);
      MtfFacts(w, d, v);
      x' := x.(zvec := v);
      assert V(x') == w.(x := x');
      x', e := CodeRound(x', d.c, d.s);
    }

    /** One more bit of a code, at MTF_2, MTF_4 or MTF_6. */
    method StepMtfBit(x: Locals, v: nat, ghost d: D) returns (x': Locals, e: Ending)
      requires Working() && Rel(V(x), d) && d.MtfBit?
      modifies this`state, arena, arena.mtfa, arena.mtfbase, store.repr
      ensures Ends(V(x'), e, Advance(d, v))
      ensures e == Next ==> Working()
      ensures e == Ready ==> Apart() && store.Ready() && store.orig == origPtr && store.fetched == 0
    {
      hide Rel, Ends, Store.Filling, Store.Shaped, Store.Ready, Arena.Shaped, Arena.Valid, OnCode;
      ghost var w := V(x);
      MtfBitFacts(w, d, v);
      x' := x.(zvec := 2 * x.zvec + v);
      assert V(x') == w.(x := x');
      x', e := CodeRound(x', d.c, d.s);
    }

    /** One round of the loop of GET_MTF_VAL. */
    method CodeRound(x: Locals, ghost c: Ctx, ghost s: SymState) returns (x': Locals, e: Ending)
      requires Working() && AtCode(V(x), c, s)
      modifies this`state, arena, arena.mtfa, arena.mtfbase, store.repr
      ensures Ends(V(x'), e, OnCode(c, s, x.zn, x.zvec))
      ensures e == Next ==> Working()
      ensures e == Ready ==> Apart() && store.Ready() && store.orig == origPtr && store.fetched == 0
    {
      hide Rel, Ends, Store.Filling, Store.Shaped, Store.Ready, Arena.Shaped, Arena.Valid, OnCode, AtCode, CtxRel,
           SymRel;
      ghost var w := V(x);
      CodeFacts(w, c, s);
      x' := x;
      if x'.zn > 20 {
        EndsInError(V(x'), false);
        return x', Error;
      }
      if x'.zvec > x'.gLimit[x'.zn] {
        x' := x'.(zn := x'.zn + 1);
        if state.k % 2 == 1 { state := X_MTF(state.k + 1); }
        AnotherBit(w, V(x'), c, s);
        return x', Next;
      }
      CodeComplete(w, c, s);
      var place := x'.zvec - x'.gBase[x'.zn];
      if place < 0 || place >= MAX_ALPHA_SIZE {
        EndsInError(V(x'), false);
        return x', Error;
      }
      x' := x'.(nextSym := x'.gPerm[place]);
      assert V(x') == w.(x := x');
      SymbolFound(w, c, s, place);
      x', e := OnNextSym(x', c, s);
    }

    /** The loops around GET_MTF_VAL, with a symbol. */
    method OnNextSym(x: Locals, ghost c: Ctx, ghost s: SymState) returns (x': Locals, e: Ending)
      requires Working() && Sized(T()) && BlkRel(R(), c.b) && CtxRel(T(), x, c) && state.X_MTF?
               && SymRel(V(x), s, InRunLabel(state.k))
      requires x.nextSym < x.alphaSize
      modifies this`state, arena, arena.mtfa, arena.mtfbase, store.repr
      ensures Ends(V(x'), e, OnSymbol(c, s, x.nextSym))
      ensures e == Next ==> Working()
      ensures e == Ready ==> Apart() && store.Ready() && store.orig == origPtr && store.fetched == 0
    {
      hide Rel, Ends, Store.Filling, Store.Shaped, Store.Ready, Arena.Shaped, Arena.Valid, OnSymbol, CtxRel, SymRel,
           Flushed, Sized;
      if state.k == 3 || state.k == 4 {
        if x.nextSym == RUNA || x.nextSym == RUNB {
          RunOn(V(x), s);
          x', e := RunDigit(x, c, s);
          return;
        }
        var ok := EndRun(x, c, s);
        if !ok {
          EndsInError(V(x), false);
          return x, Error;
        }
        x', e := LoopTop(x, c, Caught(s));
      } else {
        x', e := LoopTop(x, c, s);
      }
    }

    // ---------- the switch ----------

    /** At a label: everything the code from there on relies on. */
    ghost predicate Steady(x: Locals, d: D)
      reads this, arena, arena.mtfa, arena.mtfbase, store, store.repr
    {
      Apart() && Reading(d) && Rel(V(x), d) && (d.Mtf? || d.MtfBit? ==> Working())
    }

    /** The block is ready to be put out. */
    ghost predicate AtOutput(x: Locals, d: D)
      reads this, arena, arena.mtfa, arena.mtfbase, store, store.repr
    {
      Apart() && d.Output? && Rel(V(x), d) && store.Ready() && store.orig == d.orig && store.col == d.col
    }

    /** How a step ends, with the memories. */
    ghost predicate Leads(x: Locals, e: Ending, d: D)
      reads this, arena, arena.mtfa, arena.mtfbase, store, store.repr
    {
      Apart() && Ends(V(x), e, d) && (e == Next ==> Steady(x, d))
      && (e == Ready ==> AtOutput(x, d) && store.fetched == 0)
    }

    lemma LeadsOn(x: Locals, e: Ending, d: D)
      requires Apart() && Ends(V(x), e, d)
      requires e == Next ==> state.X_MTF? ==> Working()
      requires e == Ready ==> store.Ready() && store.orig == origPtr && store.fetched == 0
      ensures Leads(x, e, d)
    {
      hide Apart, Working, Rel, Store.Ready, Arena.Valid, Store.Filling;
      LabelOfCode(V(x), d);
      OutputFacts(V(x), d);
    }

    /** One of the headers. */
    method StepHead(x: Locals, v: nat, ghost d: D) returns (x': Locals, e: Ending)
      requires Steady(x, d) && IsHead(d) && v < Pow2(Need(d))
      modifies this`state, this`blockSize100k, this`storedBlockCRC, this`storedCombinedCRC, this`origPtr
      ensures Leads(x', e, Advance(d, v))
    {
      hide Rel, Ends, Advance, Apart, Working, Store.Ready, Pow2, Leads;
      HeadLabels(V(x), d, v);
      NotYet(d, v);
      x' := x;
      if state.X_MAGIC? { e := StepMagic(x, v, d); }
      else if state.X_BLKHDR? { e := StepBlkHdr(x, v, d); }
      else if state.X_BCRC? { e := StepBcrc(x, v, d); }
      else if state.X_RANDBIT? { e := StepRandBit(x, v, d); }
      else if state.X_ORIGPTR? { x', e := StepOrigPtr(x, v, d); }
      else if state.X_ENDHDR? { e := StepEndHdr(x, v, d); }
      else { e := StepCcrc(x, v, d); }
      EndsBefore(V(x'), e, Advance(d, v));
      LeadsOn(x', e, Advance(d, v));
    }

    /** The byte map, or the selectors. */
    method StepMaps(x: Locals, v: nat, ghost d: D) returns (x': Locals, e: Ending)
      requires Steady(x, d) && !IsHead(d) && !IsLength(d) && !IsCode(d) && v < Pow2(Need(d))
      modifies this`inUse16, this`inUse, this`state, this`nInUse, this`seqToUnseq, this`selectorMtf, this`selector
      ensures Leads(x', e, Advance(d, v))
    {
      hide Rel, Ends, Advance, Apart, Working, Store.Ready, Pow2, Leads;
      MapLabels(V(x), d, v);
      NotYet(d, v);
      if state.X_MAPPING_1? { x', e := StepMapping1(x, v, d); }
      else if state.X_MAPPING_2? { x', e := StepMapping2(x, v, d); }
      else if state.X_SELECTOR_1? { x', e := StepSelector1(x, v, d); }
      else if state.X_SELECTOR_2? { x', e := StepSelector2(x, v, d); }
      else { x', e := StepSelector3(x, v, d); }
      EndsBefore(V(x'), e, Advance(d, v));
      LeadsOn(x', e, Advance(d, v));
    }

    /** The code lengths; after the last one the tables are made and the symbols begin. */
    method StepLengths(x: Locals, v: nat, ghost d: D) returns (x': Locals, e: Ending)
      requires Steady(x, d) && IsLength(d) && v < Pow2(Need(d))
      modifies this`state, this`len, this`limit, this`base, this`perm, this`minLens, arena, arena.mtfa, arena.mtfbase,
               store.repr
      ensures Leads(x', e, Advance(d, v))
    {
      hide Rel, Ends, Advance, Apart, Working, Store.Ready, Pow2, Leads, TablesComplete, EnterMtf;
      LengthLabels(V(x), d, v);
      if state.X_CODING_2? {
        var ready;
        x', e, ready := StepCoding2(x, v, d);
        if ready {
          ghost var lens :| TablesComplete(V(x'), d, lens)
                            && Advance(d, v)
                               == EnterMtf(Ctx(d.p.b, d.p.sels, lens, 0, 0), SymState(NoRun, d.p.used, []));
          x', e := BeginSymbols(x', d, lens);
          ApartStill();
        }
      } else {
        NotYet(d, v);
        if state.X_CODING_1? { x', e := StepCoding1(x, v, d); } else { x', e := StepCoding3(x, v, d); }
        EndsBefore(V(x'), e, Advance(d, v));
      }
      LeadsOn(x', e, Advance(d, v));
    }

    lemma ApartStill()
      requires Working()
      ensures Apart()
    {}

    /** A code. */
    method StepCode(x: Locals, v: nat, ghost d: D) returns (x': Locals, e: Ending)
      requires Steady(x, d) && IsCode(d)
      modifies this`state, arena, arena.mtfa, arena.mtfbase, store.repr
      ensures Leads(x', e, Advance(d, v))
    {
      hide Rel, Ends, Advance, Apart, Working, Store.Ready, Leads;
      CodeLabels(V(x), d);
      if state.k % 2 == 1 { x', e := StepMtf(x, v, d); } else { x', e := StepMtfBit(x, v, d); }
      LeadsOn(x', e, Advance(d, v));
    }

    /** switch (s->state): the code from the present label to the next, or to a return. */
    method Step(x: Locals, v: nat, ghost d: D) returns (x': Locals, e: Ending)
      requires Steady(x, d) && v < Pow2(Need(d))
      modifies this, arena, arena.mtfa, arena.mtfbase, store.repr
      ensures Leads(x', e, Advance(d, v))
    {
      hide Rel, Ends, Advance, Apart, Working, Store.Ready, Pow2, Leads, Need;
      Labels(V(x), d);
      match state {
        case X_MTF(_) => x', e := StepCode(x, v, d);
        case X_CODING_1 => x', e := StepLengths(x, v, d);
        case X_CODING_2 => x', e := StepLengths(x, v, d);
        case X_CODING_3 => x', e := StepLengths(x, v, d);
        case X_MAPPING_1 => x', e := StepMaps(x, v, d);
        case X_MAPPING_2 => x', e := StepMaps(x, v, d);
        case X_SELECTOR_1 => x', e := StepMaps(x, v, d);
        case X_SELECTOR_2 => x', e := StepMaps(x, v, d);
        case X_SELECTOR_3 => x', e := StepMaps(x, v, d);
        case _ => x', e := StepHead(x, v, d);
      }
    }

    /** The nnn of the GET_BITS at the present label. */
    function Wanted(x: Locals): nat
      reads this`state
    {
      match state
      case X_RANDBIT => 1
      case X_MAPPING_1 => 1
      case X_MAPPING_2 => 1
      case X_SELECTOR_1 => 3
      case X_SELECTOR_2 => 15
      case X_SELECTOR_3 => 1
      case X_CODING_1 => 5
      case X_CODING_2 => 1
      case X_CODING_3 => 1
      case X_MTF(k) => if k % 2 == 1 then x.zn else 1
      case _ => 8
    }

    /** Before the first byte no local is live. */
    lemma AnyLocals(x: Locals, y: Locals, d: D)
      requires Steady(x, d) && state == X_MAGIC(1)
      ensures Steady(y, d)
    {
      hide Apart, Working, CtxRel, SymRel, SelsRel, LensRel, CodingRel, SelectorsRead, MapRel, UsedRel, PreRel, Sized;
    }

    lemma NotOutput(x: Locals, d: D)
      requires Steady(x, d)
      ensures state != X_OUTPUT && state != X_IDLE
    {
      hide Apart, Working, CtxRel, SymRel, SelsRel, LensRel, CodingRel, SelectorsRead, MapRel, UsedRel, PreRel, Sized;
    }

    lemma OutputMemory(x: Locals, d: D)
      requires AtOutput(x, d)
      ensures store.Shaped() && store.nblock == |store.col| <= 100000 * blockSize100k && state == X_OUTPUT
    {
      hide Sized;
    }

    lemma WantedIs(x: Locals, d: D)
      requires Steady(x, d)
      ensures Reading(d) && 1 <= Wanted(x) == Need(d) <= LONGEST
    {
      hide CtxRel, Apart, Working, SymRel, SelsRel, LensRel, CodingRel, SelectorsRead, MapRel, UsedRel, PreRel;
      Labels(V(x), d);
      if d.Mtf? { NeedIs(V(x), d); }
    }
  }

  predicate IsLength(d: D) {
    d.Coding1? || d.Coding2? || d.Coding3?
  }

  predicate IsCode(d: D) {
    d.Mtf? || d.MtfBit?
  }

  /** Which labels stand for which states. */
  lemma Labels(v: View, d: D)
    ensures Rel(v, d) && Reading(d) ==>
              && (IsCode(d) <==> v.r.state.X_MTF?)
              && (IsLength(d) <==> v.r.state.X_CODING_1? || v.r.state.X_CODING_2? || v.r.state.X_CODING_3?)
              && (!IsHead(d) && !IsLength(d) && !IsCode(d) <==>
                    v.r.state in {X_MAPPING_1, X_MAPPING_2, X_SELECTOR_1, X_SELECTOR_2, X_SELECTOR_3})
  {
    hide CtxRel, SymRel, SelsRel, LensRel, CodingRel, SelectorsRead, MapRel, UsedRel, PreRel, Sized, BlkRel;
  }

  lemma LabelOfCode(v: View, d: D)
    ensures Rel(v, d) && Reading(d) && IsCode(d) ==> v.r.state.X_MTF?
  {
    Labels(v, d);
  }

  lemma OutputFacts(v: View, d: D)
    ensures Rel(v, d) && d.Output? ==> v.col == d.col && v.r.origPtr == d.orig
  {}

  lemma HeadLabels(v: View, d: D, f: nat)
    ensures Rel(v, d) && IsHead(d) && f < Pow2(Need(d)) ==>
              && (v.r.state.X_MAGIC? <==> d.Magic?) && (v.r.state.X_BLKHDR? <==> d.BlkHdr?)
              && (v.r.state.X_BCRC? <==> d.Bcrc?)
              && (v.r.state.X_RANDBIT? <==> d.RandBit?) && (v.r.state.X_ORIGPTR? <==> d.OrigPtr?)
              && (v.r.state.X_ENDHDR? <==> d.EndHdr?)
              && if d.RandBit? then f < 2 else f < 256
  {
    hide Sized, Pow2;
    Pow2Values();
  }

  lemma MapLabels(v: View, d: D, f: nat)
    ensures Rel(v, d) && Reading(d) && !IsHead(d) && !IsLength(d) && !IsCode(d) && f < Pow2(Need(d)) ==>
              && (v.r.state.X_MAPPING_1? <==> d.Mapping1?) && (v.r.state.X_MAPPING_2? <==> d.Mapping2?)
              && (v.r.state.X_SELECTOR_1? <==> d.Selector1?) && (v.r.state.X_SELECTOR_2? <==> d.Selector2?)
              && (d.Mapping1? || d.Mapping2? || d.Selector3? ==> f < 2) && (d.Selector1? ==> f < 8)
              && (d.Mapping1? || d.Mapping2? || d.Selector1? || d.Selector2? || d.Selector3?)
  {
    hide CtxRel, SymRel, SelsRel, LensRel, CodingRel, SelectorsRead, MapRel, UsedRel, PreRel, Sized, BlkRel, Pow2;
    SmallPowers();
  }

  lemma LengthLabels(v: View, d: D, f: nat)
    ensures Rel(v, d) && IsLength(d) && f < Pow2(Need(d)) ==>
              && (v.r.state.X_CODING_1? <==> d.Coding1?) && (v.r.state.X_CODING_2? <==> d.Coding2?)
              && (!d.Coding1? ==> f < 2)
  {
    hide CtxRel, SymRel, SelsRel, LensRel, CodingRel, SelectorsRead, MapRel, UsedRel, PreRel, Sized, BlkRel, Pow2;
    SmallPowers();
  }

  lemma CodeLabels(v: View, d: D)
    ensures Rel(v, d) && IsCode(d) ==> v.r.state.X_MTF? && (v.r.state.k % 2 == 1 <==> d.Mtf?)
  {
    hide CtxRel, SymRel, SelsRel, LensRel, CodingRel, SelectorsRead, MapRel, UsedRel, PreRel, Sized, BlkRel;
  }

  lemma SmallPowers()
    ensures Pow2(1) == 2 && Pow2(3) == 8
  {}

  /** Before the code lengths are all read there is no symbol and no output. */
  lemma NotYet(d: D, f: nat)
    requires Reading(d) && !IsCode(d) && !d.Coding2?
    ensures !IsCode(Advance(d, f)) && !Advance(d, f).Output?
  {
    hide EnterMapping2, Used;
    if d.Mapping1? { EnterNotYet(d.b, d.in16 + [f == 1], 0, []); }
    if d.Mapping2? { EnterNotYet(d.b, d.in16, d.i + 1, d.done + (d.cur + [f == 1])); }
  }

  lemma {:induction false} EnterNotYet(b: Blk, in16: seq<bool>, i: nat, done: seq<bool>)
    ensures !IsCode(EnterMapping2(b, in16, i, done)) && !EnterMapping2(b, in16, i, done).Output?
    decreases |in16| - i
  {
    hide Used;
    if i < |in16| && !in16[i] { EnterNotYet(b, in16, i + 1, done + NoGroup()); }
  }

  lemma EndsBefore(v: View, e: Ending, d: D)
    ensures Ends(v, e, d) && !IsCode(d) && !d.Output? ==> e != Ready && (e == Next ==> !v.r.state.X_MTF?)
  {
    hide Rel;
    Labels(v, d);
  }

  lemma NeedIs(v: View, d: D)
    ensures Rel(v, d) && d.Mtf? ==> 1 <= v.x.zn == Need(d) <= LONGEST
  {
    if Rel(v, d) && d.Mtf? {
      GroupTable(v.t, v.x, d.c);
      MinMaxIn(GroupLens(d.c), 1, LONGEST);
    }
  }

  lemma HeadFacts(v: View, d: D)
    ensures Rel(v, d) && IsHead(d) ==> Sized(v.t) && HeadRel(v.r, d)
  {}

  /** Ends, for the states of the headers. */
  ghost predicate HeadEnds(r: Regs, e: Ending, d: D) {
    match e
    case Next => HeadRel(r, d)
    case Ready => false
    case End => r.state == X_IDLE && d == if r.storedCombinedCRC == r.combined as nat then Idle else Failed(false)
    case Error => d == Failed(false) && r.state != X_OUTPUT
    case MagicError => d == Failed(true) && r.state != X_OUTPUT
    case RandomisedBlock => d == Randomised && r.state != X_OUTPUT
  }

  lemma HeadEnd(v: View, e: Ending, d: D)
    ensures Sized(v.t) && HeadEnds(v.r, e, d) ==> Ends(v, e, d)
  {
    hide CtxRel, SymRel, UsedRel, PreRel, LensRel, CodingRel, SelectorsRead, MapRel;
  }

  lemma BlkHdrFacts(v: View, d: D)
    ensures Rel(v, d) && d.BlkHdr? ==> v.r.state.X_BLKHDR? && 1 <= v.r.state.k <= 6
  {}

  /** What the comparisons of BLKHDR_1 to BLKHDR_6 come to. */
  lemma BlkHdrEnds(v: View, d: D, f: nat, w: View, e: Ending)
    requires Rel(v, d) && d.BlkHdr? && v.r.state.X_BLKHDR? && 1 <= v.r.state.k <= |BLOCK_MAGIC| == 6
    requires w == v.(r := v.r.(state := w.r.state, storedBlockCRC := w.r.storedBlockCRC))
    requires var k := v.r.state.k;
             if k == 1 && f == 0x17 then e == Next && w.r.state == X_ENDHDR(2)
             else if f != BLOCK_MAGIC[k - 1] then e == Error && w.r.state == v.r.state
             else e == Next && if k < 6 then w.r.state == X_BLKHDR(k + 1)
                  else w.r.state == X_BCRC(1) && w.r.storedBlockCRC == 0
    ensures Ends(w, e, Advance(d, f))
  {
    hide Rel, Ends, Pow2, Sized, BLOCK_MAGIC;
    HeadFacts(v, d);
    PowZero();
    HeadEnd(w, e, Advance(d, f));
  }

  lemma EndHdrFacts(v: View, d: D)
    ensures Rel(v, d) && d.EndHdr? ==> v.r.state.X_ENDHDR? && 2 <= v.r.state.k <= 6
  {}

  /** What the comparisons of ENDHDR_2 to ENDHDR_6 come to. */
  lemma EndHdrEnds(v: View, d: D, f: nat, w: View, e: Ending)
    requires Rel(v, d) && d.EndHdr? && v.r.state.X_ENDHDR? && 2 <= v.r.state.k <= |END_MAGIC| == 6
    requires w == v.(r := v.r.(state := w.r.state, storedCombinedCRC := w.r.storedCombinedCRC))
    requires var k := v.r.state.k;
             if f != END_MAGIC[k - 1] then e == Error && w.r.state == v.r.state
             else e == Next && if k < 6 then w.r.state == X_ENDHDR(k + 1)
                  else w.r.state == X_CCRC(1) && w.r.storedCombinedCRC == 0
    ensures Ends(w, e, Advance(d, f))
  {
    hide Rel, Ends, Pow2, Sized, END_MAGIC;
    HeadFacts(v, d);
    PowZero();
    HeadEnd(w, e, Advance(d, f));
  }

  lemma CcrcFacts(v: View, d: D, f: nat)
    requires f < 256
    ensures Rel(v, d) && d.Ccrc? ==>
              && v.r.state.X_CCRC? && v.r.state.k == d.i + 1 <= 4
              && Or(v.r.storedCombinedCRC * 256 % 0x1_0000_0000, f) == Shift8(v.r.storedCombinedCRC, f)
  {
    if Rel(v, d) && d.Ccrc? { ShiftedIn(v.r.storedCombinedCRC, f, d.i); }
  }

  lemma CcrcEnds(v: View, d: D, f: nat, w: View, e: Ending)
    requires Rel(v, d) && d.Ccrc? && f < 256
             && w == v.(r := v.r.(state := w.r.state, storedCombinedCRC := Shift8(v.r.storedCombinedCRC, f)))
    requires if d.i < 3 then e == Next && w.r.state == X_CCRC(d.i + 2) else e == End && w.r.state == X_IDLE
    ensures Ends(w, e, Advance(d, f))
  {
    hide Rel, Ends, Pow2, Sized;
    HeadFacts(v, d);
    ShiftedIn(v.r.storedCombinedCRC, f, d.i);
    HeadEnd(w, e, Advance(d, f));
  }

  lemma StreamMagicIs()
    ensures |STREAM_MAGIC| == 3 && STREAM_MAGIC[0] == 0x42 && STREAM_MAGIC[1] == 0x5a && STREAM_MAGIC[2] == 0x68
  {}

  lemma BlockMagicIs()
    ensures |BLOCK_MAGIC| == 6 && BLOCK_MAGIC[0] == 0x31 && BLOCK_MAGIC[1] == 0x41 && BLOCK_MAGIC[2] == 0x59
    ensures BLOCK_MAGIC[3] == 0x26 && BLOCK_MAGIC[4] == 0x53 && BLOCK_MAGIC[5] == 0x59
  {}

  lemma EndMagicIs()
    ensures |END_MAGIC| == 6 && END_MAGIC[1] == 0x72 && END_MAGIC[2] == 0x45
    ensures END_MAGIC[3] == 0x38 && END_MAGIC[4] == 0x50 && END_MAGIC[5] == 0x90
  {}

  lemma PowZero()
    ensures Pow2(8 * 0) == 1
  {}

  lemma FlagsBegin(v: View, b: Blk)
    requires Sized(v.t) && BlkRel(v.r, b) && v.r.state == X_MAPPING_1 && v.x.i == 0
    ensures Ends(v, Next, Mapping1(b, []))
  {
    assert v.t.inUse16[..0] == [];
  }

  lemma EndsInError(v: View, magic: bool)
    ensures v.r.state != X_OUTPUT ==> Ends(v, if magic then MagicError else Error, Failed(magic))
  {}

  /** One of the sixteen flags. */
  ghost function FlagRead(v: View, f: nat): View
    requires v.x.i < |v.t.inUse16|
  {
    v.(t := v.t.(inUse16 := v.t.inUse16[v.x.i := f == 1]), x := v.x.(i := v.x.i + 1))
  }

  lemma Mapping1Step(v: View, d: D, f: nat)
    requires Rel(v, d) && d.Mapping1?
    ensures Sized(v.t) && v.x.i < 16 && BlkRel(v.r, d.b) && v.r.state != X_OUTPUT
    ensures v.x.i < 15 ==> Ends(FlagRead(v, f), Next, Advance(d, f))
    ensures v.x.i == 15 ==> Advance(d, f) == EnterMapping2(d.b, FlagRead(v, f).t.inUse16, 0, [])
  {
    hide UsedRel, PreRel, LensRel, CodingRel, SelectorsRead, MapRel, CtxRel, SymRel, EnterMapping2;
    var u := FlagRead(v, f).t.inUse16;
    assert u[..v.x.i + 1] == d.in16 + [f == 1];
    if v.x.i == 15 { assert u[..16] == u; }
  }

  /** One flag of a byte. */
  ghost function ByteRead(v: View, f: nat): View
    requires v.x.i * 16 + v.x.j < |v.t.inUse|
  {
    v.(t := v.t.(inUse := if f == 1 then v.t.inUse[v.x.i * 16 + v.x.j := true] else v.t.inUse),
       x := v.x.(j := v.x.j + 1))
  }

  lemma Mapping2Step(v: View, d: D, f: nat)
    requires Rel(v, d) && d.Mapping2?
    ensures v.r.state != X_OUTPUT && Sized(v.t) && v.x.i < 16 && v.x.j < 16 && BlkRel(v.r, d.b)
            && |d.done| == 16 * v.x.i && |d.cur| == v.x.j
    ensures v.x.j < 15 ==> Ends(ByteRead(v, f), Next, Advance(d, f))
    ensures v.x.j == 15 ==>
              && Advance(d, f) == EnterMapping2(d.b, v.t.inUse16, v.x.i + 1, d.done + (d.cur + [f == 1]))
              && ByteRead(v, f).t.inUse == d.done + (d.cur + [f == 1]) + Falses(256 - 16 * (v.x.i + 1))
  {
    hide UsedRel, PreRel, LensRel, CodingRel, SelectorsRead, CtxRel, SymRel, EnterMapping2, Falses;
    FlagIn(d.done, d.cur, f == 1);
  }

  lemma EnterAt(b: Blk, in16: seq<bool>, i: nat, done: seq<bool>)
    requires i < |in16|
    ensures EnterMapping2(b, in16, i, done) == if in16[i] then Mapping2(b, in16, i, done, [])
            else EnterMapping2(b, in16, i + 1, done + NoGroup())
  {}

  lemma EnterEnd(b: Blk, in16: seq<bool>, done: seq<bool>)
    requires |in16| == 16
    ensures EnterMapping2(b, in16, 16, done) == if Used(done) == [] then Failed(false) else Selector1(b, Used(done))
  {}

  lemma GroupBegins(v: View, b: Blk, done: seq<bool>)
    ensures Sized(v.t) && BlkRel(v.r, b) && v.r.state == X_MAPPING_2 && v.x.i < 16 && v.x.j == 0 && v.t.inUse16[v.x.i]
            && |done| == 16 * v.x.i && v.t.inUse == done + Falses(256 - 16 * v.x.i) ==>
              Ends(v, Next, Mapping2(b, v.t.inUse16, v.x.i, done, []))
  {
    assert done + [] == done;
  }

  lemma MapsMade(v: View, b: Blk, used: seq<byte>)
    ensures Sized(v.t) && BlkRel(v.r, b) && v.r.state == X_SELECTOR_1 && v.t.nInUse == |used| <= 256 && used != []
            && v.t.seqToUnseq[..v.t.nInUse] == used && v.x.alphaSize == v.t.nInUse + 2 ==>
              Ends(v, Next, Selector1(b, used))
  {}

  /** The selectors read when the present one is complete. */
  ghost function SelectorsNow(d: D): seq<nat>
    requires d.Selector3?
  {
    if |d.js| < MAX_SELECTORS then d.js + [d.j] else d.js
  }

  lemma Selector3Facts(v: View, d: D, f: nat)
    ensures Rel(v, d) && d.Selector3? ==>
              && Sized(v.t) && BlkRel(v.r, d.b) && UsedRel(v.t, v.x, d.used)
              && 2 <= v.x.nGroups == d.nGroups <= N_GROUPS
              && v.x.j < v.x.nGroups && v.x.i < v.x.nSelectors == d.nSel && v.r.state == X_SELECTOR_3
              && v.x.i == d.i && v.x.j == d.j && SelectorsRead(v.t, d.js, d.i, d.nGroups)
  {}

  lemma Selector3More(v: View, d: D, f: nat, w: View)
    ensures Rel(v, d) && d.Selector3? && f != 0 && w == v.(x := v.x.(j := v.x.j + 1)) ==>
              Ends(w, if w.x.j >= w.x.nGroups then Error else Next, Advance(d, f))
  {
    hide UsedRel, SelectorsRead, Sized, CtxRel, SymRel, LensRel, CodingRel, MapRel, PreRel, AfterSelectors;
    if Rel(v, d) && d.Selector3? && f != 0 && w == v.(x := v.x.(j := v.x.j + 1)) { UsedSame(v.t, v.x, w.x, d.used); }
  }

  lemma UsedSame(t: Tables, x: Locals, y: Locals, used: seq<byte>)
    requires Sized(t) && UsedRel(t, x, used) && y.alphaSize == x.alphaSize
    ensures UsedRel(t, y, used)
  {}

  /** A selector is complete. */
  lemma Selector3Done(v: View, d: D, f: nat, w: View)
    requires Rel(v, d) && d.Selector3? && f == 0
    requires w.r == v.r && w.x == v.x.(i := v.x.i + 1, j := 0) && v.x.j < 256
    requires |v.t.selectorMtf| == MAX_SELECTORS
    requires w.t == if v.x.i < MAX_SELECTORS then v.t.(selectorMtf := v.t.selectorMtf[v.x.i := v.x.j]) else v.t
    ensures Sized(w.t) && UsedRel(w.t, w.x, d.used) && SelectorsRead(w.t, SelectorsNow(d), d.i + 1, d.nGroups)
    ensures w.x.i < w.x.nSelectors ==> Ends(w, Next, Advance(d, f))
    ensures w.x.i >= w.x.nSelectors ==>
              w.x.i == w.x.nSelectors && Advance(d, f) == AfterSelectors(d.b, d.used, d.nGroups, SelectorsNow(d))
  {
    hide CtxRel, SymRel, LensRel, CodingRel, MapRel, PreRel, AfterSelectors;
    var n := |d.js|;
    if v.x.i < MAX_SELECTORS {
      assert w.t.selectorMtf[..n + 1] == v.t.selectorMtf[..n] + [v.x.j];
    }
  }

  lemma SelectorsEnd(v: View, b: Blk, used: seq<byte>, nGroups: nat, sels: seq<byte>)
    requires Sized(v.t) && BlkRel(v.r, b) && UsedRel(v.t, v.x, used) && v.r.state == X_CODING_1 && v.x.t == 0
    requires 2 <= v.x.nGroups == nGroups <= N_GROUPS && v.x.nSelectors == |sels| <= MAX_SELECTORS
             && v.t.selector[..|sels|] == sels
    requires forall k :: 0 <= k < |sels| ==> v.t.selector[k] < nGroups
    ensures Ends(v, Next, Coding1(Pre(b, used, nGroups, sels), []))
  {
    hide CtxRel, SymRel, CodingRel, MapRel;
    assert v.x.alphaSize <= MAX_ALPHA_SIZE;
    assert forall k :: 0 <= k < |sels| ==> sels[k] == v.t.selector[k];
  }

  lemma {:induction false} IdentityBelow(n: nat)
    requires n <= 256
    ensures forall k :: 0 <= k < n ==> Identity(n)[k] < n
  {
    if n > 0 { IdentityBelow(n - 1); }
  }

  lemma UnSelStep(pos: seq<byte>, js: seq<nat>, i: nat)
    requires i < |js| && js[i] < |pos|
    ensures UnSelMtf(pos, js[i..]) == [pos[js[i]]] + UnSelMtf(Front(pos, js[i]), js[i + 1..])
  {
    assert js[i..][1..] == js[i + 1..];
  }

  lemma UnSelEmpty(pos: seq<byte>, js: seq<nat>)
    requires js == []
    ensures UnSelMtf(pos, js) == []
  {}

  lemma FrontBelow(pos: seq<byte>, j: nat, n: nat)
    requires j < |pos| && forall k :: 0 <= k < |pos| ==> pos[k] < n
    ensures forall k :: 0 <= k < |pos| ==> Front(pos, j)[k] < n
  {}

  // ---------- code lengths ----------

  lemma Coding1Facts(v: View, d: D, f: nat)
    ensures Rel(v, d) && d.Coding1? ==>
              && v.r.state != X_OUTPUT && Sized(v.t) && BlkRel(v.r, d.p.b) && PreRel(v.t, v.x.(curr := f, i := 0), d.p)
              && LensRel(v.t, v.x.(curr := f, i := 0), d.lens)
              && v.x.t == |d.lens| < d.p.nGroups <= N_GROUPS && v.x.alphaSize >= 2
              && Advance(d, f) == EnterCoding2(d.p, d.lens, [], f)
  {}

  lemma Coding3Facts(v: View, d: D, f: nat)
    ensures Rel(v, d) && d.Coding3? ==>
              var y := v.x.(curr := if f == 0 then v.x.curr + 1 else v.x.curr - 1);
              && v.r.state != X_OUTPUT && Sized(v.t) && BlkRel(v.r, d.p.b) && PreRel(v.t, y, d.p)
              && LensRel(v.t, y, d.lens)
              && v.x.t == |d.lens| < d.p.nGroups <= N_GROUPS && v.x.i == |d.lenT| < v.x.alphaSize <= MAX_ALPHA_SIZE
              && v.t.len[v.x.t][..v.x.i] == d.lenT && LensIn(d.lenT, 1, LONGEST)
              && Advance(d, f) == EnterCoding2(d.p, d.lens, d.lenT, y.curr)
  {}

  lemma Coding2Facts(v: View, d: D, f: nat)
    ensures Rel(v, d) && d.Coding2? ==>
              && v.r.state != X_OUTPUT && Sized(v.t) && BlkRel(v.r, d.p.b)
              && CodingRel(v.t, v.x, d.p, d.lens, d.lenT, d.curr) && v.r.state == X_CODING_2
              && v.x.t < N_GROUPS && v.x.i < v.x.alphaSize <= MAX_ALPHA_SIZE && |v.t.len[v.x.t]| == MAX_ALPHA_SIZE
              && 1 <= v.x.curr == d.curr
              && v.x.t == |d.lens|
  {}

  lemma CodingGoes(v: View, p: Pre, lens: seq<seq<nat>>, lenT: seq<nat>)
    requires Sized(v.t) && BlkRel(v.r, p.b) && PreRel(v.t, v.x, p) && LensRel(v.t, v.x, lens)
             && v.x.t == |lens| < p.nGroups
    requires v.x.i == |lenT| < v.x.alphaSize && v.t.len[v.x.t][..v.x.i] == lenT && LensIn(lenT, 1, LONGEST)
    requires v.r.state == X_CODING_2 && 1 <= v.x.curr <= LONGEST
    ensures Ends(v, Next, Coding2(p, lens, lenT, v.x.curr))
  {
    hide PreRel, LensRel, Sized, CtxRel, SymRel;
  }

  lemma Coding2Moves(v: View, d: D, f: nat, w: View)
    ensures Rel(v, d) && d.Coding2? && f != 0 && w == v.(r := v.r.(state := X_CODING_3)) ==>
              Ends(w, Next, Advance(d, f))
  {
    hide PreRel, LensRel, Sized, CtxRel, SymRel;
  }

  function WithLength(row: seq<nat>, i: nat, n: nat): seq<nat>
    requires i < |row|
  {
    row[i := n]
  }

  /** v with the present length stored. */
  ghost predicate Stored(v: View, d: D, w: View)
    requires Sized(v.t) && v.x.t < N_GROUPS && v.x.i < MAX_ALPHA_SIZE && d.Coding2?
  {
    w.t == v.t.(len := v.t.len[v.x.t := WithLength(v.t.len[v.x.t], v.x.i, d.curr)])
  }

  lemma LengthSet(v: View, d: D, w: View)
    requires Sized(v.t) && d.Coding2? && CodingRel(v.t, v.x, d.p, d.lens, d.lenT, d.curr) && v.x.t < N_GROUPS
    requires v.x.i < MAX_ALPHA_SIZE && Stored(v, d, w)
    ensures Sized(w.t) && PreRel(w.t, v.x, d.p) && LensRel(w.t, v.x, d.lens)
    ensures w.t.len[v.x.t][..v.x.i + 1] == d.lenT + [d.curr] && LensIn(d.lenT + [d.curr], 1, LONGEST)
  {
    var row := WithLength(v.t.len[v.x.t], v.x.i, d.curr);
    assert row[..v.x.i + 1] == v.t.len[v.x.t][..v.x.i] + [d.curr];
  }

  /** More lengths of the same table. */
  lemma LengthGoes(v: View, d: D, f: nat, w: View)
    requires Rel(v, d) && d.Coding2? && f == 0 && v.x.t < N_GROUPS && v.x.i < MAX_ALPHA_SIZE && Stored(v, d, w)
    requires w.x == v.x.(i := v.x.i + 1) && w.x.i < w.x.alphaSize
    ensures PreRel(w.t, w.x, d.p) && LensRel(w.t, w.x, d.lens)
    ensures Advance(d, f) == EnterCoding2(d.p, d.lens, d.lenT + [d.curr], d.curr)
  {
    LengthSet(v, d, w);
    hide EnterCoding2;
  }

  /** Another table. */
  lemma TableGoes(v: View, d: D, f: nat, w: View)
    requires Rel(v, d) && d.Coding2? && f == 0 && v.x.t < N_GROUPS && v.x.i < MAX_ALPHA_SIZE && Stored(v, d, w)
    requires w.r == v.r.(state := X_CODING_1) && w.x == v.x.(i := v.x.i + 1, t := v.x.t + 1) && w.x.i >= w.x.alphaSize
             && w.x.t < w.x.nGroups
    ensures Ends(w, Next, Advance(d, f))
  {
    LengthSet(v, d, w);
    hide EnterCoding2, EnterMtf, CtxRel, SymRel;
    TableAdded(v, d, w);
    assert Advance(d, f) == Coding1(d.p, d.lens + [d.lenT + [d.curr]]);
  }

  /** The table is complete: there is one more. */
  lemma TableAdded(v: View, d: D, w: View)
    requires Sized(v.t) && d.Coding2? && CodingRel(v.t, v.x, d.p, d.lens, d.lenT, d.curr) && v.x.t < N_GROUPS
             && v.x.i < MAX_ALPHA_SIZE && Stored(v, d, w)
    requires w.x == v.x.(i := v.x.i + 1, t := v.x.t + 1) && w.x.i >= w.x.alphaSize
    ensures Sized(w.t) && LensRel(w.t, w.x, d.lens + [d.lenT + [d.curr]]) && PreRel(w.t, w.x, d.p)
  {
    LengthSet(v, d, w);
    hide PreRel, SelsRel;
    var lens := d.lens + [d.lenT + [d.curr]];
    forall k | 0 <= k < |lens|
      ensures lens[k] == w.t.len[k][..w.x.alphaSize] && LensIn(lens[k], 1, LONGEST)
    {
      if k < |d.lens| { assert d.lens[k] == v.t.len[k][..v.x.alphaSize]; }
    }
    assert PreRel(w.t, w.x, d.p) by { PreSame(w.t, v.x, w.x, d.p); }
  }

  lemma PreSame(t: Tables, x: Locals, y: Locals, p: Pre)
    requires Sized(t) && PreRel(t, x, p) && y.alphaSize == x.alphaSize && y.nGroups == x.nGroups
             && y.nSelectors == x.nSelectors
    ensures PreRel(t, y, p)
  {}

  /** All tables of lengths have been read. */
  ghost predicate TablesComplete(v: View, d: D, lens: seq<seq<nat>>)
    requires d.Coding2?
  {
    && Sized(v.t) && BlkRel(v.r, d.p.b) && PreRel(v.t, v.x, d.p) && LensRel(v.t, v.x, lens) && |lens| == v.x.nGroups
  }

  lemma LastTable(v: View, d: D, f: nat, w: View)
    requires Rel(v, d) && d.Coding2? && f == 0 && v.x.t < N_GROUPS && v.x.i < MAX_ALPHA_SIZE && Stored(v, d, w)
    requires w.r == v.r && w.x == v.x.(i := v.x.i + 1, t := v.x.t + 1) && w.x.i >= w.x.alphaSize && w.x.t >= w.x.nGroups
    ensures exists lens :: TablesComplete(w, d, lens)
                           && Advance(d, f) == EnterMtf(Ctx(d.p.b, d.p.sels, lens, 0, 0), SymState(NoRun, d.p.used, []))
  {
    hide EnterCoding2, EnterMtf, CtxRel, SymRel;
    TableAdded(v, d, w);
    var lens := d.lens + [d.lenT + [d.curr]];
    assert TablesComplete(w, d, lens);
    assert Advance(d, f) == EnterMtf(Ctx(d.p.b, d.p.sels, lens, 0, 0), SymState(NoRun, d.p.used, []));
  }

  // ---------- symbols ----------

  /** The context after a group has been opened, if one had to be. */
  function Opened(c: Ctx): Ctx {
    if c.pos > 0 then c.(pos := c.pos - 1) else c.(g := c.g + 1, pos := G_SIZE - 1)
  }

  lemma OpenFacts(t: Tables, x: Locals, c: Ctx)
    ensures Sized(t) && CtxRel(t, x, c) ==>
              && c.g <= |c.sels| == x.nSelectors <= MAX_SELECTORS && x.groupNo == c.g - 1
              && x.groupPos == c.pos <= G_SIZE
              && (c.g < |c.sels| ==> t.selector[c.g] == c.sels[c.g] < N_GROUPS)
              && (0 < c.g ==> x.gSel < N_GROUPS)
  {
    hide AllTables;
    if Sized(t) && CtxRel(t, x, c) && c.g < |c.sels| {
      assert t.selector[..x.nSelectors][c.g] == c.sels[c.g];
    }
  }

  lemma EnterNone(c: Ctx, s: SymState)
    ensures c.pos == 0 && c.g >= |c.sels| ==> EnterMtf(c, s) == Failed(false)
  {}

  lemma GroupOpen(t: Tables, x: Locals, y: Locals, c: Ctx)
    requires Sized(t) && CtxRel(t, x, c) && (c.pos == 0 ==> c.g < |c.sels| && t.selector[c.g] < N_GROUPS)
    requires y == if c.pos > 0 then x.(groupPos := x.groupPos - 1, zn := x.gMinlen)
                  else var k := t.selector[c.g];
                       x.(groupNo := x.groupNo + 1, groupPos := G_SIZE - 1, gSel := k, gMinlen := t.minLens[k],
                          gLimit := t.limit[k],
                          gBase := t.base[k], gPerm := t.perm[k], zn := t.minLens[k])
    ensures CtxRel(t, y, Opened(c)) && Opened(c).g > 0 && y.zn == y.gMinlen
  {
    hide TableRel;
    if c.pos == 0 { assert t.selector[..x.nSelectors][c.g] == c.sels[c.g]; }
  }

  lemma SymSame(v: View, x: Locals, y: Locals, r: Regs, s: SymState, running: bool)
    requires Sized(v.t) && v.x == x && SymRel(v, s, running)
    requires y.EOB == x.EOB && y.alphaSize == x.alphaSize && y.nblockMAX == x.nblockMAX && y.es == x.es && y.N == x.N
             && r.level == v.r.level
    ensures SymRel(v.(x := y, r := r), s, running)
  {
    hide ListRel;
  }

  /** At one of the labels where a code begins. */
  lemma AtMtf(v: View, c: Ctx, s: SymState)
    requires v.r.state.X_MTF? && v.r.state.k in {1, 3, 5}
    requires Sized(v.t) && BlkRel(v.r, c.b) && CtxRel(v.t, v.x, Opened(c)) && Opened(c).g > 0 && v.x.zn == v.x.gMinlen
    requires SymRel(v, s, InRunLabel(v.r.state.k)) && (c.pos == 0 ==> c.g < |c.sels|)
    ensures Ends(v, Next, EnterMtf(c, s))
  {
    hide CtxRel, SymRel, Sized;
    assert EnterMtf(c, s) == Mtf(Opened(c), s);
  }

  /** The run so far, as the locals have it. */
  ghost predicate RunSoFar(x: Locals, s: SymState) {
    if s.run.Run? then x.es == s.run.es >= 0 && x.N == s.run.N >= 1 else x.es == -1 && x.N == 1
  }

  lemma DigitStep(c: Ctx, s: SymState, x: Locals)
    requires RunSoFar(x, s) && x.nextSym <= RUNB
    ensures OnSymbol(c, s, x.nextSym) ==
            if x.N >= RUN_GUARD then Failed(false)
            else EnterMtf(c, s.(run := Run(x.es + if x.nextSym == RUNA then x.N else 2 * x.N, 2 * x.N)))
  {
    hide EnterMtf;
  }

  lemma CtxSame(t: Tables, x: Locals, y: Locals, c: Ctx)
    requires Sized(t) && CtxRel(t, x, c)
    requires y == x.(es := y.es, N := y.N, nextSym := y.nextSym, zn := y.zn, zvec := y.zvec)
    ensures CtxRel(t, y, c)
  {
    hide AllTables, Sized;
  }

  lemma BaseSame(v: View, x: Locals, y: Locals, s: SymState, s': SymState)
    requires Sized(v.t) && v.x == x && SymBase(v, s) && s' == s.(run := Run(y.es, y.N)) && y.es >= 0 && y.N >= 1
    requires y == x.(es := y.es, N := y.N)
    ensures SymRel(v.(x := y), s', true)
  {
    hide ListRel;
  }

  /** The state once a run has been written out. */
  ghost function Caught(s: SymState): SymState {
    s.(run := NoRun, col := Flushed(s))
  }

  lemma RunFacts(v: View, c: Ctx, s: SymState)
    ensures Sized(v.t) && BlkRel(v.r, c.b) && SymRel(v, s, true) ==>
              && v.x.es >= 0 && |v.t.seqToUnseq| == 256 && |v.col| <= v.x.nblockMAX == 100000 * v.r.level <= LARGEST
              && |v.list| == 256 && s.list != [] && s.list[0] == v.t.seqToUnseq[v.list[0]] && s.col == v.col
  {}

  lemma RunEnds(v: View, c: Ctx, s: SymState, uc: byte, es: nat)
    requires Sized(v.t) && BlkRel(v.r, c.b) && SymRel(v, s, true) && es == v.x.es + 1 && s.list != [] && uc == s.list[0]
             && v.x.nextSym > RUNB
    ensures Flushed(s) == v.col + Repeat(uc, es)
    ensures if |v.col| + es <= v.x.nblockMAX then OnSymbol(c, s, v.x.nextSym) == OnSymbol(c, Caught(s), v.x.nextSym)
            else OnSymbol(c, s, v.x.nextSym) == Failed(false)
  {
    hide EnterMtf, Repeat, ListRel, OnColumn, Front;
    var sym, max := v.x.nextSym, MaxBlock(c.b);
    assert Flushed(s) == s.col + Repeat(s.list[0], s.run.es + 1);
    assert |Flushed(s)| == |v.col| + es;
    assert Flushed(Caught(s)) == Flushed(s);
    if |v.col| + es <= v.x.nblockMAX {
      assert SymStep(s, sym, max) == SymStep(Caught(s), sym, max);
    }
  }

  lemma RunCaught(v: View, c: Ctx, s: SymState, w: View)
    requires Sized(v.t) && SymRel(v, s, true) && w == v.(col := Flushed(s)) && |Flushed(s)| <= v.x.nblockMAX
    ensures SymRel(w, Caught(s), false)
  {
    hide ListRel, Flushed;
  }

  lemma SymFacts(v: View, c: Ctx, s: SymState)
    ensures Sized(v.t) && BlkRel(v.r, c.b) && SymRel(v, s, false) ==>
              && |v.col| <= v.x.nblockMAX == 100000 * v.r.level <= LARGEST && v.x.EOB == v.t.nInUse + 1
              && v.x.alphaSize == v.t.nInUse + 2
              && s.run == NoRun && s.col == v.col && SymBase(v, s) && |s.list| == v.t.nInUse && v.t.nInUse <= 256
  {}

  lemma RunBegins(v: View, c: Ctx, s: SymState, y: Locals)
    requires Sized(v.t) && CtxRel(v.t, v.x, c) && SymRel(v, s, false) && y == v.x.(es := -1, N := 1)
    ensures CtxRel(v.t, y, c) && SymBase(v.(x := y), s) && RunSoFar(y, s)
  {
    CtxSame(v.t, v.x, y, c);
    hide ListRel, CtxRel;
  }

  /** A symbol that is neither a run digit nor the end. */
  lemma OtherSymbol(v: View, c: Ctx, s: SymState)
    requires Sized(v.t) && BlkRel(v.r, c.b) && SymRel(v, s, false) && RUNB < v.x.nextSym < v.x.alphaSize
             && v.x.nextSym != v.x.EOB
    ensures v.x.nextSym - 1 < |s.list|
    ensures OnSymbol(c, s, v.x.nextSym) ==
            if |v.col| >= v.x.nblockMAX then Failed(false)
            else EnterMtf(c, SymState(NoRun, Front(s.list, v.x.nextSym - 1), s.col + [s.list[v.x.nextSym - 1]]))
  {
    hide EnterMtf, Front;
    assert Flushed(s) == s.col;
  }

  lemma PlaceFacts(v: View, s: SymState, nn: nat)
    ensures Sized(v.t) && SymRel(v, s, false) && nn < v.t.nInUse ==>
              |s.list| == v.t.nInUse <= 256 && nn < 256 && |v.list| == 256 && |v.t.seqToUnseq| == 256
  {}

  /** Moving a place to the front moves its byte to the front. */
  lemma PlaceMoved(v: View, s: SymState, nn: nat, uc: byte)
    requires Sized(v.t) && SymRel(v, s, false) && nn < v.t.nInUse && uc == v.list[nn]
    ensures ListRel(v.t, Front(v.list, nn), Front(s.list, nn)) && v.t.seqToUnseq[uc] == s.list[nn]
  {
    var n, l, names := v.t.nInUse, v.list, v.t.seqToUnseq;
    assert s.list == Named(l[..n], names);
    assert s.list[nn] == names[l[..n][nn]];
    hide SymRel, Sized, Front, Named;
    FrontOfPrefix(l, nn, n);
    NamedFront(l[..n], names, nn);
  }

  lemma FrontOfPrefix(l: seq<byte>, j: nat, n: nat)
    requires j < n <= |l|
    ensures Front(l, j)[..n] == Front(l[..n], j)
  {
    hide Front;
    forall k: nat | k < n
      ensures Front(l, j)[..n][k] == Front(l[..n], j)[k]
    {
      FrontPlace(l, j, k);
      FrontPlace(l[..n], j, k);
    }
  }

  lemma NamedFront(l: seq<byte>, names: seq<byte>, j: nat)
    requires j < |l| && |names| == 256
    ensures Named(Front(l, j), names) == Front(Named(l, names), j)
  {
    var a, b := Named(Front(l, j), names), Front(Named(l, names), j);
    forall k: nat | k < |l|
      ensures a[k] == b[k]
    {
      FrontPlace(l, j, k);
      FrontPlace(Named(l, names), j, k);
      hide Front, Named;
    }
    hide Front, Named;
  }

  lemma FrontPlace(l: seq<byte>, j: nat, k: nat)
    requires j < |l| && k < |l|
    ensures Front(l, j)[k] == l[if k == 0 then j else if k <= j then k - 1 else k]
  {}

  lemma MovedRel(v: View, s: SymState, nn: nat, uc: byte, w: View)
    requires Sized(v.t) && SymRel(v, s, false) && nn < |s.list| && |v.list| == 256 && nn < 256
             && |v.col| < v.x.nblockMAX
    requires ListRel(v.t, Front(v.list, nn), Front(s.list, nn))
    requires w == v.(list := Front(v.list, nn), col := v.col + [s.list[nn]])
    ensures SymRel(w, SymState(NoRun, Front(s.list, nn), s.col + [s.list[nn]]), false)
  {
    hide ListRel, Front;
  }

  lemma ColumnFacts(v: View, c: Ctx, s: SymState)
    requires Sized(v.t) && BlkRel(v.r, c.b) && SymRel(v, s, false) && v.x.nextSym == v.x.EOB
    ensures |v.col| <= 100000 * v.r.level
    ensures OnSymbol(c, s, v.x.nextSym)
            == (if v.r.origPtr >= |v.col| then Failed(false) else Output(c.b.h, c.b.crc, v.col, v.r.origPtr))
  {
    hide EnterMtf, Front;
    assert |s.list| == v.t.nInUse;
    assert Flushed(s) == s.col;
  }

  lemma ColumnReady(w: View, v: View, c: Ctx, s: SymState)
    requires Sized(v.t) && BlkRel(v.r, c.b) && w == v.(r := v.r.(state := X_OUTPUT))
             && v.r.origPtr < |v.col| <= 100000 * v.r.level
    ensures Ends(w, Ready, Output(c.b.h, c.b.crc, v.col, v.r.origPtr))
  {
    hide Sized, CtxRel, SymRel;
  }

  lemma TablesFacts(v: View, d: D, lens: seq<seq<nat>>)
    requires d.Coding2?
    ensures TablesComplete(v, d, lens) ==>
              && Sized(v.t) && BlkRel(v.r, d.p.b) && LensRel(v.t, v.x, lens) && |lens| == v.x.nGroups
              && 2 <= v.x.nGroups && 0 < v.x.alphaSize
  {}

  /** Everything is ready for the first symbol. */
  lemma FirstSymbol(v: View, w: View, d: D, lens: seq<seq<nat>>)
    requires d.Coding2? && TablesComplete(v, d, lens) && Sized(w.t) && AllTables(w.t, lens, v.x.alphaSize)
    requires w.t == v.t.(limit := w.t.limit, base := w.t.base, perm := w.t.perm, minLens := w.t.minLens) && w.r == v.r
    requires w.x == v.x.(EOB := v.t.nInUse + 1, nblockMAX := 100000 * v.r.level, groupNo := -1, groupPos := 0)
    requires w.list == Identity(256) && w.col == []
    ensures CtxRel(w.t, w.x, Ctx(d.p.b, d.p.sels, lens, 0, 0))
            && SymRel(w, SymState(NoRun, d.p.used, []), InRunLabel(1))
  {
    assert |w.t.seqToUnseq| == 256;
    hide AllTables, LensRel, Identity, Sized;
    NamedIdentity(w.t.seqToUnseq, w.t.nInUse);
  }

  lemma NamedIdentity(names: seq<byte>, n: nat)
    requires |names| == 256 && n <= 256
    ensures Named(Identity(256)[..n], names) == names[..n]
  {
    forall k: nat | k < n
      ensures Named(Identity(256)[..n], names)[k] == names[k]
    {
      IdentityAt(256, k);
    }
  }

  /** At a round of the loop over the bits of a code. */
  ghost predicate AtCode(v: View, c: Ctx, s: SymState) {
    && Sized(v.t) && BlkRel(v.r, c.b) && CtxRel(v.t, v.x, c) && c.g > 0 && v.r.state.X_MTF? && 1 <= v.r.state.k <= 6
    && SymRel(v, s, InRunLabel(v.r.state.k)) && v.x.gMinlen <= v.x.zn
  }

  lemma MtfFacts(v: View, d: D, f: nat)
    ensures Rel(v, d) && d.Mtf? ==>
              AtCode(v.(x := v.x.(zvec := f)), d.c, d.s) && Advance(d, f) == OnCode(d.c, d.s, v.x.zn, f)
  {
    hide OnCode, AllTables;
    if Rel(v, d) && d.Mtf? {
      CtxSame(v.t, v.x, v.x.(zvec := f), d.c);
      SymSame(v, v.x, v.x.(zvec := f), v.r, d.s, InRunLabel(v.r.state.k));
      GroupTable(v.t, v.x, d.c);
    }
  }

  lemma MtfBitFacts(v: View, d: D, f: nat)
    ensures Rel(v, d) && d.MtfBit? ==>
              AtCode(v.(x := v.x.(zvec := 2 * v.x.zvec + f)), d.c, d.s)
              && Advance(d, f) == OnCode(d.c, d.s, v.x.zn, 2 * v.x.zvec + f)
  {
    hide OnCode, AllTables;
    if Rel(v, d) && d.MtfBit? {
      var y := v.x.(zvec := 2 * v.x.zvec + f);
      CtxSame(v.t, v.x, y, d.c);
      SymSame(v, v.x, y, v.r, d.s, InRunLabel(v.r.state.k));
    }
  }

  /** The rows that the open group points to are those of its table. */
  lemma GroupTable(t: Tables, x: Locals, c: Ctx)
    requires Sized(t) && CtxRel(t, x, c) && c.g > 0
    ensures var lens := GroupLens(c);
            && lens != [] && |lens| == x.alphaSize <= MAX_ALPHA_SIZE && LensIn(lens, 1, LONGEST)
            && x.gMinlen == MinLen(lens)
            && TablesFor(x.gLimit, x.gBase, x.gPerm, lens, MinLen(lens), MaxLen(lens))
  {
    hide TablesFor, MinLen, MaxLen, LensIn;
    assert c.lens[c.sels[c.g - 1]] == GroupLens(c);
    assert TableRel(t, c.sels[c.g - 1], GroupLens(c));
  }

  lemma CodeFacts(v: View, c: Ctx, s: SymState)
    ensures AtCode(v, c, s) ==>
              && Sized(v.t) && BlkRel(v.r, c.b) && CtxRel(v.t, v.x, c) && v.r.state.X_MTF?
              && SymRel(v, s, InRunLabel(v.r.state.k))
              && 1 <= v.r.state.k <= 6 && |v.x.gLimit| >= MAX_CODE_LEN && |v.x.gBase| >= MAX_CODE_LEN
              && (v.x.zn > LONGEST ==> OnCode(c, s, v.x.zn, v.x.zvec) == Failed(false))
  {
    hide AllTables, SymRel, OnSymbol;
    if AtCode(v, c, s) { GroupTable(v.t, v.x, c); }
  }

  lemma AnotherBit(v: View, w: View, c: Ctx, s: SymState)
    requires AtCode(v, c, s) && v.x.zn <= LONGEST && |v.x.gLimit| >= MAX_CODE_LEN && v.x.zvec > v.x.gLimit[v.x.zn]
    requires w == v.(x := v.x.(zn := v.x.zn + 1),
                     r := v.r.(state := X_MTF(if v.r.state.k % 2 == 1 then v.r.state.k + 1 else v.r.state.k)))
    ensures Ends(w, Next, OnCode(c, s, v.x.zn, v.x.zvec))
  {
    GroupTable(v.t, v.x, c);
    CtxSame(v.t, v.x, w.x, c);
    SymSame(v, v.x, w.x, w.r, s, InRunLabel(v.r.state.k));
    hide CtxRel, SymRel, TablesFor, Sized, OnSymbol, MinLen, MaxLen, LimitAt;
    LimitIs(v.x, GroupLens(c));
    assert OnCode(c, s, v.x.zn, v.x.zvec) == MtfBit(c, s, v.x.zn + 1, v.x.zvec);
  }

  lemma LimitIs(x: Locals, lens: seq<nat>)
    requires TablesFor(x.gLimit, x.gBase, x.gPerm, lens, MinLen(lens), MaxLen(lens)) && x.zn < MAX_CODE_LEN
    ensures |x.gLimit| >= MAX_CODE_LEN && |x.gBase| >= MAX_CODE_LEN && |x.gPerm| >= |lens|
    ensures x.gLimit[x.zn] == LimitAt(lens, MinLen(lens), MaxLen(lens), x.zn)
    ensures x.gBase[x.zn] == BaseAt(lens, MinLen(lens), MaxLen(lens), x.zn)
    ensures x.gPerm[..|lens|] == Buckets(lens, MinLen(lens), MaxLen(lens) + 1)
  {
    hide LimitAt, BaseAt, Buckets, MinLen, MaxLen;
  }

  /** A complete code: its place is inside the filled part of the table. */
  lemma CodeComplete(v: View, c: Ctx, s: SymState)
    requires AtCode(v, c, s) && v.x.zn <= LONGEST && |v.x.gLimit| >= MAX_CODE_LEN && v.x.zvec <= v.x.gLimit[v.x.zn]
    ensures |v.x.gBase| >= MAX_CODE_LEN && v.x.zvec - v.x.gBase[v.x.zn] < v.x.alphaSize <= |v.x.gPerm|
    ensures v.x.zvec - v.x.gBase[v.x.zn] < 0 || v.x.zvec - v.x.gBase[v.x.zn] >= MAX_ALPHA_SIZE ==>
              OnCode(c, s, v.x.zn, v.x.zvec) == Failed(false)
  {
    GroupTable(v.t, v.x, c);
    hide CtxRel, SymRel, TablesFor, Sized, OnSymbol, MinLen, MaxLen, LimitAt, BaseAt, Buckets;
    LimitIs(v.x, GroupLens(c));
    LookupInRange(GroupLens(c), v.x.zn, v.x.zvec);
  }

  /** The entry at the code's place is the symbol looked up. */
  lemma EntryFound(x: Locals, lens: seq<nat>, place: int)
    requires |lens| <= MAX_ALPHA_SIZE && lens != [] && LensIn(lens, 1, LONGEST) && x.zn <= LONGEST
    requires TablesFor(x.gLimit, x.gBase, x.gPerm, lens, MinLen(lens), MaxLen(lens)) && |x.gLimit| >= MAX_CODE_LEN
             && |x.gBase| >= MAX_CODE_LEN
    requires MinLen(lens) <= x.zn && x.zvec <= x.gLimit[x.zn]
             && 0 <= place == x.zvec - x.gBase[x.zn] < |lens| <= |x.gPerm|
    ensures LookUp(lens, x.zn, x.zvec) == Symbol(x.gPerm[place]) && x.gPerm[place] < |lens|
  {
    hide TablesFor, MinLen, MaxLen, LimitAt, BaseAt, Buckets, LensIn;
    LimitIs(x, lens);
    LookupInRange(lens, x.zn, x.zvec);
    SlotBucket(lens, MinLen(lens), MaxLen(lens) + 1, place);
    assert x.gPerm[place] == x.gPerm[..|lens|][place];
  }

  lemma SymbolFound(v: View, c: Ctx, s: SymState, place: int)
    requires AtCode(v, c, s) && v.x.zn <= LONGEST && |v.x.gLimit| >= MAX_CODE_LEN && v.x.zvec <= v.x.gLimit[v.x.zn]
             && |v.x.gBase| >= MAX_CODE_LEN
    requires 0 <= place == v.x.zvec - v.x.gBase[v.x.zn] < MAX_ALPHA_SIZE && place < v.x.alphaSize <= |v.x.gPerm|
    ensures OnCode(c, s, v.x.zn, v.x.zvec) == OnSymbol(c, s, v.x.gPerm[place]) && v.x.gPerm[place] < v.x.alphaSize
    ensures var y := v.x.(nextSym := v.x.gPerm[place]);
            CtxRel(v.t, y, c) && SymRel(v.(x := y), s, InRunLabel(v.r.state.k))
  {
    hide CtxRel, SymRel, TablesFor, Sized, OnSymbol, MinLen, MaxLen, LensIn, BlkRel;
    var y := v.x.(nextSym := v.x.gPerm[place]);
    GroupTable(v.t, v.x, c);
    EntryFound(v.x, GroupLens(c), place);
    CtxSame(v.t, v.x, y, c);
    SymSame(v, v.x, y, v.r, s, InRunLabel(v.r.state.k));
  }

  lemma RunOn(v: View, s: SymState)
    ensures Sized(v.t) && SymRel(v, s, true) ==> SymBase(v, s) && RunSoFar(v.x, s)
  {
    hide ListRel;
  }

  lemma UsedNone(u: seq<bool>)
    ensures u[..0] == [] && Used([]) == []
  {}

  lemma UsedMore(u: seq<bool>, i: nat)
    requires i < |u| <= 256
    ensures Used(u[..i + 1]) == Used(u[..i]) + if u[i] then [i] else []
  {
    assert u[..i + 1][..i] == u[..i];
  }

  lemma {:induction false} FalsesSplit(m: nat, n: nat)
    ensures Falses(m + n) == Falses(m) + Falses(n)
  {}

  /** A group without bytes in use. */
  lemma SkipGroup(d: seq<bool>, i: nat)
    requires i < 16 && |d| == 16 * i
    ensures d + Falses(256 - 16 * i) == d + NoGroup() + Falses(256 - 16 * (i + 1))
  {
    FalsesSplit(16, 256 - 16 * (i + 1));
    assert Falses(16) == NoGroup();
  }

  /** One flag of the present group. */
  lemma FlagIn(done: seq<bool>, cur: seq<bool>, f: bool)
    requires |done| + |cur| < 256
    ensures var n := 256 - |done| - |cur|;
            (if f then (done + cur + Falses(n))[|done| + |cur| := true] else done + cur + Falses(n))
            == done + (cur + [f]) + Falses(n - 1)
  {}

  /** A byte shifted into a register that has room for it. */
  lemma ShiftedIn(acc: nat, v: nat, i: nat)
    requires acc < Pow2(8 * i) && i <= 3 && v < 256
    ensures Or(acc * 256 % 0x1_0000_0000, v) == Shift8(acc, v) < Pow2(8 * (i + 1))
  {
    hide Or, Pow2;
    Pow2Values();
    Pow2Mono(8 * i, 24);
    Pow2Add(8 * i, 8);
    OrByteIn(acc, v);
  }

  lemma OrByteIn(a: nat, v: nat)
    requires v < 256
    ensures Or(a * 256, v) == a * 256 + v
  {
    hide Or;
    assert Pow2(8) == 256 by { Pow2Values(); }
    DivModUnique(a * 256, 256, a, 0);
    OrDisjoint(a * 256, v, 8);
  }
}
