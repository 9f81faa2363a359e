/**
 The decoder's registers: its labels, the locals kept in the save area, its tables; and which state of the automaton
 they stand for.
*/
module DecoderRegs {
  import opened Bits
  import opened Crc
  import opened Occurrences
  import opened Huffman
  import opened HuffmanTables
  import opened MoveToFront
  import opened StreamFormat
  import opened Decoder

  /** The BZ_X states; numbered ones count from 1 as in their names. */
  datatype Label =
    | X_IDLE | X_OUTPUT
    | X_MAGIC(k: nat) | X_BLKHDR(k: nat) | X_BCRC(k: nat) | X_RANDBIT | X_ORIGPTR(k: nat)
    | X_MAPPING_1 | X_MAPPING_2
    | X_SELECTOR_1 | X_SELECTOR_2 | X_SELECTOR_3
    | X_CODING_1 | X_CODING_2 | X_CODING_3
    | X_MTF(k: nat)
    | X_ENDHDR(k: nat) | X_CCRC(k: nat)

  /** The locals of BZ2_decompress that live across its returns; gLimit, gBase and gPerm are the rows they point to. */
  datatype Locals = Locals(i: nat, j: nat, t: nat, alphaSize: nat, nGroups: nat, nSelectors: nat, EOB: nat,
                           groupNo: int, groupPos: nat,
                           nextSym: nat, nblockMAX: nat, es: int, N: nat, curr: int, zn: nat, zvec: nat,
                           gSel: nat, gMinlen: nat, gLimit: seq<int>, gBase: seq<int>, gPerm: seq<nat>)

  /** The decoder's tables. */
  datatype Tables = Tables(inUse16: seq<bool>, inUse: seq<bool>, nInUse: nat, seqToUnseq: seq<byte>,
                           selectorMtf: seq<byte>, selector: seq<byte>,
                           len: seq<seq<nat>>, limit: seq<seq<int>>, base: seq<seq<int>>, perm: seq<seq<nat>>,
                           minLens: seq<nat>)

  /** Its other registers that are not locals. */
  datatype Regs = Regs(state: Label, level: nat, combined: word, storedBlockCRC: nat, storedCombinedCRC: nat,
                       origPtr: nat)

  /** Everything, with the move-to-front list and the column so far. */
  datatype View = View(r: Regs, t: Tables, x: Locals, list: seq<byte>, col: seq<byte>)

  /** The sizes of the tables, which never change. */
  ghost predicate Sized(t: Tables) {
    && |t.inUse16| == 16 && |t.inUse| == 256 && |t.seqToUnseq| == 256
    && |t.selectorMtf| == |t.selector| == MAX_SELECTORS
    && |t.len| == |t.limit| == |t.base| == |t.perm| == |t.minLens| == N_GROUPS
    && (forall k :: 0 <= k < N_GROUPS ==> |t.len[k]| == MAX_ALPHA_SIZE)
  }

  ghost predicate HdrRel(r: Regs, h: Hdr) {
    1 <= r.level <= 9 && r.level == h.level && r.combined == h.combined
  }

  ghost predicate BlkRel(r: Regs, b: Blk) {
    HdrRel(r, b.h) && r.storedBlockCRC == b.crc && r.origPtr == b.origPtr
  }

  /** The bytes in use. */
  ghost predicate UsedRel(t: Tables, x: Locals, used: seq<byte>)
    requires Sized(t)
  {
    1 <= t.nInUse == |used| <= 256 && t.seqToUnseq[..t.nInUse] == used && x.alphaSize == t.nInUse + 2
  }

  /** The selectors. */
  ghost predicate SelsRel(t: Tables, x: Locals, sels: seq<byte>, nGroups: nat)
    requires Sized(t)
  {
    && x.nSelectors == |sels| <= MAX_SELECTORS && t.selector[..x.nSelectors] == sels
    && 2 <= nGroups <= N_GROUPS && (forall k :: 0 <= k < |sels| ==> sels[k] < nGroups)
  }

  ghost predicate PreRel(t: Tables, x: Locals, p: Pre)
    requires Sized(t)
  {
    UsedRel(t, x, p.used) && x.nGroups == p.nGroups && SelsRel(t, x, p.sels, p.nGroups)
  }

  /** The first tables of code lengths. */
  ghost predicate LensRel(t: Tables, x: Locals, lens: seq<seq<nat>>)
    requires Sized(t)
  {
    && |lens| <= N_GROUPS && x.alphaSize <= MAX_ALPHA_SIZE
    && forall k :: 0 <= k < |lens| ==> lens[k] == t.len[k][..x.alphaSize] && LensIn(lens[k], 1, LONGEST)
  }

  /** The decode tables of table k. */
  ghost predicate TableRel(t: Tables, k: nat, lens: seq<nat>)
    requires Sized(t) && k < N_GROUPS
  {
    && lens != [] && LensIn(lens, 1, LONGEST) && t.minLens[k] == MinLen(lens)
    && TablesFor(t.limit[k], t.base[k], t.perm[k], lens, MinLen(lens), MaxLen(lens))
  }

  ghost predicate AllTables(t: Tables, lens: seq<seq<nat>>, alphaSize: nat)
    requires Sized(t)
  {
    && 2 <= |lens| <= N_GROUPS && alphaSize <= MAX_ALPHA_SIZE
    && forall k :: 0 <= k < |lens| ==> |lens[k]| == alphaSize && TableRel(t, k, lens[k])
  }

  /** The open group and its table. */
  ghost predicate GroupRel(t: Tables, x: Locals, c: Ctx)
    requires Sized(t)
  {
    && c.g <= |c.sels| && x.groupNo == c.g - 1 && x.groupPos == c.pos <= G_SIZE
    && (c.g == 0 ==> c.pos == 0)
    && (0 < c.g ==>
          && x.gSel == c.sels[c.g - 1] < N_GROUPS && x.gMinlen == t.minLens[x.gSel]
          && x.gLimit == t.limit[x.gSel] && x.gBase == t.base[x.gSel] && x.gPerm == t.perm[x.gSel])
  }

  /** The tables, the selectors, and where they have come to. */
  ghost predicate CtxRel(t: Tables, x: Locals, c: Ctx)
    requires Sized(t)
  {
    SelsRel(t, x, c.sels, |c.lens|) && AllTables(t, c.lens, x.alphaSize) && GroupRel(t, x, c)
  }

  /** The bytes that a list of places stands for. */
  function Named(list: seq<byte>, names: seq<byte>): (l: seq<byte>)
    requires forall k :: 0 <= k < |list| ==> list[k] < |names|
    ensures |l| == |list| && forall k :: 0 <= k < |list| ==> l[k] == names[list[k]]
  {
    if list == [] then [] else Named(list[..|list| - 1], names) + [names[list[|list| - 1]]]
  }

  /** The list and the column so far. */
  ghost predicate SymBase(v: View, s: SymState)
    requires Sized(v.t)
  {
    && ListRel(v.t, v.list, s.list) && v.x.EOB == v.t.nInUse + 1 && v.x.alphaSize == v.t.nInUse + 2
    && v.x.nblockMAX == 100000 * v.r.level && s.col == v.col && |v.col| <= v.x.nblockMAX
  }

  /** With the run being read. */
  ghost predicate SymRel(v: View, s: SymState, running: bool)
    requires Sized(v.t)
  {
    SymBase(v, s) && if running then s.run == Run(v.x.es, v.x.N) && v.x.es >= 0 && v.x.N >= 1 else s.run == NoRun
  }

  ghost predicate ListRel(t: Tables, list: seq<byte>, l: seq<byte>)
    requires Sized(t)
  {
    |list| == 256 && 1 <= t.nInUse <= 256 && l == Named(list[..t.nInUse], t.seqToUnseq)
  }

  /** Whether the label is one of the two inside the loop over run digits. */
  predicate InRunLabel(k: nat) {
    k == 3 || k == 4
  }

  /** The states before the byte map, and those after the last block. */
  predicate IsHead(d: D) {
    d.Magic? || d.BlkHdr? || d.Bcrc? || d.RandBit? || d.OrigPtr? || d.EndHdr? || d.Ccrc?
  }

  ghost predicate HeadRel(r: Regs, d: D) {
    match d
    case Magic(i) => r.state == X_MAGIC(i + 1) && i < 4 && r.combined == 0
    case BlkHdr(h, i) => r.state == X_BLKHDR(i + 1) && i < 6 && HdrRel(r, h)
    case Bcrc(h, i, acc) => r.state == X_BCRC(i + 1) && i < 4 && HdrRel(r, h) && r.storedBlockCRC == acc < Pow2(8 * i)
    case RandBit(h, crc) => r.state == X_RANDBIT && HdrRel(r, h) && r.storedBlockCRC == crc
    case OrigPtr(h, crc, i, acc) =>
      r.state == X_ORIGPTR(i + 1) && i < 3 && HdrRel(r, h) && r.storedBlockCRC == crc && r.origPtr == acc < Pow2(8 * i)
    case EndHdr(h, i) => r.state == X_ENDHDR(i + 1) && 1 <= i < 6 && HdrRel(r, h)
    case Ccrc(h, i, acc) => r.state == X_CCRC(i + 1) && i < 4 && HdrRel(r, h)
                            && r.storedCombinedCRC == acc < Pow2(8 * i)
    case _ => false
  }

  ghost predicate Rel(v: View, d: D) {
    Sized(v.t) && if IsHead(d) then HeadRel(v.r, d) else
    match d
    case Mapping1(b, in16) => v.r.state == X_MAPPING_1 && BlkRel(v.r, b) && v.x.i == |in16| < 16
                              && v.t.inUse16[..v.x.i] == in16
    case Mapping2(b, in16, i, done, cur) => v.r.state == X_MAPPING_2 && BlkRel(v.r, b)
                                            && MapRel(v.t, v.x, in16, i, done, cur)
    case Selector1(b, used) => v.r.state == X_SELECTOR_1 && BlkRel(v.r, b) && UsedRel(v.t, v.x, used)
    case Selector2(b, used, nGroups) =>
      v.r.state == X_SELECTOR_2 && BlkRel(v.r, b) && UsedRel(v.t, v.x, used) && 2 <= v.x.nGroups == nGroups <= N_GROUPS
    case Selector3(b, used, nGroups, nSel, i, js, j) =>
      && v.r.state == X_SELECTOR_3 && BlkRel(v.r, b) && UsedRel(v.t, v.x, used)
      && 2 <= v.x.nGroups == nGroups <= N_GROUPS
      && v.x.nSelectors == nSel && v.x.i == i < nSel && v.x.j == j < nGroups && SelectorsRead(v.t, js, i, nGroups)
    case Coding1(p, lens) => v.r.state == X_CODING_1 && BlkRel(v.r, p.b) && PreRel(v.t, v.x, p)
                             && LensRel(v.t, v.x, lens) && v.x.t == |lens| < p.nGroups
    case Coding2(p, lens, lenT, curr) => v.r.state == X_CODING_2 && BlkRel(v.r, p.b)
                                         && CodingRel(v.t, v.x, p, lens, lenT, curr)
    case Coding3(p, lens, lenT, curr) => v.r.state == X_CODING_3 && BlkRel(v.r, p.b)
                                         && CodingRel(v.t, v.x, p, lens, lenT, curr)
    case Mtf(c, s) =>
      && v.r.state.X_MTF? && v.r.state.k in {1, 3, 5} && BlkRel(v.r, c.b) && CtxRel(v.t, v.x, c) && c.g > 0
      && v.x.zn == v.x.gMinlen
      && SymRel(v, s, InRunLabel(v.r.state.k))
    case MtfBit(c, s, zn, zvec) =>
      && v.r.state.X_MTF? && v.r.state.k in {2, 4, 6} && BlkRel(v.r, c.b) && CtxRel(v.t, v.x, c) && c.g > 0
      && v.x.gMinlen < v.x.zn == zn && v.x.zvec == zvec && SymRel(v, s, InRunLabel(v.r.state.k))
    case Output(h, crc, col, orig) =>
      && v.r.state == X_OUTPUT && HdrRel(v.r, h) && v.r.storedBlockCRC == crc && v.col == col
      && v.r.origPtr == orig < |col| <= 100000 * h.level
    case Idle => v.r.state == X_IDLE
    case _ => false
  }

  /** The byte map being read: done groups, and the flags so far of the present one. */
  ghost predicate MapRel(t: Tables, x: Locals, in16: seq<bool>, i: nat, done: seq<bool>, cur: seq<bool>)
    requires Sized(t)
  {
    && t.inUse16 == in16 && x.i == i < 16 && x.j == |cur| < 16 && in16[i]
    && |done| == 16 * i && t.inUse == done + cur + Falses(256 - |done| - |cur|)
  }

  ghost predicate SelectorsRead(t: Tables, js: seq<nat>, i: nat, nGroups: nat)
    requires Sized(t)
  {
    |js| == Least(i, MAX_SELECTORS) && t.selectorMtf[..|js|] == js && forall k :: 0 <= k < |js| ==> js[k] < nGroups
  }

  /** A table of code lengths being read. */
  ghost predicate CodingRel(t: Tables, x: Locals, p: Pre, lens: seq<seq<nat>>, lenT: seq<nat>, curr: nat)
    requires Sized(t)
  {
    && PreRel(t, x, p) && LensRel(t, x, lens) && x.t == |lens| < p.nGroups && x.i == |lenT| < x.alphaSize
    && t.len[x.t][..x.i] == lenT && LensIn(lenT, 1, LONGEST) && x.curr == curr && 1 <= curr <= LONGEST
  }

  function Least(a: nat, b: nat): nat {
    if a < b then a else b
  }

  function Falses(n: nat): (f: seq<bool>)
    ensures |f| == n && forall k :: 0 <= k < n ==> !f[k]
  {
    if n == 0 then [] else Falses(n - 1) + [false]
  }
}
