/** The decoder's move-to-front list, as sixteen chunks of sixteen bytes drifting down an arena of 4096. */
module MtfArena {
  import opened Bits
  import opened MoveToFront
  import opened StreamFormat

  const MTFA_SIZE := 4096
  const MTFL_SIZE := 16

  /** n bytes of a from p on are those of l from q on. */
  ghost predicate Same(a: seq<byte>, p: int, l: seq<byte>, q: int, n: nat) {
    0 <= p && p + n <= |a| && 0 <= q && q + n <= |l| && a[p..p + n] == l[q..q + n]
  }

  /** The chunks lie in order, apart, inside the arena. */
  ghost predicate Ordered(base: seq<int>) {
    && |base| == 16 && 0 <= base[0] && base[15] + 16 <= MTFA_SIZE
    && forall i :: 0 <= i < 15 ==> base[i] + 16 <= base[i + 1]
  }

  /** Together they are the list. */
  ghost predicate Placed(a: seq<byte>, base: seq<int>, l: seq<byte>) {
    |a| == MTFA_SIZE && |l| == 256 && Ordered(base) && forall i :: 0 <= i < 16 ==> Same(a, base[i], l, 16 * i, 16)
  }

  /** Between moves there is room below the first chunk. */
  ghost predicate Holds(a: seq<byte>, base: seq<int>, l: seq<byte>) {
    Placed(a, base, l) && base[0] > 0
  }

  lemma {:induction false} OrderedBounds(base: seq<int>, i: nat)
    requires Ordered(base) && i < 16
    ensures 16 * i <= base[i]
    decreases i
  {
    if i > 0 {
      OrderedBounds(base, i - 1);
      assert base[i - 1] + 16 <= base[i - 1 + 1];
    }
  }

  lemma {:induction false} OrderedTops(base: seq<int>, i: nat)
    requires Ordered(base) && i < 16
    ensures base[i] <= 3840 + 16 * i
    decreases 16 - i
  {
    if i < 15 { OrderedTops(base, i + 1); }
  }

  lemma {:induction false} OrderedApart(base: seq<int>, i: nat, k: nat)
    requires Ordered(base) && i < k < 16
    ensures base[i] + 16 <= base[k]
    decreases k
  {
    assert base[k - 1] + 16 <= base[k - 1 + 1];
    if i < k - 1 { OrderedApart(base, i, k - 1); }
  }

  /** Writing outside a stretch leaves it as it was. */
  lemma WriteOutside(a: seq<byte>, k: int, v: byte, p: int, l: seq<byte>, q: int, n: nat)
    requires Same(a, p, l, q, n) && 0 <= k < |a| && !(p <= k < p + n)
    ensures Same(a[k := v], p, l, q, n)
  {
    var b := a[k := v];
    assert b[p..p + n] == a[p..p + n];
  }

  // ---------- the general case ----------

  /**
   In the middle of a move: chunks above m hold the new list, chunk m all of it but its first byte, those below the
   old list.
  */
  ghost predicate Shifting(a: seq<byte>, base: seq<int>, l: seq<byte>, nl: seq<byte>, m: int) {
    && |a| == MTFA_SIZE && |base| == 16 && |l| == |nl| == 256 && 0 <= m < 16
    && 0 < base[0] && (m < 15 ==> base[15] + 16 <= MTFA_SIZE) && (m == 15 ==> base[15] + 15 <= MTFA_SIZE)
    && (forall i :: 0 <= i < 15 && i != m ==> base[i] + 16 <= base[i + 1])
    && (m < 15 ==> base[m] + 15 <= base[m + 1])
    && (forall i :: m < i < 16 ==> Same(a, base[i], nl, 16 * i, 16))
    && Same(a, base[m], nl, 16 * m + 1, 15)
    && (forall i :: 0 <= i < m ==> Same(a, base[i], l, 16 * i, 16))
  }

  /** nl is l with its nn-th byte in front. */
  ghost predicate Fronted(l: seq<byte>, nl: seq<byte>, nn: nat) {
    |l| == |nl| == 256 && nn < 256 && nl[0] == l[nn] && nl[1..nn + 1] == l[..nn] && nl[nn + 1..] == l[nn + 1..]
  }

  lemma FrontFronted(l: seq<byte>, nn: nat)
    requires |l| == 256 && nn < 256
    ensures Fronted(l, Front(l, nn), nn)
  {}

  /** One round of the loop over the chunks below. */
  lemma ShiftStep(a: seq<byte>, base: seq<int>, l: seq<byte>, nl: seq<byte>, m: nat, nn: nat)
    requires Shifting(a, base, l, nl, m) && m > 0 && Fronted(l, nl, nn) && 16 * m <= nn
    ensures 0 <= base[m] - 1 < |a| && 0 <= base[m - 1] + 15 < |a|
    ensures Shifting(a[base[m] - 1 := a[base[m - 1] + 15]], base[m := base[m] - 1], l, nl, m - 1)
  {
    var k, v := base[m] - 1, a[base[m - 1] + 15];
    var b, base' := a[k := v], base[m := base[m] - 1];
    assert base[m - 1] + 16 <= base[m - 1 + 1];
    assert Same(a, base[m - 1], l, 16 * (m - 1), 16);
    assert v == a[base[m - 1]..base[m - 1] + 16][15] == l[16 * (m - 1)..16 * (m - 1) + 16][15] == l[16 * m - 1];
    assert v == nl[1..nn + 1][16 * m - 1] == nl[16 * m];
    Extends(a, k, v, nl, 16 * m);
    ShiftOthers(a, base, l, nl, m, k, v);
    LosesLast(a, k, v, base[m - 1], l, nl, 16 * (m - 1), nn);
  }

  /** All but the last byte of the chunk below, seen one place further along. */
  lemma LosesLast(a: seq<byte>, k: int, v: byte, p: int, l: seq<byte>, nl: seq<byte>, q: nat, nn: nat)
    requires Same(a, p, l, q, 16) && p + 15 <= k < |a| && Fronted(l, nl, nn) && q + 16 <= nn
    ensures Same(a[k := v], p, nl, q + 1, 15)
  {
    var b := a[k := v];
    assert b[p..p + 15] == a[p..p + 16][..15];
    assert l[q..q + 16][..15] == l[..nn][q..q + 15];
    SliceOfSlice(nl, nn, q);
  }

  lemma SliceOfSlice(nl: seq<byte>, nn: nat, q: nat)
    requires q + 16 <= nn < |nl|
    ensures nl[1..nn + 1][q..q + 15] == nl[q + 1..q + 16]
  {
    var w, v := nl[1..nn + 1][q..q + 15], nl[q + 1..q + 16];
    forall j | 0 <= j < 15
      ensures w[j] == v[j]
    {
    }
  }

  lemma Extends(a: seq<byte>, k: int, v: byte, nl: seq<byte>, q: int)
    requires 0 <= k && Same(a, k + 1, nl, q + 1, 15) && 0 <= q && v == nl[q]
    ensures Same(a[k := v], k, nl, q, 16)
  {
    var b := a[k := v];
    assert b[k..k + 16] == [v] + a[k + 1..k + 16];
    assert nl[q..q + 16] == [nl[q]] + nl[q + 1..q + 16];
  }

  lemma ShiftOthers(a: seq<byte>, base: seq<int>, l: seq<byte>, nl: seq<byte>, m: nat, k: int, v: byte)
    requires Shifting(a, base, l, nl, m) && m > 0 && k == base[m] - 1 && 0 <= k < |a|
    ensures forall i :: m < i < 16 ==> Same(a[k := v], base[i], nl, 16 * i, 16)
    ensures forall i :: 0 <= i < m - 1 ==> Same(a[k := v], base[i], l, 16 * i, 16)
  {
    forall i | m < i < 16
      ensures Same(a[k := v], base[i], nl, 16 * i, 16)
    {
      ChunksAbove(base, m, i);
      WriteOutside(a, k, v, base[i], nl, 16 * i, 16);
    }
    forall i | 0 <= i < m - 1
      ensures Same(a[k := v], base[i], l, 16 * i, 16)
    {
      ChunksBelow(base, m - 1, i);
      assert base[m - 1] + 16 <= base[m - 1 + 1];
      WriteOutside(a, k, v, base[i], l, 16 * i, 16);
    }
  }

  lemma {:induction false} ChunksAbove(base: seq<int>, m: nat, i: nat)
    requires |base| == 16 && m < i < 16 && base[m] + 15 <= base[m + 1]
             && forall k :: 0 <= k < 15 && k != m ==> base[k] + 16 <= base[k + 1]
    ensures base[m] + 15 <= base[i]
    decreases i
  {
    if i > m + 1 {
      ChunksAbove(base, m, i - 1);
      assert base[i - 1] + 16 <= base[i - 1 + 1];
    }
  }

  lemma {:induction false} ChunksBelow(base: seq<int>, m: nat, i: nat)
    requires |base| == 16 && i < m < 16 && forall k :: 0 <= k < m ==> base[k] + 16 <= base[k + 1]
    ensures base[i] + 16 <= base[m]
    decreases m - i
  {
    assert base[i] + 16 <= base[i + 1];
    if i + 1 < m { ChunksBelow(base, m, i + 1); }
  }

  /** The move begins: chunk m = nn / 16 has moved its bytes before the nn-th up by one. */
  lemma ShiftStart(a: seq<byte>, b: seq<byte>, base: seq<int>, l: seq<byte>, nl: seq<byte>, m: nat, nn: nat)
    requires Holds(a, base, l) && Fronted(l, nl, nn) && m == nn / 16 && 0 < m
    requires |b| == |a| && base[m] + nn % 16 < |a|
    requires b[..base[m] + 1] == a[..base[m] + 1]
    requires b[base[m] + 1..base[m] + nn % 16 + 1] == a[base[m]..base[m] + nn % 16]
    requires b[base[m] + nn % 16 + 1..] == a[base[m] + nn % 16 + 1..]
    ensures Shifting(b, base[m := base[m] + 1], l, nl, m)
  {
    var p, off := base[m], nn % 16;
    assert Same(a, p, l, 16 * m, 16);
    ChunkShifted(a, b, p, l, nl, 16 * m, off, nn);
    forall i | m < i < 16
      ensures Same(b, base[i], nl, 16 * i, 16)
    {
      OrderedApart(base, m, i);
      assert Same(a, base[i], l, 16 * i, 16);
      FarAbove(a, b, p + off + 1, base[i], l, nl, 16 * i, nn);
    }
    forall i | 0 <= i < m
      ensures Same(b, base[i], l, 16 * i, 16)
    {
      OrderedApart(base, i, m);
      assert Same(a, base[i], l, 16 * i, 16);
      FarBelow(a, b, p + 1, base[i], l, 16 * i);
    }
    if m < 15 { OrderedApart(base, m, m + 1); }
  }

  lemma ChunkShifted(a: seq<byte>, b: seq<byte>, p: int, l: seq<byte>, nl: seq<byte>, q: nat, off: nat, nn: nat)
    requires Same(a, p, l, q, 16) && Fronted(l, nl, nn) && q + off == nn && off < 16 && |b| == |a|
    requires b[p + 1..p + off + 1] == a[p..p + off] && b[p + off + 1..] == a[p + off + 1..]
    ensures Same(b, p + 1, nl, q + 1, 15)
  {
    var rest := 15 - off;
    assert b[p + 1..p + 16] == b[p + 1..p + off + 1] + b[p + off + 1..][..rest];
    assert a[p..p + off] == a[p..p + 16][..off] && a[p + off + 1..][..rest] == a[p..p + 16][off + 1..];
    assert l[q..q + 16][..off] == l[..nn][q..] && l[q..q + 16][off + 1..] == l[nn + 1..][..rest];
    assert nl[q + 1..q + 16] == nl[1..nn + 1][q..] + nl[nn + 1..][..rest];
  }

  lemma FarAbove(a: seq<byte>, b: seq<byte>, from: int, p: int, l: seq<byte>, nl: seq<byte>, q: nat, nn: nat)
    requires Same(a, p, l, q, 16) && 0 <= from <= p && |b| == |a| && b[from..] == a[from..] && Fronted(l, nl, nn)
             && q > nn
    ensures Same(b, p, nl, q, 16)
  {
    assert b[p..p + 16] == b[from..][p - from..p - from + 16] && a[p..p + 16] == a[from..][p - from..p - from + 16];
    assert nl[q..q + 16] == nl[nn + 1..][q - nn - 1..q - nn + 15]
           && l[q..q + 16] == l[nn + 1..][q - nn - 1..q - nn + 15];
  }

  lemma FarBelow(a: seq<byte>, b: seq<byte>, to: int, p: int, l: seq<byte>, q: nat)
    requires Same(a, p, l, q, 16) && p + 16 <= to <= |a| && |b| == |a| && b[..to] == a[..to]
    ensures Same(b, p, l, q, 16)
  {
    assert b[p..p + 16] == b[..to][p..p + 16] && a[p..p + 16] == a[..to][p..p + 16];
  }

  /** The move ends: the byte goes in front. */
  lemma ShiftEnd(a: seq<byte>, base: seq<int>, l: seq<byte>, nl: seq<byte>)
    requires Shifting(a, base, l, nl, 0) && base[0] >= 1
    ensures base[0] - 1 < |a| && Placed(a[base[0] - 1 := nl[0]], base[0 := base[0] - 1], nl)
  {
    var k := base[0] - 1;
    Extends(a, k, nl[0], nl, 0);
    forall i | 1 <= i < 16
      ensures Same(a[k := nl[0]], base[i], nl, 16 * i, 16)
    {
      ChunksAbove(base, 0, i);
      WriteOutside(a, k, nl[0], base[i], nl, 16 * i, 16);
    }
  }

  // ---------- starting over at the top ----------

  /**
   In the middle of the compaction: chunks above i are at their places at the top, those from i down are where they
   were.
  */
  ghost predicate Compacting(a: seq<byte>, base: seq<int>, l: seq<byte>, i: int) {
    && |a| == MTFA_SIZE && |l| == 256 && |base| == 16 && -1 <= i < 16
    && (forall k :: i < k < 16 ==> base[k] == 3840 + 16 * k && Same(a, 3840 + 16 * k, l, 16 * k, 16))
    && (forall k :: 0 <= k <= i ==> 16 * k <= base[k] <= 3840 + 16 * k && Same(a, base[k], l, 16 * k, 16))
    && (forall k :: 0 <= k < i ==> base[k] + 16 <= base[k + 1])
  }

  lemma CompactStart(a: seq<byte>, base: seq<int>, l: seq<byte>)
    requires Placed(a, base, l)
    ensures Compacting(a, base, l, 15)
  {
    forall k | 0 <= k < 16
      ensures 16 * k <= base[k] <= 3840 + 16 * k
    {
      OrderedBounds(base, k);
      OrderedTops(base, k);
    }
  }

  lemma CompactEnd(a: seq<byte>, base: seq<int>, l: seq<byte>)
    requires Compacting(a, base, l, -1)
    ensures Holds(a, base, l)
  {}

  /** The compaction of chunk i: from b's top down, j bytes are still to be moved. */
  lemma CompactChunk(a: seq<byte>, b: seq<byte>, base: seq<int>, l: seq<byte>, i: nat)
    requires Compacting(a, base, l, i) && |b| == |a|
    requires b[..3840 + 16 * i] == a[..3840 + 16 * i] && b[3840 + 16 * i + 16..] == a[3840 + 16 * i + 16..]
    requires b[3840 + 16 * i..3840 + 16 * i + 16] == a[base[i]..base[i] + 16]
    ensures Compacting(b, base[i := 3840 + 16 * i], l, i - 1)
  {
    var top := 3840 + 16 * i;
    assert Same(a, base[i], l, 16 * i, 16);
    forall k | i < k < 16
      ensures Same(b, 3840 + 16 * k, l, 16 * k, 16)
    {
      assert Same(a, 3840 + 16 * k, l, 16 * k, 16);
      SuffixSame(a, b, top + 16, 3840 + 16 * k, l, 16 * k);
    }
    forall k | 0 <= k < i
      ensures Same(b, base[k], l, 16 * k, 16)
    {
      assert base[k] <= 3840 + 16 * k;
      assert Same(a, base[k], l, 16 * k, 16);
      FarBelow(a, b, top, base[k], l, 16 * k);
    }
  }

  lemma SuffixSame(a: seq<byte>, b: seq<byte>, from: int, p: int, l: seq<byte>, q: nat)
    requires Same(a, p, l, q, 16) && 0 <= from <= p && |b| == |a| && b[from..] == a[from..]
    ensures Same(b, p, l, q, 16)
  {
    assert b[p..p + 16] == b[from..][p - from..p - from + 16] && a[p..p + 16] == a[from..][p - from..p - from + 16];
  }

  // ---------- the first chunk alone ----------

  /** A move within the first chunk. */
  lemma NearMove(a: seq<byte>, b: seq<byte>, base: seq<int>, l: seq<byte>, nl: seq<byte>, nn: nat)
    requires Holds(a, base, l) && nn < 16 && Fronted(l, nl, nn)
    requires |b| == |a| && b[..base[0]] == a[..base[0]] && b[base[0] + nn + 1..] == a[base[0] + nn + 1..]
    requires b[base[0]] == a[base[0] + nn] && b[base[0] + 1..base[0] + nn + 1] == a[base[0]..base[0] + nn]
    ensures Holds(b, base, nl) && a[base[0] + nn] == l[nn]
  {
    var p := base[0];
    assert Same(a, p, l, 0, 16);
    assert a[p + nn] == a[p..p + 16][nn] == l[0..16][nn];
    ChunkShifted(a, b, p, l, nl, 0, nn, nn);
    assert b[p..p + 16] == [b[p]] + b[p + 1..p + 16] && nl[0..16] == [nl[0]] + nl[1..16];
    forall i | 0 < i < 16
      ensures Same(b, base[i], nl, 16 * i, 16)
    {
      OrderedApart(base, 0, i);
      assert Same(a, base[i], l, 16 * i, 16);
      FarAbove(a, b, p + nn + 1, base[i], l, nl, 16 * i, nn);
    }
  }

  // ---------- moving a stretch up by one ----------

  /** b is a with the bytes from p + n up to p + top moved up by one, except that those below are still to be moved. */
  ghost predicate MovedUp(a: seq<byte>, b: seq<byte>, p: int, n: int, top: int) {
    && |a| == |b| && 0 <= p && 0 <= n <= top && p + top < |a|
    && b[..p + n + 1] == a[..p + n + 1] && b[p + n + 1..p + top + 1] == a[p + n..p + top]
    && b[p + top + 1..] == a[p + top + 1..]
  }

  lemma MovedUpStart(a: seq<byte>, p: int, top: int)
    requires 0 <= p && 0 <= top && p + top < |a|
    ensures MovedUp(a, a, p, top, top)
  {}

  lemma MovedUpStep(a: seq<byte>, b: seq<byte>, p: int, n: int, top: int)
    requires MovedUp(a, b, p, n, top) && n > 0
    ensures MovedUp(a, b[p + n := b[p + n - 1]], p, n - 1, top)
  {
    var c := b[p + n := b[p + n - 1]];
    assert b[p + n - 1] == b[..p + n + 1][p + n - 1] == a[p + n - 1];
    assert c[..p + n] == b[..p + n + 1][..p + n] && a[..p + n] == a[..p + n + 1][..p + n];
    assert c[p + n..p + top + 1] == [c[p + n]] + b[p + n + 1..p + top + 1];
    assert a[p + n - 1..p + top] == [a[p + n - 1]] + a[p + n..p + top];
    assert c[p + top + 1..] == b[p + top + 1..];
  }

  lemma MovedUpDone(a: seq<byte>, b: seq<byte>, p: int, top: int)
    requires MovedUp(a, b, p, 0, top)
    ensures b[..p + 1] == a[..p + 1] && b[p + 1..p + top + 1] == a[p..p + top] && b[p + top + 1..] == a[p + top + 1..]
  {}

  /** With the byte put in the gap. */
  lemma NearDone(a: seq<byte>, b: seq<byte>, base: seq<int>, l: seq<byte>, nn: nat)
    requires Holds(a, base, l) && nn < 16 && MovedUp(a, b, base[0], 0, nn)
    ensures base[0] + nn < |a| && a[base[0] + nn] == l[nn] && Holds(b[base[0] := a[base[0] + nn]], base, Front(l, nn))
  {
    var p := base[0];
    var c := b[p := a[p + nn]];
    MovedUpDone(a, b, p, nn);
    assert c[..p] == b[..p + 1][..p] == a[..p + 1][..p] == a[..p];
    assert c[p + 1..p + nn + 1] == b[p + 1..p + nn + 1] && c[p + nn + 1..] == b[p + nn + 1..];
    FrontFronted(l, nn);
    NearMove(a, c, base, l, Front(l, nn), nn);
  }

  lemma FarStart(a: seq<byte>, b: seq<byte>, base: seq<int>, l: seq<byte>, m: nat, off: nat, nn: nat)
    requires Holds(a, base, l) && 0 < m < 16 && off < 16 && nn == 16 * m + off && MovedUp(a, b, base[m], 0, off)
    ensures base[m] + off < |a| && a[base[m] + off] == l[nn] == Front(l, nn)[0]
    ensures Shifting(b, base[m := base[m] + 1], l, Front(l, nn), m)
  {
    assert Same(a, base[m], l, 16 * m, 16);
    assert a[base[m] + off] == a[base[m]..base[m] + 16][off] == l[16 * m..16 * m + 16][off];
    MovedUpDone(a, b, base[m], off);
    FrontFronted(l, nn);
    ShiftStart(a, b, base, l, Front(l, nn), m, nn);
  }

  /** The last 16 - j bytes of the chunk at from have been copied to the one at top, no lower. */
  ghost predicate Lifted(a: seq<byte>, b: seq<byte>, top: int, from: int, j: int) {
    && |a| == |b| && 0 <= from <= top && 0 <= j <= 16 && top + 16 <= |a|
    && b[..top + j] == a[..top + j] && b[top + j..top + 16] == a[from + j..from + 16] && b[top + 16..] == a[top + 16..]
  }

  lemma LiftedStart(a: seq<byte>, top: int, from: int)
    requires 0 <= from <= top && top + 16 <= |a|
    ensures Lifted(a, a, top, from, 16)
  {}

  lemma LiftedStep(a: seq<byte>, b: seq<byte>, top: int, from: int, j: nat)
    requires Lifted(a, b, top, from, j + 1)
    ensures from + j < |b| && top + j < |b| && Lifted(a, b[top + j := b[from + j]], top, from, j)
  {
    var c := b[top + j := b[from + j]];
    assert b[from + j] == b[..top + j + 1][from + j] == a[from + j];
    assert c[..top + j] == b[..top + j + 1][..top + j] && a[..top + j] == a[..top + j + 1][..top + j];
    assert c[top + j..top + 16] == [c[top + j]] + b[top + j + 1..top + 16];
    assert a[from + j..from + 16] == [a[from + j]] + a[from + j + 1..from + 16];
    assert c[top + 16..] == b[top + 16..];
  }

  lemma LiftedDone(a: seq<byte>, b: seq<byte>, top: int, from: int)
    requires Lifted(a, b, top, from, 0)
    ensures |a| == |b| && b[..top] == a[..top] && b[top..top + 16] == a[from..from + 16]
            && b[top + 16..] == a[top + 16..]
  {}

  // ---------- setting up ----------

  /** Chunks above i are in place. */
  ghost predicate Filled(a: seq<byte>, base: seq<int>, l: seq<byte>, i: int) {
    && |a| == MTFA_SIZE && |l| == 256 && |base| == 16 && -1 <= i < 16
    && forall k :: i < k < 16 ==> base[k] == 3840 + 16 * k && Same(a, 3840 + 16 * k, l, 16 * k, 16)
  }

  lemma FilledStart(a: seq<byte>, base: seq<int>, l: seq<byte>)
    requires |a| == MTFA_SIZE && |l| == 256 && |base| == 16
    ensures Filled(a, base, l, 15)
  {}

  lemma FilledChunk(a: seq<byte>, b: seq<byte>, base: seq<int>, l: seq<byte>, i: nat)
    requires Filled(a, base, l, i) && |b| == |a| && b[3840 + 16 * i + 16..] == a[3840 + 16 * i + 16..]
    requires Same(b, 3840 + 16 * i, l, 16 * i, 16)
    ensures Filled(b, base[i := 3840 + 16 * i], l, i - 1)
  {
    forall k | i < k < 16
      ensures Same(b, 3840 + 16 * k, l, 16 * k, 16)
    {
      SuffixSame(a, b, 3840 + 16 * i + 16, 3840 + 16 * k, l, 16 * k);
    }
  }

  lemma FilledHolds(a: seq<byte>, base: seq<int>, l: seq<byte>)
    requires Filled(a, base, l, -1)
    ensures Holds(a, base, l)
  {}

  lemma {:induction false} IdentityAt(n: nat, k: nat)
    requires k < n <= 256
    ensures Identity(n)[k] == k
  {
    if k < n - 1 { IdentityAt(n - 1, k); }
  }

  lemma Sizes()
    ensures MTFA_SIZE == 4096 && MTFL_SIZE == 16
  {}

  // ---------- the arena ----------

  class Arena {
    const mtfa: array<byte>
    const mtfbase: array<int>
    /** The list the chunks stand for. */
    ghost var list: seq<byte>

    ghost predicate Shaped() {
      mtfa.Length == MTFA_SIZE && mtfbase.Length == 16 && (mtfa as object) != (mtfbase as object)
    }

    ghost predicate Valid()
      reads this, mtfa, mtfbase
    {
      Shaped() && Holds(mtfa[..], mtfbase[..], list)
    }

    constructor ()
      ensures Shaped() && fresh(mtfa) && fresh(mtfbase)
    {
      mtfa, mtfbase, list := new byte[4096], new int[16], [];
    }

    /** MTF init: the list is 0, 1, ..., 255. */
    method Init()
      requires Shaped()
      modifies this`list, mtfa, mtfbase
      ensures Valid() && list == Identity(256)
    {
      hide *;
      Sizes();
      Shapes();
      ghost var id := Identity(256);
      var kk := MTFA_SIZE - 1;
      var ii := 256 / MTFL_SIZE - 1;
      FilledStart(mtfa[..], mtfbase[..], id);
      while ii >= 0
        invariant -1 <= ii < 16 && kk == 3840 + 16 * ii + 15 && Filled(mtfa[..], mtfbase[..], id, ii)
      {
        ghost var a, base := mtfa[..], mtfbase[..];
        InitChunk(ii);
        kk := kk - MTFL_SIZE;
        FilledChunk(a, mtfa[..], base, id, ii);
        mtfbase[ii] := kk + 1;
        ii := ii - 1;
      }
      list := id;
      FilledHolds(mtfa[..], mtfbase[..], id);
      ValidFrom();
    }

    lemma Shapes()
      requires Shaped()
      ensures mtfa.Length == MTFA_SIZE && mtfbase.Length == 16 && (mtfa as object) != (mtfbase as object)
    {}

    /** The inner loop: chunk ii, from its last byte down. */
    method InitChunk(ii: nat)
      requires mtfa.Length == MTFA_SIZE && ii < 16
      modifies mtfa
      ensures mtfa[3840 + 16 * ii + 16..] == old(mtfa[3840 + 16 * ii + 16..])
      ensures Same(mtfa[..], 3840 + 16 * ii, Identity(256), 16 * ii, 16)
    {
      hide Identity;
      ghost var id := Identity(256);
      var top := 3840 + 16 * ii;
      var jj := MTFL_SIZE - 1;
      while jj >= 0
        invariant -1 <= jj < 16
        invariant mtfa[top + jj + 1..top + 16] == id[16 * ii + jj + 1..16 * ii + 16]
        invariant mtfa[top + 16..] == old(mtfa[top + 16..])
      {
        IdentityAt(256, 16 * ii + jj);
        mtfa[top + jj] := ii * MTFL_SIZE + jj;
        assert mtfa[top + jj..top + 16] == [mtfa[top + jj]] + mtfa[top + jj + 1..top + 16];
        assert id[16 * ii + jj..16 * ii + 16] == [id[16 * ii + jj]] + id[16 * ii + jj + 1..16 * ii + 16];
        jj := jj - 1;
      }
      assert mtfa[..][top..top + 16] == mtfa[top..top + 16];
    }

    /** The move-to-front of the byte at nn, as in GET_MTF_VAL's caller. */
    method Move(nn: nat) returns (uc: byte)
      requires Valid() && nn < 256
      modifies this`list, mtfa, mtfbase
      ensures Valid() && uc == old(list)[nn] && list == Front(old(list), nn)
    {
      if nn < MTFL_SIZE {
        uc := MoveNear(nn);
      } else {
        uc := MoveFar(nn);
      }
    }

    /** mtfa[mtfbase[0]]: the front of the list. */
    method First() returns (uc: byte)
      requires Valid()
      ensures |list| == 256 && uc == list[0]
    {
      FirstIs(mtfa[..], mtfbase[..], list);
      uc := mtfa[mtfbase[0]];
    }

    /** Within the first chunk: four at a time, then one at a time. */
    method MoveNear(n: nat) returns (uc: byte)
      requires Valid() && n < 16
      modifies this`list, mtfa
      ensures Valid() && uc == old(list)[n] && list == Front(old(list), n)
    {
      ListSize(mtfa[..], mtfbase[..], list);
      hide Holds, MovedUp, Front;
      ghost var a, base, l := mtfa[..], mtfbase[..], list;
      var nn, pp := n, mtfbase[0];
      FirstFits(mtfa[..], mtfbase[..], list, n);
      uc := mtfa[pp + nn];
      ShiftNear(pp, nn);
      ghost var b := mtfa[..];
      NearDone(a, b, base, l, n);
      mtfa[pp] := uc;
      assert mtfa[..] == b[base[0] := a[base[0] + n]];
      list := Front(l, n);
    }

    /** The bytes before the one wanted move up by one. */
    method ShiftNear(pp: nat, n: nat)
      requires mtfa.Length == MTFA_SIZE && n < 16 && pp + n < MTFA_SIZE
      modifies mtfa
      ensures MovedUp(old(mtfa[..]), mtfa[..], pp, 0, n)
    {
      hide MovedUp;
      ghost var a := mtfa[..];
      var nn := n;
      MovedUpStart(a, pp, n);
      while nn > 3
        invariant 0 <= nn <= n && MovedUp(a, mtfa[..], pp, nn, n)
      {
        StepUp(a, pp, nn, n);
        StepUp(a, pp, nn - 1, n);
        StepUp(a, pp, nn - 2, n);
        StepUp(a, pp, nn - 3, n);
        nn := nn - 4;
      }
      while nn > 0
        invariant 0 <= nn <= n && MovedUp(a, mtfa[..], pp, nn, n)
      {
        StepUp(a, pp, nn, n);
        nn := nn - 1;
      }
    }

    /** From another chunk: every chunk before it gives its last byte to the next and moves down by one. */
    method MoveFar(nn: nat) returns (uc: byte)
      requires Valid() && 16 <= nn < 256
      modifies this`list, mtfa, mtfbase
      ensures Valid() && uc == old(list)[nn] && list == Front(old(list), nn)
    {
      ListSize(mtfa[..], mtfbase[..], list);
      hide Holds, MovedUp, Front, Shifting, Placed;
      var lno, off := nn / MTFL_SIZE, nn % MTFL_SIZE;
      ghost var l, nl, a, base := list, Front(list, nn), mtfa[..], mtfbase[..];
      uc := OpenGap(lno, off);
      FarStart(a, mtfa[..], base, l, lno, off, nn);
      mtfbase[lno] := mtfbase[lno] + 1;
      assert mtfbase[..] == base[lno := base[lno] + 1];
      FrontFronted(l, nn);
      while lno > 0
        invariant 0 <= lno <= nn / 16 && Shifting(mtfa[..], mtfbase[..], l, nl, lno)
      {
        PassLast(lno, l, nl, nn);
        lno := lno - 1;
      }
      PutFront(uc, l, nl);
    }

    /** The byte goes in front; at the bottom of the arena the chunks start over at the top. */
    method PutFront(uc: byte, ghost l: seq<byte>, ghost nl: seq<byte>)
      requires Shaped() && Shifting(mtfa[..], mtfbase[..], l, nl, 0) && |nl| == 256 && uc == nl[0]
      modifies this`list, mtfa, mtfbase
      ensures Valid() && list == nl
    {
      hide Holds, Shifting, Placed;
      ghost var b, base := mtfa[..], mtfbase[..];
      GapInRange(b, base, l, nl);
      ShiftEnd(b, base, l, nl);
      mtfbase[0] := mtfbase[0] - 1;
      mtfa[mtfbase[0]] := uc;
      assert mtfa[..] == b[base[0] - 1 := nl[0]] && mtfbase[..] == base[0 := base[0] - 1];
      list := nl;
      if mtfbase[0] == 0 {
        Compact();
      } else {
        PlacedHolds(mtfa[..], mtfbase[..], nl);
      }
    }

    /** The bytes of the chunk before the one wanted move up by one. */
    method OpenGap(lno: nat, off: nat) returns (uc: byte)
      requires Valid() && lno < 16 && off < 16
      modifies mtfa
      ensures mtfbase[lno] + off < mtfa.Length && 0 <= mtfbase[lno] && uc == old(mtfa[mtfbase[lno] + off])
      ensures MovedUp(old(mtfa[..]), mtfa[..], mtfbase[lno], 0, off)
    {
      hide MovedUp;
      ghost var a := mtfa[..];
      ChunkFits(a, mtfbase[..], list, lno, off);
      hide Holds;
      var pp := mtfbase[lno] + off;
      uc := mtfa[pp];
      MovedUpStart(a, mtfbase[lno], off);
      while pp > mtfbase[lno]
        invariant mtfbase[lno] <= pp <= mtfbase[lno] + off && MovedUp(a, mtfa[..], mtfbase[lno], pp - mtfbase[lno], off)
      {
        StepUp(a, mtfbase[lno], pp - mtfbase[lno], off);
        pp := pp - 1;
      }
    }

    /** The last byte of the chunk before goes in front of chunk lno. */
    method PassLast(lno: nat, ghost l: seq<byte>, ghost nl: seq<byte>, ghost nn: nat)
      requires Shaped() && 0 < lno < 16
      requires Shifting(mtfa[..], mtfbase[..], l, nl, lno) && Fronted(l, nl, nn) && 16 * lno <= nn
      modifies mtfa, mtfbase
      ensures Shifting(mtfa[..], mtfbase[..], l, nl, lno - 1)
    {
      hide Shifting, Fronted;
      ghost var a, base := mtfa[..], mtfbase[..];
      ShiftStep(a, base, l, nl, lno, nn);
      mtfbase[lno] := mtfbase[lno] - 1;
      mtfa[mtfbase[lno]] := mtfa[mtfbase[lno - 1] + MTFL_SIZE - 1];
      assert mtfa[..] == a[base[lno] - 1 := a[base[lno - 1] + 15]] && mtfbase[..] == base[lno := base[lno] - 1];
    }

    /** All chunks back to the top of the arena, last first. */
    method Compact()
      requires Shaped() && Placed(mtfa[..], mtfbase[..], list)
      modifies mtfa, mtfbase
      ensures Valid()
    {
      hide *;
      Sizes();
      Shapes();
      var kk := MTFA_SIZE - 1;
      var ii := 256 / MTFL_SIZE - 1;
      CompactStart(mtfa[..], mtfbase[..], list);
      while ii >= 0
        invariant -1 <= ii < 16 && kk == 3840 + 16 * ii + 15 && Compacting(mtfa[..], mtfbase[..], list, ii)
      {
        ghost var a, base := mtfa[..], mtfbase[..];
        CompactIn(a, base, list, ii);
        LiftChunk(ii);
        kk := kk - MTFL_SIZE;
        CompactChunk(a, mtfa[..], base, list, ii);
        mtfbase[ii] := kk + 1;
        ii := ii - 1;
      }
      CompactEnd(mtfa[..], mtfbase[..], list);
      ValidFrom();
    }

    lemma ValidFrom()
      requires Shaped() && Holds(mtfa[..], mtfbase[..], list)
      ensures Valid()
    {}

    /** The inner loop of the compaction: sixteen bytes, from the last down, to a place no lower. */
    method LiftChunk(ii: nat)
      requires Shaped() && ii < 16 && 0 <= mtfbase[ii] <= 3840 + 16 * ii
      modifies mtfa
      ensures mtfa[..3840 + 16 * ii] == old(mtfa[..3840 + 16 * ii])
              && mtfa[3840 + 16 * ii + 16..] == old(mtfa[3840 + 16 * ii + 16..])
      ensures mtfa[3840 + 16 * ii..3840 + 16 * ii + 16] == old(mtfa[mtfbase[ii]..mtfbase[ii] + 16])
    {
      hide *;
      Sizes();
      Shapes();
      var top, from := 3840 + 16 * ii, mtfbase[ii];
      ghost var a := mtfa[..];
      var jj := MTFL_SIZE - 1;
      LiftedStart(a, top, from);
      while jj >= 0
        invariant -1 <= jj < 16 && Lifted(a, mtfa[..], top, from, jj + 1)
      {
        ghost var b := mtfa[..];
        LiftedStep(a, b, top, from, jj);
        mtfa[top + jj] := mtfa[from + jj];
        assert mtfa[..] == b[top + jj := b[from + jj]];
        jj := jj - 1;
      }
      LiftedDone(a, mtfa[..], top, from);
    }

    /** mtfa[pp + nn] := mtfa[pp + nn - 1]. */
    method StepUp(ghost a: seq<byte>, pp: nat, nn: nat, ghost top: nat)
      requires mtfa.Length == MTFA_SIZE && nn > 0 && MovedUp(a, mtfa[..], pp, nn, top)
      modifies mtfa
      ensures MovedUp(a, mtfa[..], pp, nn - 1, top)
    {
      MovedUpStep(a, mtfa[..], pp, nn, top);
      hide MovedUp;
      ghost var b := mtfa[..];
      UpInRange(a, b, pp, nn, top);
      mtfa[pp + nn] := mtfa[pp + nn - 1];
      assert mtfa[..] == b[pp + nn := b[pp + nn - 1]];
    }
  }

  lemma ListSize(a: seq<byte>, base: seq<int>, l: seq<byte>)
    requires Holds(a, base, l)
    ensures |l| == 256
  {}

  lemma FirstIs(a: seq<byte>, base: seq<int>, l: seq<byte>)
    requires Holds(a, base, l)
    ensures |l| == 256 && 0 <= base[0] < |a| && a[base[0]] == l[0]
  {
    assert Same(a, base[0], l, 0, 16);
    assert a[base[0]] == a[base[0]..base[0] + 16][0] == l[0..16][0];
  }

  lemma ChunkFits(a: seq<byte>, base: seq<int>, l: seq<byte>, m: nat, off: nat)
    requires Holds(a, base, l) && m < 16 && off < 16
    ensures 0 <= base[m] && base[m] + off < |a|
  {
    OrderedBounds(base, m);
    OrderedTops(base, m);
  }

  lemma GapInRange(a: seq<byte>, base: seq<int>, l: seq<byte>, nl: seq<byte>)
    requires Shifting(a, base, l, nl, 0)
    ensures 0 < base[0] && base[0] - 1 < |a|
  {}

  lemma PlacedHolds(a: seq<byte>, base: seq<int>, l: seq<byte>)
    requires Placed(a, base, l) && base[0] != 0
    ensures Holds(a, base, l)
  {}

  lemma CompactIn(a: seq<byte>, base: seq<int>, l: seq<byte>, i: nat)
    requires Compacting(a, base, l, i)
    ensures i < 16 && 0 <= base[i] <= 3840 + 16 * i
  {}

  lemma UpInRange(a: seq<byte>, b: seq<byte>, p: int, n: int, top: int)
    requires MovedUp(a, b, p, n, top)
    ensures 0 <= p && 0 <= n && p + n < |b|
  {}

  lemma FirstFits(a: seq<byte>, base: seq<int>, l: seq<byte>, n: nat)
    requires Holds(a, base, l) && n < 16
    ensures 0 < base[0] && base[0] + n < |a|
  {
    OrderedTops(base, 0);
  }
}
