/** mainGtU: comparing two rotations through the overshoot area, helped by the quadrant cache. */
module MainCompare {
  import opened Bits
  import opened Rotations

  const N_RADIX := 2
  const N_QSORT := 12
  const N_SHELL := 18
  const N_OVERSHOOT := N_RADIX + N_QSORT + N_SHELL + 2
  /** The greatest depth at which rotations are compared. */
  const MAX_DEPTH := N_RADIX + N_QSORT + 1

  /** An index into the block and its overshoot, as an index into the block. */
  function Wrap(n: nat, i: nat): nat {
    if i < n then i else i - n
  }

  /** block is b with its first bytes repeated behind it. */
  ghost predicate Extends(block: seq<byte>, b: seq<byte>) {
    && |b| > N_OVERSHOOT && |block| >= |b| + N_OVERSHOOT
    && forall i :: 0 <= i < |b| + N_OVERSHOOT ==> block[i] == b[Wrap(|b|, i)]
  }

  /** quadrant agrees with the order of rotations, wherever it tells rotations with the same first byte apart. */
  ghost predicate Sound(quadrant: seq<nat>, b: seq<byte>) {
    && |b| > N_OVERSHOOT && |quadrant| >= |b| + N_OVERSHOOT
    && (forall i :: 0 <= i < |b| + N_OVERSHOOT ==> quadrant[i] == quadrant[Wrap(|b|, i)])
    && forall i, j :: 0 <= i < |b| && 0 <= j < |b| && b[i] == b[j] && quadrant[i] < quadrant[j] ==> Le(b, i, j)
  }

  /** Comparing x and y comes down to comparing p and q, and they have agreed for h bytes, or for a whole turn. */
  ghost predicate Reduced(b: seq<byte>, x: nat, y: nat, p: nat, q: nat, h: nat)
    requires x < |b| && y < |b| && p < |b| && q < |b|
  {
    && (Le(b, p, q) ==> Le(b, x, y)) && (Le(b, q, p) ==> Le(b, y, x))
    && h <= |b| && EqH(b, x, y, h)
    && (h < |b| ==> p == Adv(|b|, x, h) && q == Adv(|b|, y, h))
  }

  lemma ReducedStart(b: seq<byte>, x: nat, y: nat)
    requires x < |b| && y < |b|
    ensures Reduced(b, x, y, x, y, 0)
  {}

  lemma ReducedStep(b: seq<byte>, x: nat, y: nat, p: nat, q: nat, h: nat)
    requires x < |b| && y < |b| && p < |b| && q < |b| && Reduced(b, x, y, p, q, h) && b[p] == b[q]
    ensures Next(|b|, p) < |b| && Next(|b|, q) < |b|
    ensures Reduced(b, x, y, Next(|b|, p), Next(|b|, q), if h < |b| then h + 1 else h)
  {
    hide LeH, EqH;
    LeNext(b, p, q);
    LeNext(b, q, p);
    if h < |b| {
      EqSplit(b, x, y, h, 1);
      OneByte(b, p, q);
    }
  }

  lemma OneByte(b: seq<byte>, p: nat, q: nat)
    requires p < |b| && q < |b| && b[p] == b[q]
    ensures EqH(b, p, q, 1)
  {}

  /** Bytes that differ decide. */
  lemma BytesDecide(b: seq<byte>, p: nat, q: nat)
    requires p < |b| && q < |b| && b[p] < b[q]
    ensures Le(b, p, q)
  {}

  /** What the comparison tells: the rotations x and y are in the order it says. */
  ghost predicate Verdict(b: seq<byte>, x: nat, y: nat, gt: bool)
    requires x < |b| && y < |b|
  {
    if gt then Le(b, y, x) else Le(b, x, y)
  }

  /** One place where bytes are compared: p and q may lie in the overshoot. */
  ghost predicate At(b: seq<byte>, block: seq<byte>, x: nat, y: nat, p: nat, q: nat, h: nat)
    requires x < |b| && y < |b|
  {
    && Extends(block, b) && p < 2 * |b| && q < 2 * |b|
    && Reduced(b, x, y, Wrap(|b|, p), Wrap(|b|, q), h)
  }

  lemma AtBytes(b: seq<byte>, block: seq<byte>, x: nat, y: nat, p: nat, q: nat, h: nat)
    requires x < |b| && y < |b| && At(b, block, x, y, p, q, h) && p < |b| + N_OVERSHOOT && q < |b| + N_OVERSHOOT
    ensures p < |block| && q < |block|
    ensures block[p] > block[q] ==> Verdict(b, x, y, true)
    ensures block[p] < block[q] ==> Verdict(b, x, y, false)
  {
    var p', q' := Wrap(|b|, p), Wrap(|b|, q);
    if block[p] > block[q] { BytesDecide(b, q', p'); }
    if block[p] < block[q] { BytesDecide(b, p', q'); }
  }

  lemma AtNext(b: seq<byte>, block: seq<byte>, x: nat, y: nat, p: nat, q: nat, h: nat)
    requires x < |b| && y < |b| && At(b, block, x, y, p, q, h) && p < |b| + N_OVERSHOOT && q < |b| + N_OVERSHOOT
    requires p < |block| && q < |block| && block[p] == block[q]
    ensures At(b, block, x, y, p + 1, q + 1, if h < |b| then h + 1 else h)
  {
    hide Reduced;
    ReducedStep(b, x, y, Wrap(|b|, p), Wrap(|b|, q), h);
    assert Next(|b|, Wrap(|b|, p)) == Wrap(|b|, p + 1) && Next(|b|, Wrap(|b|, q)) == Wrap(|b|, q + 1);
  }

  lemma AtQuadrants(b: seq<byte>, block: seq<byte>, quadrant: seq<nat>, x: nat, y: nat, p: nat, q: nat, h: nat)
    requires x < |b| && y < |b| && At(b, block, x, y, p, q, h) && p < |b| + N_OVERSHOOT && q < |b| + N_OVERSHOOT
    requires p < |block| && q < |block| && block[p] == block[q] && Sound(quadrant, b)
    ensures p < |quadrant| && q < |quadrant|
    ensures quadrant[p] > quadrant[q] ==> Verdict(b, x, y, true)
    ensures quadrant[p] < quadrant[q] ==> Verdict(b, x, y, false)
  {
    hide Le;
    var p', q' := Wrap(|b|, p), Wrap(|b|, q);
    assert quadrant[p] == quadrant[p'] && quadrant[q] == quadrant[q'];
  }

  lemma AtStart(b: seq<byte>, block: seq<byte>, i1: nat, i2: nat)
    requires Extends(block, b) && i1 < |b| + MAX_DEPTH && i2 < |b| + MAX_DEPTH
    ensures Wrap(|b|, i1) < |b| && Wrap(|b|, i2) < |b|
    ensures At(b, block, Wrap(|b|, i1), Wrap(|b|, i2), i1, i2, 0)
  {
    ReducedStart(b, Wrap(|b|, i1), Wrap(|b|, i2));
  }

  /** Coming back from the overshoot. */
  lemma AtWrapped(b: seq<byte>, block: seq<byte>, x: nat, y: nat, p: nat, q: nat, h: nat)
    requires x < |b| && y < |b| && At(b, block, x, y, p, q, h)
    ensures Wrap(|b|, p) < |b| && Wrap(|b|, q) < |b| && At(b, block, x, y, Wrap(|b|, p), Wrap(|b|, q), h)
    ensures forall i :: |b| <= i ==> Wrap(|b|, i) == i - |b|
    ensures forall i :: 0 <= i < |b| ==> Wrap(|b|, i) == i
  {}

  lemma WholeTurn(b: seq<byte>, block: seq<byte>, x: nat, y: nat, p: nat, q: nat, h: nat)
    requires x < |b| && y < |b| && At(b, block, x, y, p, q, h) && h == |b|
    ensures Verdict(b, x, y, false)
  {
    EqLe(b, x, y, |b|);
  }

  /** Eight places of bytes and quadrants; the last of them may be the last overshoot place. */
  method Round(i1: nat, i2: nat, block: seq<byte>, quadrant: seq<nat>, nblock: nat, ghost b: seq<byte>, ghost x: nat,
               ghost y: nat, ghost h: nat)
    returns (decided: bool, gt: bool, p: nat, q: nat, ghost h': nat)
    requires nblock == |b| && x < nblock && y < nblock && Sound(quadrant, b) && h <= nblock
    requires i1 + 7 < nblock + N_OVERSHOOT && i2 + 7 < nblock + N_OVERSHOOT && At(b, block, x, y, i1, i2, h)
    ensures decided ==> Verdict(b, x, y, gt)
    ensures !decided ==> p < nblock && q < nblock && At(b, block, x, y, p, q, h') && h' <= nblock
                         && (h' == nblock || h' >= h + 8)
  {
    assert N_OVERSHOOT == 34;
    hide *;
    decided, gt, h' := false, false, h;
    p, q := i1, i2;
    for s := 0 to 8
      invariant p == i1 + s && q == i2 + s && h' <= nblock && (h' == nblock || h' >= h + s)
      invariant At(b, block, x, y, p, q, h')
    {
      AtBytes(b, block, x, y, p, q, h');
      var c1, c2 := block[p], block[q];
      if c1 != c2 { decided, gt := true, c1 > c2; return; }
      AtQuadrants(b, block, quadrant, x, y, p, q, h');
      var s1, s2 := quadrant[p], quadrant[q];
      if s1 != s2 { decided, gt := true, s1 > s2; return; }
      AtNext(b, block, x, y, p, q, h');
      p, q := p + 1, q + 1;
      h' := if h' < nblock then h' + 1 else h';
    }
    AtWrapped(b, block, x, y, p, q, h');
    if p >= nblock { p := p - nblock; }
    if q >= nblock { q := q - nblock; }
  }

  /** Twelve places of bytes alone. */
  method FirstBytes(i1: nat, i2: nat, block: seq<byte>, nblock: nat, ghost b: seq<byte>, ghost x: nat, ghost y: nat)
    returns (decided: bool, gt: bool, p: nat, q: nat, ghost h: nat)
    requires nblock == |b| && x < nblock && y < nblock && i1 < nblock + MAX_DEPTH && i2 < nblock + MAX_DEPTH
    requires At(b, block, x, y, i1, i2, 0) && nblock > N_OVERSHOOT
    ensures decided ==> Verdict(b, x, y, gt)
    ensures !decided ==> p == i1 + 12 && q == i2 + 12 && At(b, block, x, y, p, q, h) && 12 <= h <= nblock
  {
    assert N_OVERSHOOT == 34 && MAX_DEPTH == 15;
    hide *;
    decided, gt, h := false, false, 0;
    p, q := i1, i2;
    for s := 0 to 12
      invariant p == i1 + s && q == i2 + s && h == s && At(b, block, x, y, p, q, h)
    {
      AtBytes(b, block, x, y, p, q, h);
      var c1, c2 := block[p], block[q];
      if c1 != c2 { decided, gt := true, c1 > c2; return; }
      AtNext(b, block, x, y, p, q, h);
      p, q, h := p + 1, q + 1, h + 1;
    }
  }

  /** mainGtU: looks at bytes alone for twelve places, then at bytes and quadrants, eight places to a round. */
  method MainGtU(i1: nat, i2: nat, block: seq<byte>, quadrant: seq<nat>, nblock: nat, budget: int, ghost b: seq<byte>)
    returns (gt: bool, budget': int)
    requires nblock == |b| && Extends(block, b) && Sound(quadrant, b)
    requires i1 < nblock + MAX_DEPTH && i2 < nblock + MAX_DEPTH
    ensures Wrap(nblock, i1) < nblock && Wrap(nblock, i2) < nblock
    ensures Verdict(b, Wrap(nblock, i1), Wrap(nblock, i2), gt) && budget' <= budget
  {
    assert N_OVERSHOOT == 34 && MAX_DEPTH == 15;
    assert nblock > 34;
    hide *;
    budget' := budget;
    ghost var x, y, h := Wrap(nblock, i1), Wrap(nblock, i2), 0;
    AtStart(b, block, i1, i2);
    var decided;
    var p: nat, q: nat;
    decided, gt, p, q, h := FirstBytes(i1, i2, block, nblock, b, x, y);
    if decided { return; }
    var k: int := nblock + 8;
    while true
      invariant p + 7 < nblock + 34 && q + 7 < nblock + 34 && h <= nblock && (h == nblock || h + k >= nblock + 8)
                && k >= 0
      invariant At(b, block, x, y, p, q, h) && budget' <= budget
      decreases k
    {
      decided, gt, p, q, h := Round(p, q, block, quadrant, nblock, b, x, y, h);
      if decided { return; }
      k := k - 8;
      budget' := budget' - 1;
      if k < 0 { break; }
    }
    gt := false;
    WholeTurn(b, block, x, y, p, q, h);
  }
}
