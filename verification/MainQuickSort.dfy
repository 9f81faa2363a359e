/** mainSimpleSort and mainQSort3: sorting rotations that share their first bytes. */
module MainQuickSort {
  import opened Bits
  import opened Permutations
  import opened Rotations
  import opened Shuffles
  import opened MainCompare

  // ---------- order and shared bytes ----------

  /** Rotations x and y may come in this order. */
  ghost predicate Ord(b: seq<byte>, x: nat, y: nat) {
    x < |b| && y < |b| && Le(b, x, y)
  }

  lemma OrdTrans(b: seq<byte>, x: nat, y: nat, z: nat)
    requires Ord(b, x, y) && Ord(b, y, z)
    ensures Ord(b, x, z)
  {
    LeTrans(b, x, y, z, |b|);
  }

  ghost predicate InTurn(b: seq<byte>, a: seq<nat>, lo: nat, end: nat) {
    end <= |a| && forall i, j :: lo <= i < j < end ==> Ord(b, a[i], a[j])
  }

  /** Rotations x and y agree on d bytes. */
  ghost predicate Agree(b: seq<byte>, x: nat, y: nat, d: nat) {
    x < |b| && y < |b| && EqH(b, x, y, d)
  }

  /** All rotations from lo up to end agree on d bytes. */
  ghost predicate Share(b: seq<byte>, a: seq<nat>, lo: nat, end: nat, d: nat) {
    end <= |a| && (forall i :: lo <= i < end ==> a[i] < |b|) && forall i, j :: lo <= i < end && lo <= j < end ==>
      Agree(b, a[i], a[j], d)
  }

  lemma ShareShuffled(b: seq<byte>, a: seq<nat>, a': seq<nat>, lo: nat, end: nat, d: nat)
    requires Share(b, a, lo, end, d) && Shuffled(a, a', lo, end)
    ensures Share(b, a', lo, end, d)
  {
    hide Agree, Shuffled;
    ShuffledMultiset(a, a', lo, end);
    forall i | lo <= i < end
      ensures a'[i] < |b|
    {
      var i' := ShuffledFrom(a, a', lo, end, i);
    }
    forall i, j | lo <= i < end && lo <= j < end
      ensures Agree(b, a'[i], a'[j], d)
    {
      var i' := ShuffledFrom(a, a', lo, end, i);
      var j' := ShuffledFrom(a, a', lo, end, j);
    }
  }

  /** A verdict d places on, for rotations that agree so far, is a verdict. */
  lemma DeepVerdict(b: seq<byte>, x: nat, y: nat, d: nat, gt: bool)
    requires Agree(b, x, y, d) && Agree(b, y, x, d) && d < |b| && Wrap(|b|, x + d) < |b| && Wrap(|b|, y + d) < |b|
    requires Verdict(b, Wrap(|b|, x + d), Wrap(|b|, y + d), gt)
    ensures if gt then Ord(b, y, x) else Ord(b, x, y)
  {
    hide LeH, EqH;
    var n := |b|;
    assert Wrap(n, x + d) == Adv(n, x, d) && Wrap(n, y + d) == Adv(n, y, d);
    if gt {
      LeSplit(b, y, x, d, n);
      LeShorter(b, y, x, n, d + n);
    } else {
      LeSplit(b, x, y, d, n);
      LeShorter(b, x, y, n, d + n);
    }
  }

  // ---------- mainSimpleSort ----------

  /** In order but for the entry at hole, which comes no later than any entry after it. */
  ghost predicate TurnBut(b: seq<byte>, a: seq<nat>, lo: nat, end: nat, hole: nat) {
    && end <= |a|
    && (forall x, y :: lo <= x < y < end && x != hole && y != hole ==> Ord(b, a[x], a[y]))
    && (forall y :: hole < y < end ==> Ord(b, a[hole], a[y]))
  }

  lemma HoleDown(b: seq<byte>, a: seq<nat>, lo: nat, end: nat, hole: nat)
    requires lo < hole < end && TurnBut(b, a, lo, end, hole) && Ord(b, a[hole], a[hole - 1])
    ensures TurnBut(b, Swapped(a, hole - 1, hole), lo, end, hole - 1)
  {
    hide Ord;
  }

  lemma HolePlaced(b: seq<byte>, a: seq<nat>, lo: nat, end: nat, hole: nat)
    requires lo <= hole < end && TurnBut(b, a, lo, end, hole) && (hole > lo ==> Ord(b, a[hole - 1], a[hole]))
    ensures InTurn(b, a, lo, end)
  {
    hide Ord;
    forall i, j | lo <= i < j < end
      ensures Ord(b, a[i], a[j])
    {
      if j == hole && i < hole - 1 { OrdTrans(b, a[i], a[hole - 1], a[hole]); }
    }
  }

  lemma HoleAtEnd(b: seq<byte>, a: seq<nat>, lo: nat, i: nat)
    requires lo <= i < |a| && InTurn(b, a, lo, i)
    ensures TurnBut(b, a, lo, i + 1, i)
  {}

  lemma ShareAt(b: seq<byte>, a: seq<nat>, lo: nat, end: nat, d: nat, i: nat, j: nat)
    requires Share(b, a, lo, end, d) && lo <= i < end && lo <= j < end
    ensures a[i] < |b| && a[j] < |b| && Agree(b, a[i], a[j], d) && Agree(b, a[j], a[i], d)
  {}

  lemma MoveStep(b: seq<byte>, was: seq<nat>, g: seq<nat>, lo: nat, hi: nat, i: nat, j: nat, h: nat, d: nat,
                 sorting: bool)
    requires 1 <= h && lo + h <= j <= i <= hi < |g| && Shuffled(was, g, lo, hi + 1) && Share(b, g, lo, hi + 1, d)
    requires Ord(b, g[j], g[j - h]) && (sorting ==> h == 1 && TurnBut(b, g, lo, i + 1, j))
    ensures var g' := g[j - h := g[j]][j := g[j - h]];
            Shuffled(was, g', lo, hi + 1) && Share(b, g', lo, hi + 1, d)
            && (sorting ==> TurnBut(b, g', lo, i + 1, j - h))
  {
    hide Shuffled, Share, TurnBut, Ord;
    SwapMore(was, g, j - h, j, lo, hi + 1);
    SwapShuffles(g, j - h, j, lo, hi + 1);
    ShareShuffled(b, g, Swapped(g, j - h, j), lo, hi + 1, d);
    if sorting { HoleDown(b, g, lo, i + 1, j); }
  }

  /** The loop test of the insertion: does the entry h places before j come after v? If not, v has found its place. */
  method Above(ptr: array<nat>, block: seq<byte>, quadrant: seq<nat>, nblock: nat, ghost lo: nat, ghost hi: nat,
               ghost i: nat,
               j: nat, h: nat, v: nat, d: nat, budget: int, ghost b: seq<byte>, ghost g: seq<nat>, ghost sorting: bool)
    returns (gt: bool, budget': int)
    requires nblock == |b| && Extends(block, b) && Sound(quadrant, b) && d <= MAX_DEPTH
    requires 1 <= h && lo + h <= j <= i <= hi < ptr.Length == |g| && Share(b, g, lo, hi + 1, d)
    requires g[j - h] == ptr[j - h] && g[j] == v && (sorting ==> h == 1 && TurnBut(b, g, lo, i + 1, j))
    ensures budget' <= budget && (gt ==> Ord(b, g[j], g[j - h]))
    ensures !gt && sorting ==> InTurn(b, g, lo, i + 1)
  {
    assert MAX_DEPTH == 15 && N_OVERSHOOT == 34;
    assert nblock > 34;
    hide *;
    ShareAt(b, g, lo, hi + 1, d, j - h, j);
    gt, budget' := MainGtU(ptr[j - h] + d, v + d, block, quadrant, nblock, budget, b);
    DeepVerdict(b, g[j - h], g[j], d, gt);
    if !gt && sorting { HolePlaced(b, g, lo, i + 1, j); }
  }

  /** One of the three copies in the loop: entry i moves down past the greater entries, h places at a time. */
  method InsertMain(ptr: array<nat>, block: seq<byte>, quadrant: seq<nat>, nblock: nat, lo: nat, hi: nat, i: nat,
                    h: nat, d: nat,
                    budget: int, ghost b: seq<byte>) returns (budget': int)
    requires nblock == |b| && Extends(block, b) && Sound(quadrant, b) && d <= MAX_DEPTH
    requires 1 <= h && lo + h <= i <= hi < ptr.Length && Share(b, ptr[..], lo, hi + 1, d)
    modifies ptr
    ensures Shuffled(old(ptr[..]), ptr[..], lo, hi + 1) && Share(b, ptr[..], lo, hi + 1, d) && budget' <= budget
    ensures h == 1 && InTurn(b, old(ptr[..]), lo, i) ==> InTurn(b, ptr[..], lo, i + 1)
  {
    hide *;
    ghost var was, g := ptr[..], ptr[..];
    ghost var sorting := h == 1 && InTurn(b, was, lo, i);
    var v, j := ptr[i], i;
    SameShuffled(was, lo, hi + 1);
    if sorting { HoleAtEnd(b, was, lo, i); }
    var gt;
    gt, budget' := Above(ptr, block, quadrant, nblock, lo, hi, i, j, h, v, d, budget, b, g, sorting);
    while gt
      invariant lo <= j <= i && |g| == ptr.Length && g == ptr[..][j := v] && budget' <= budget
      invariant Shuffled(was, g, lo, hi + 1) && Share(b, g, lo, hi + 1, d)
      invariant gt ==> lo + h <= j && Ord(b, g[j], g[j - h]) && (sorting ==> TurnBut(b, g, lo, i + 1, j))
      invariant !gt && sorting ==> InTurn(b, g, lo, i + 1)
      decreases j, if gt then 1 else 0
    {
      assert g[j - h] == ptr[j - h] && g[j] == v;
      MoveStep(b, was, g, lo, hi, i, j, h, d, sorting);
      g := g[j - h := v][j := ptr[j - h]];
      ptr[j] := ptr[j - h];
      j := j - h;
      if j <= lo + h - 1 {
        gt := false;
        if sorting { HolePlaced(b, g, lo, i + 1, j); }
      } else {
        gt, budget' := Above(ptr, block, quadrant, nblock, lo, hi, i, j, h, v, d, budget', b, g, sorting);
      }
    }
    ptr[j] := v;
    assert ptr[..] == g;
  }

  const INCS: seq<nat> := [1, 4, 13, 40, 121, 364, 1093, 3280, 9841, 29524, 88573, 265720, 797161, 2391484]

  lemma IncsGrow(k: nat)
    requires k < 14
    ensures |INCS| == 14 && INCS[0] == 1 && INCS[13] == 2391484 && INCS[k] >= 1 && (INCS[k] == 1 <==> k == 0)
  {}

  /** One pass of the shell sort, three insertions between looks at the budget. */
  method ShellPass(ptr: array<nat>, block: seq<byte>, quadrant: seq<nat>, nblock: nat, lo: nat, hi: nat, h: nat, d: nat,
                   budget: int, ghost b: seq<byte>) returns (gaveUp: bool, budget': int)
    requires nblock == |b| && Extends(block, b) && Sound(quadrant, b) && d <= MAX_DEPTH
    requires 1 <= h && lo + h <= hi < ptr.Length && Share(b, ptr[..], lo, hi + 1, d)
    modifies ptr
    ensures Shuffled(old(ptr[..]), ptr[..], lo, hi + 1) && Share(b, ptr[..], lo, hi + 1, d) && budget' <= budget
    ensures gaveUp ==> budget' < 0
    ensures !gaveUp && h == 1 ==> InTurn(b, ptr[..], lo, hi + 1)
  {
    hide *;
    ghost var was := ptr[..];
    gaveUp, budget' := false, budget;
    SameShuffled(was, lo, hi + 1);
    OneInTurn(b, was, lo);
    var i := lo + h;
    while true
      invariant lo + h <= i <= hi + 1 && budget' <= budget
      invariant Shuffled(was, ptr[..], lo, hi + 1) && Share(b, ptr[..], lo, hi + 1, d)
      invariant h == 1 ==> InTurn(b, ptr[..], lo, i)
      decreases hi + 1 - i
    {
      if i > hi { break; }
      budget' := InsertNext(ptr, block, quadrant, nblock, lo, hi, i, h, d, budget', b, was);
      i := i + 1;
      if i > hi { break; }
      budget' := InsertNext(ptr, block, quadrant, nblock, lo, hi, i, h, d, budget', b, was);
      i := i + 1;
      if i > hi { break; }
      budget' := InsertNext(ptr, block, quadrant, nblock, lo, hi, i, h, d, budget', b, was);
      i := i + 1;
      if budget' < 0 { gaveUp := true; return; }
    }
  }

  lemma OneInTurn(b: seq<byte>, a: seq<nat>, lo: nat)
    requires lo < |a|
    ensures InTurn(b, a, lo, lo + 1)
  {}

  method InsertNext(ptr: array<nat>, block: seq<byte>, quadrant: seq<nat>, nblock: nat, lo: nat, hi: nat, i: nat,
                    h: nat, d: nat,
                    budget: int, ghost b: seq<byte>, ghost was: seq<nat>) returns (budget': int)
    requires nblock == |b| && Extends(block, b) && Sound(quadrant, b) && d <= MAX_DEPTH
    requires 1 <= h && lo + h <= i <= hi < ptr.Length && Share(b, ptr[..], lo, hi + 1, d)
             && Shuffled(was, ptr[..], lo, hi + 1)
    requires h == 1 ==> InTurn(b, ptr[..], lo, i)
    modifies ptr
    ensures Shuffled(was, ptr[..], lo, hi + 1) && Share(b, ptr[..], lo, hi + 1, d) && budget' <= budget
    ensures h == 1 ==> InTurn(b, ptr[..], lo, i + 1)
  {
    hide *;
    ghost var now := ptr[..];
    budget' := InsertMain(ptr, block, quadrant, nblock, lo, hi, i, h, d, budget, b);
    ShuffledTrans(was, now, ptr[..], lo, hi + 1);
  }

  /** mainSimpleSort: a shell sort; it may give up, but only with the budget spent. */
  method MainSimpleSort(ptr: array<nat>, block: seq<byte>, quadrant: seq<nat>, nblock: nat, lo: nat, hi: int, d: nat,
                        budget: int, ghost b: seq<byte>) returns (budget': int)
    requires nblock == |b| && Extends(block, b) && Sound(quadrant, b) && d <= MAX_DEPTH
    requires lo <= hi + 1 <= ptr.Length && hi < 0x10_0000 && Share(b, ptr[..], lo, hi + 1, d)
    modifies ptr
    ensures Shuffled(old(ptr[..]), ptr[..], lo, hi + 1) && Share(b, ptr[..], lo, hi + 1, d) && budget' <= budget
    ensures budget' >= 0 ==> InTurn(b, ptr[..], lo, hi + 1)
  {
    hide *;
    ghost var was := ptr[..];
    budget' := budget;
    SameShuffled(was, lo, hi + 1);
    var bigN := hi - lo + 1;
    if bigN < 2 {
      FewInTurn(b, was, lo, hi + 1);
      return;
    }
    var hp: int := 0;
    IncsGrow(0);
    while INCS[hp] < bigN
      invariant 0 <= hp <= 13 && (hp > 0 ==> INCS[hp - 1] < bigN) && forall k :: 0 <= k < hp ==> INCS[k] < bigN
      decreases 13 - hp
    {
      hp := hp + 1;
    }
    hp := hp - 1;
    while hp >= 0
      invariant -1 <= hp < 13 && (forall k :: 0 <= k <= hp ==> INCS[k] < bigN) && budget' <= budget
      invariant Shuffled(was, ptr[..], lo, hi + 1) && Share(b, ptr[..], lo, hi + 1, d)
      invariant hp < 0 ==> InTurn(b, ptr[..], lo, hi + 1)
    {
      IncsGrow(hp);
      var h := INCS[hp];
      ghost var now := ptr[..];
      var gaveUp;
      gaveUp, budget' := ShellPass(ptr, block, quadrant, nblock, lo, hi, h, d, budget', b);
      ShuffledTrans(was, now, ptr[..], lo, hi + 1);
      if gaveUp { return; }
      hp := hp - 1;
    }
  }

  lemma FewInTurn(b: seq<byte>, a: seq<nat>, lo: nat, end: nat)
    requires end <= |a| && end <= lo + 1
    ensures InTurn(b, a, lo, end)
  {}

  // ---------- the stack of ranges ----------

  const SMALL_THRESH := 20
  const DEPTH_THRESH := N_RADIX + N_QSORT
  const STACK_SIZE := 100
  const BLOCK_LIMIT := 0x10_0000

  /** A range of entries that agree on d bytes. */
  datatype Range = Range(lo: int, hi: int, d: nat)

  function Size(r: Range): int { r.hi - r.lo + 1 }

  /** The stacked ranges lie apart within lo0..hi0; some may be empty. */
  ghost predicate Stacked(st: seq<Range>, lo0: nat, hi0: int) {
    && (forall k :: 0 <= k < |st| ==> lo0 <= st[k].lo <= st[k].hi + 1 && st[k].hi <= hi0 && st[k].d <= MAX_DEPTH)
    && (forall k, m :: 0 <= k < m < |st| ==> st[k].hi < st[m].lo || st[m].hi < st[k].lo)
  }

  /** Places i and j lie in one stacked range. */
  ghost predicate Within(st: seq<Range>, i: int, j: int) {
    exists k :: 0 <= k < |st| && st[k].lo <= i && j <= st[k].hi
  }

  /** Everything is in order but for places within one stacked range. */
  ghost predicate Turns(b: seq<byte>, a: seq<nat>, st: seq<Range>, lo0: nat, hi0: int) {
    hi0 < |a| && forall i, j :: lo0 <= i < j <= hi0 ==> Ord(b, a[i], a[j]) || Within(st, i, j)
  }

  /** The entries of each stacked range agree to its depth. */
  ghost predicate Deep(b: seq<byte>, a: seq<nat>, st: seq<Range>) {
    forall k :: 0 <= k < |st| ==> 0 <= st[k].lo <= st[k].hi + 1 && Share(b, a, st[k].lo, st[k].hi + 1, st[k].d)
  }

  /** The k-th stacked range has at most N / 2^(k/2) places. */
  ghost predicate Halving(st: seq<Range>, N: nat) {
    forall k :: 0 <= k < |st| ==> Size(st[k]) <= Shr(N, k / 2)
  }

  /** size added up k times. */
  function Times(size: int, k: nat): int {
    if k == 0 then 0 else size + Times(size, k - 1)
  }

  lemma {:induction false} TimesAdd(x: int, y: int, k: nat)
    ensures Times(x + y, k) == Times(x, k) + Times(y, k)
  {
    if k > 0 { TimesAdd(x, y, k - 1); }
  }

  lemma {:induction false} TimesPositive(x: nat, k: nat)
    ensures Times(x, k) >= 0
  {
    if k > 0 { TimesPositive(x, k - 1); }
  }

  /** What a range still costs at most: shallower and longer ranges cost more. */
  function Cost(r: Range): int {
    3 * Times(Size(r), if r.d <= MAX_DEPTH then MAX_DEPTH + 1 - r.d else 0) + 1
  }

  function Load(st: seq<Range>): int {
    if st == [] then 0 else Load(st[..|st| - 1]) + Cost(st[|st| - 1])
  }

  lemma {:induction false} LoadPositive(st: seq<Range>, lo0: nat, hi0: int)
    requires Stacked(st, lo0, hi0)
    ensures Load(st) >= 0
  {
    hide Times;
    if st != [] {
      var k := |st| - 1;
      LoadPositive(st[..k], lo0, hi0);
      TimesPositive(Size(st[k]), MAX_DEPTH + 1 - st[k].d);
    }
  }

  lemma LoadPush(st: seq<Range>, r: Range)
    ensures Load(st + [r]) == Load(st) + Cost(r)
  {
    assert (st + [r])[..|st|] == st;
  }

  lemma LoadPushThree(st: seq<Range>, p: Range, q: Range, r: Range)
    ensures Load(st + [p, q, r]) == Load(st) + Cost(p) + Cost(q) + Cost(r)
  {
    LoadPush(st, p);
    LoadPush(st + [p], q);
    LoadPush(st + [p] + [q], r);
    assert st + [p, q, r] == st + [p] + [q] + [r];
  }

  /** Going one byte deeper costs less. */
  lemma DeeperCosts(r: Range, size: int, rest: int)
    requires 0 <= size && 0 <= rest && Size(r) == size + rest && r.d < MAX_DEPTH
    ensures 3 * Times(size, MAX_DEPTH - r.d) + 3 * Times(rest, MAX_DEPTH + 1 - r.d) + 3 * size + 1 == Cost(r)
  {
    TimesAdd(size, rest, MAX_DEPTH + 1 - r.d);
  }

  lemma StackedPop(st: seq<Range>, r: Range, lo0: nat, hi0: int)
    requires Stacked(st + [r], lo0, hi0)
    ensures Stacked(st, lo0, hi0) && lo0 <= r.lo <= r.hi + 1 && r.hi <= hi0 && r.d <= MAX_DEPTH
    ensures forall k :: 0 <= k < |st| ==> st[k].hi < r.lo || r.hi < st[k].lo
  {
    var s := st + [r];
    assert s[|st|] == r && forall k :: 0 <= k < |st| ==> s[k] == st[k];
  }

  lemma TurnsAt(b: seq<byte>, a: seq<nat>, st: seq<Range>, lo0: nat, hi0: int, i: nat, j: nat)
    requires Turns(b, a, st, lo0, hi0) && lo0 <= i < j <= hi0
    ensures j < |a| && (Ord(b, a[i], a[j]) || Within(st, i, j))
  {}

  lemma ShuffledOut(s: seq<nat>, t: seq<nat>, lo: nat, end: nat, i: nat)
    requires Shuffled(s, t, lo, end) && i < |s| && !(lo <= i < end)
    ensures |s| == |t| && t[i] == s[i]
  {}

  /** Places not both in the range just rearranged keep their order, or their range. */
  lemma Cross(b: seq<byte>, a: seq<nat>, a': seq<nat>, st: seq<Range>, r: Range, lo0: nat, hi0: nat, i: nat, j: nat)
    requires Stacked(st + [r], lo0, hi0) && Turns(b, a, st + [r], lo0, hi0) && r.lo >= 0 && r.hi + 1 >= 0 && |a| == |a'|
    requires Shuffled(a, a', r.lo, r.hi + 1) && lo0 <= i < j <= hi0 && !(r.lo <= i && j <= r.hi)
    ensures j < |a'| && (Ord(b, a'[i], a'[j]) || Within(st, i, j))
  {
    hide Shuffled, Turns, Stacked, Ord;
    StackedPop(st, r, lo0, hi0);
    TurnsAt(b, a, st + [r], lo0, hi0, i, j);
    var i', j' := i, j;
    if r.lo <= i <= r.hi { i' := ShuffledFrom(a, a', r.lo, r.hi + 1, i); }
       else { ShuffledOut(a, a', r.lo, r.hi + 1, i); }
    if r.lo <= j <= r.hi { j' := ShuffledFrom(a, a', r.lo, r.hi + 1, j); }
       else { ShuffledOut(a, a', r.lo, r.hi + 1, j); }
    TurnsAt(b, a, st + [r], lo0, hi0, i', j');
    if !Ord(b, a[i'], a[j']) {
      var k :| 0 <= k < |st| + 1 && (st + [r])[k].lo <= i' && j' <= (st + [r])[k].hi;
      assert k < |st| && (st + [r])[|st|] == r;
      assert i' == i && j' == j;
      assert st[k].lo <= i && j <= st[k].hi;
    }
  }

  /** t lists p, q and r in some order. */
  ghost predicate Three(t: seq<Range>, p: Range, q: Range, r: Range) {
    t == [p, q, r] || t == [p, r, q] || t == [q, p, r] || t == [q, r, p] || t == [r, p, q] || t == [r, q, p]
  }

  lemma ThreeHas(t: seq<Range>, p: Range, q: Range, r: Range)
    requires Three(t, p, q, r)
    ensures |t| == 3 && p in t && q in t && r in t && forall x :: x in t ==> x == p || x == q || x == r
  {}

  lemma WithinMore(st: seq<Range>, t: seq<Range>, i: int, j: int)
    requires Within(st, i, j) || exists x :: x in t && x.lo <= i && j <= x.hi
    ensures Within(st + t, i, j)
  {
    if Within(st, i, j) {
      var k :| 0 <= k < |st| && st[k].lo <= i && j <= st[k].hi;
      assert (st + t)[k] == st[k];
    } else {
      var x :| x in t && x.lo <= i && j <= x.hi;
      var k :| 0 <= k < |t| && t[k] == x;
      assert (st + t)[|st| + k] == x;
    }
  }

  /** The next byte decides between rotations that agree so far. */
  lemma NextByte(b: seq<byte>, block: seq<byte>, x: nat, y: nat, d: nat)
    requires Extends(block, b) && d < MAX_DEPTH && Agree(b, x, y, d) && x + d < |block| && y + d < |block|
    ensures block[x + d] < block[y + d] ==> Ord(b, x, y)
    ensures block[x + d] == block[y + d] ==> Agree(b, x, y, d + 1)
  {
    hide LeH, EqH;
    var n := |b|;
    assert Wrap(n, x + d) == Adv(n, x, d) && Wrap(n, y + d) == Adv(n, y, d);
    if block[x + d] < block[y + d] {
      BytesDecide(b, Adv(n, x, d), Adv(n, y, d));
      LeSplit(b, x, y, d, n);
      LeShorter(b, x, y, n, d + n);
    } else if block[x + d] == block[y + d] {
      EqSplit(b, x, y, d, 1);
      OneByte(b, Adv(n, x, d), Adv(n, y, d));
    }
  }

  /** A range parted by its next byte: different parts are in order, and the middle part agrees on one byte more. */
  lemma PartedTurns(b: seq<byte>, block: seq<byte>, a: seq<nat>, d: nat, lo: nat, le: nat, ge: nat, end: nat, med: nat)
    requires Extends(block, b) && d < MAX_DEPTH && Share(b, a, lo, end, d)
             && Parted(a, block[d..], lo, le, ge, end, med)
    ensures forall i, j :: lo <= i < j < end && !(j < le) && !(ge <= i) && !(le <= i && j < ge) ==> Ord(b, a[i], a[j])
    ensures Share(b, a, lo, le, d) && Share(b, a, le, ge, d + 1) && Share(b, a, ge, end, d)
  {
    hide Ord, Agree, Parted;
    PartedBounds(a, block[d..], lo, le, ge, end, med);
    forall i, j | lo <= i < j < end && !(j < le) && !(ge <= i) && !(le <= i && j < ge)
      ensures Ord(b, a[i], a[j])
    {
      PartedSide(a, block, d, lo, le, ge, end, med, i);
      PartedSide(a, block, d, lo, le, ge, end, med, j);
      NextByte(b, block, a[i], a[j], d);
    }
    forall i, j | le <= i < ge && le <= j < ge
      ensures Agree(b, a[i], a[j], d + 1)
    {
      PartedSide(a, block, d, lo, le, ge, end, med, i);
      PartedSide(a, block, d, lo, le, ge, end, med, j);
      NextByte(b, block, a[i], a[j], d);
    }
  }

  lemma PartedBounds(a: seq<nat>, key: seq<nat>, lo: nat, le: nat, ge: nat, end: nat, med: nat)
    requires Parted(a, key, lo, le, ge, end, med)
    ensures lo <= le <= ge <= end <= |a|
  {}

  lemma PartedSide(a: seq<nat>, block: seq<byte>, d: nat, lo: nat, le: nat, ge: nat, end: nat, med: nat, i: nat)
    requires d <= |block| && Parted(a, block[d..], lo, le, ge, end, med) && lo <= i < end
    ensures i < |a| && a[i] + d < |block| && Compare(block[a[i] + d], med) == if i < le then Less
            else if i < ge then Equal else Greater
  {
    assert KeyAt(a, block[d..], i) == block[d..][a[i]];
  }

  /** What the main loop of mainQSort3 keeps. */
  ghost predicate Sorting(b: seq<byte>, was: seq<nat>, a: seq<nat>, st: seq<Range>, lo0: nat, hi0: nat) {
    && lo0 <= hi0 < |a| && Shuffled(was, a, lo0, hi0 + 1) && Stacked(st, lo0, hi0)
    && Turns(b, a, st, lo0, hi0) && Deep(b, a, st) && Halving(st, hi0 - lo0 + 1)
  }

  /** What popping and then rearranging the popped range leaves of it. */
  ghost predicate Popped(b: seq<byte>, was: seq<nat>, a: seq<nat>, a': seq<nat>, st: seq<Range>, r: Range, lo0: nat,
                         hi0: nat) {
    && Sorting(b, was, a, st + [r], lo0, hi0) && 0 <= r.lo <= r.hi + 1 && |a| == |a'| && Shuffled(a, a', r.lo, r.hi + 1)
  }

  lemma PoppedKeeps(b: seq<byte>, was: seq<nat>, a: seq<nat>, a': seq<nat>, st: seq<Range>, r: Range, lo0: nat,
                    hi0: nat)
    requires Popped(b, was, a, a', st, r, lo0, hi0)
    ensures lo0 <= hi0 < |a'| && Shuffled(was, a', lo0, hi0 + 1) && Stacked(st, lo0, hi0) && Deep(b, a', st)
    ensures Halving(st, hi0 - lo0 + 1) && Size(r) <= Shr(hi0 - lo0 + 1, |st| / 2)
    ensures lo0 <= r.lo <= r.hi + 1 && r.hi <= hi0 && r.d <= MAX_DEPTH
    ensures forall k :: 0 <= k < |st| ==> st[k].hi < r.lo || r.hi < st[k].lo
  {
    hide Shuffled, Stacked, Turns, Share;
    StackedPop(st, r, lo0, hi0);
    ShuffledWider(a, a', r.lo, r.hi + 1, lo0, hi0 + 1);
    ShuffledTrans(was, a, a', lo0, hi0 + 1);
    var s := st + [r];
    assert s[|st|] == r && forall k :: 0 <= k < |st| ==> s[k] == st[k];
    forall k | 0 <= k < |st|
      ensures 0 <= st[k].lo <= st[k].hi + 1 && Share(b, a', st[k].lo, st[k].hi + 1, st[k].d)
    {
      ShareApart(b, a, a', st[k].lo, st[k].hi + 1, st[k].d, r.lo, r.hi + 1);
    }
  }

  lemma ShareApart(b: seq<byte>, a: seq<nat>, a': seq<nat>, lo: nat, end: nat, d: nat, lo1: nat, end1: nat)
    requires Share(b, a, lo, end, d) && Shuffled(a, a', lo1, end1) && (end <= lo1 || end1 <= lo)
    ensures Share(b, a', lo, end, d)
  {
    hide Agree;
    assert forall i :: lo <= i < end ==> a'[i] == a[i];
  }

  lemma SortedStep(b: seq<byte>, was: seq<nat>, a: seq<nat>, a': seq<nat>, st: seq<Range>, r: Range, lo0: nat, hi0: nat)
    requires Popped(b, was, a, a', st, r, lo0, hi0) && InTurn(b, a', r.lo, r.hi + 1)
    ensures Sorting(b, was, a', st, lo0, hi0) && 0 <= Load(st) < Load(st + [r])
  {
    hide Shuffled, Stacked, Deep, Halving, Ord, Cost, Within;
    PoppedKeeps(b, was, a, a', st, r, lo0, hi0);
    forall i: nat, j: nat | lo0 <= i < j <= hi0
      ensures Ord(b, a'[i], a'[j]) || Within(st, i, j)
    {
      if !(r.lo <= i && j <= r.hi) { Cross(b, a, a', st, r, lo0, hi0, i, j); }
    }
    LoadPush(st, r);
    LoadPositive(st, lo0, hi0);
    CostPositive(r);
  }

  lemma CostPositive(r: Range)
    requires Size(r) >= 0
    ensures Cost(r) >= 1
  {
    TimesPositive(Size(r), if r.d <= MAX_DEPTH then MAX_DEPTH + 1 - r.d else 0);
  }

  /** The popped range goes back on the stack, one byte deeper. */
  lemma DeeperStep(b: seq<byte>, was: seq<nat>, a: seq<nat>, a': seq<nat>, st: seq<Range>, r: Range, lo0: nat, hi0: nat)
    requires Popped(b, was, a, a', st, r, lo0, hi0) && Share(b, a', r.lo, r.hi + 1, r.d + 1) && r.d < MAX_DEPTH
             && r.lo <= r.hi
    ensures Sorting(b, was, a', st + [Range(r.lo, r.hi, r.d + 1)], lo0, hi0)
    ensures 0 <= Load(st + [Range(r.lo, r.hi, r.d + 1)]) < Load(st + [r])
  {
    hide Shuffled, Share, Ord, Cost, Within, Load;
    PoppedKeeps(b, was, a, a', st, r, lo0, hi0);
    var r' := Range(r.lo, r.hi, r.d + 1);
    forall i: nat, j: nat | lo0 <= i < j <= hi0
      ensures Ord(b, a'[i], a'[j]) || Within(st + [r'], i, j)
    {
      if !(r.lo <= i && j <= r.hi) {
        Cross(b, a, a', st, r, lo0, hi0, i, j);
      } else {
        assert r' in [r'];
      }
      if !Ord(b, a'[i], a'[j]) { WithinMore(st, [r'], i, j); }
    }
    LoadPush(st, r);
    LoadPush(st, r');
    LoadPositive(st, lo0, hi0);
    CostPositive(r');
    CostDeeper(r);
  }

  lemma CostDeeper(r: Range)
    requires Size(r) > 0 && r.d < MAX_DEPTH
    ensures Cost(Range(r.lo, r.hi, r.d + 1)) < Cost(r)
  {
    DeeperCosts(r, Size(r), 0);
    TimesZero(MAX_DEPTH + 1 - r.d);
  }

  lemma {:induction false} TimesZero(k: nat)
    ensures Times(0, k) == 0
  {
    if k > 0 { TimesZero(k - 1); }
  }

  /** The popped range has been parted; le and ge bound the middle part, which is not empty. */
  ghost predicate PartedRange(b: seq<byte>, block: seq<byte>, a: seq<nat>, r: Range, le: int, ge: int, med: nat) {
    && Extends(block, b) && 0 <= r.lo <= le < ge <= r.hi + 1 && r.d < MAX_DEPTH
    && Share(b, a, r.lo, r.hi + 1, r.d) && Parted(a, block[r.d..], r.lo, le, ge, r.hi + 1, med)
  }

  function LowPart(r: Range, le: int): Range { Range(r.lo, le - 1, r.d) }
  function HighPart(r: Range, ge: int): Range { Range(ge, r.hi, r.d) }
  function MiddlePart(r: Range, le: int, ge: int): Range { Range(le, ge - 1, r.d + 1) }

  lemma ThreeTurns(b: seq<byte>, block: seq<byte>, was: seq<nat>, a: seq<nat>, a': seq<nat>, st: seq<Range>, r: Range,
                   lo0: nat, hi0: nat,
                   le: int, ge: int, med: nat, t: seq<Range>)
    requires Popped(b, was, a, a', st, r, lo0, hi0) && PartedRange(b, block, a', r, le, ge, med)
    requires Three(t, LowPart(r, le), HighPart(r, ge), MiddlePart(r, le, ge))
    ensures Turns(b, a', st + t, lo0, hi0)
  {
    hide Shuffled, Share, Ord, Within, Stacked, Deep, Halving, Three;
    PoppedKeeps(b, was, a, a', st, r, lo0, hi0);
    PartedTurns(b, block, a', r.d, r.lo, le, ge, r.hi + 1, med);
    ThreeHas(t, LowPart(r, le), HighPart(r, ge), MiddlePart(r, le, ge));
    forall i: nat, j: nat | lo0 <= i < j <= hi0
      ensures Ord(b, a'[i], a'[j]) || Within(st + t, i, j)
    {
      if !(r.lo <= i && j <= r.hi) { Cross(b, a, a', st, r, lo0, hi0, i, j); }
      if !Ord(b, a'[i], a'[j]) { WithinMore(st, t, i, j); }
    }
  }

  lemma ThreeDeep(b: seq<byte>, block: seq<byte>, a: seq<nat>, st: seq<Range>, r: Range, le: int, ge: int, med: nat,
                  t: seq<Range>)
    requires Deep(b, a, st) && PartedRange(b, block, a, r, le, ge, med)
    requires Three(t, LowPart(r, le), HighPart(r, ge), MiddlePart(r, le, ge))
    ensures Deep(b, a, st + t)
  {
    hide Share, Parted, Three;
    PartedTurns(b, block, a, r.d, r.lo, le, ge, r.hi + 1, med);
    ThreeHas(t, LowPart(r, le), HighPart(r, ge), MiddlePart(r, le, ge));
    forall k | 0 <= k < |st + t|
      ensures var x := (st + t)[k]; 0 <= x.lo <= x.hi + 1 && Share(b, a, x.lo, x.hi + 1, x.d)
    {
      if k >= |st| { assert t[k - |st|] in t; }
    }
  }

  lemma ThreeStacked(st: seq<Range>, r: Range, lo0: nat, hi0: int, le: int, ge: int, t: seq<Range>)
    requires Stacked(st, lo0, hi0) && lo0 <= r.lo && r.hi <= hi0 && r.lo <= le < ge <= r.hi + 1 && r.d < MAX_DEPTH
    requires forall k :: 0 <= k < |st| ==> st[k].hi < r.lo || r.hi < st[k].lo
    requires Three(t, LowPart(r, le), HighPart(r, ge), MiddlePart(r, le, ge))
    ensures Stacked(st + t, lo0, hi0)
  {}

  lemma ThreeHalving(st: seq<Range>, r: Range, N: nat, t: seq<Range>)
    requires Halving(st, N) && Size(r) <= Shr(N, |st| / 2) && |t| == 3 && Size(t[0]) >= Size(t[1]) >= Size(t[2]) >= 0
    requires Size(t[0]) + Size(t[1]) + Size(t[2]) == Size(r)
    ensures Halving(st + t, N)
  {
    hide Shr;
    var k := |st|;
    ShrHalf(N, k / 2);
    assert (k + 2) / 2 == k / 2 + 1;
    forall m | 0 <= m < |st + t|
      ensures Size((st + t)[m]) <= Shr(N, m / 2)
    {
      if m >= k { assert (st + t)[m] == t[m - k]; }
    }
  }

  lemma ThreeCosts(st: seq<Range>, r: Range, le: int, ge: int, t: seq<Range>)
    requires r.lo <= le < ge <= r.hi + 1 && r.d < MAX_DEPTH
    requires Three(t, LowPart(r, le), HighPart(r, ge), MiddlePart(r, le, ge))
    ensures Load(st + t) < Load(st + [r])
  {
    hide Times, Load;
    var p, q, m := LowPart(r, le), HighPart(r, ge), MiddlePart(r, le, ge);
    LoadPush(st, r);
    LoadPushThree(st, t[0], t[1], t[2]);
    assert t == [t[0], t[1], t[2]];
    assert Cost(t[0]) + Cost(t[1]) + Cost(t[2]) == Cost(p) + Cost(q) + Cost(m);
    DeeperCosts(r, Size(m), Size(p) + Size(q));
    TimesAdd(Size(p), Size(q), MAX_DEPTH + 1 - r.d);
  }

  lemma PartedStep(b: seq<byte>, block: seq<byte>, was: seq<nat>, a: seq<nat>, a': seq<nat>, st: seq<Range>, r: Range,
                   lo0: nat, hi0: nat,
                   le: int, ge: int, med: nat, t: seq<Range>)
    requires Popped(b, was, a, a', st, r, lo0, hi0) && PartedRange(b, block, a', r, le, ge, med)
    requires Three(t, LowPart(r, le), HighPart(r, ge), MiddlePart(r, le, ge)) && Size(t[0]) >= Size(t[1]) >= Size(t[2])
    ensures Sorting(b, was, a', st + t, lo0, hi0) && 0 <= Load(st + t) < Load(st + [r])
  {
    hide Shuffled, Share, Ord, Within, Stacked, Deep, Halving, Turns, Load, Parted;
    PoppedKeeps(b, was, a, a', st, r, lo0, hi0);
    ThreeTurns(b, block, was, a, a', st, r, lo0, hi0, le, ge, med, t);
    ThreeDeep(b, block, a', st, r, le, ge, med, t);
    ThreeStacked(st, r, lo0, hi0, le, ge, t);
    ThreeHalving(st, r, hi0 - lo0 + 1, t);
    ThreeCosts(st, r, le, ge, t);
    LoadPositive(st + t, lo0, hi0);
  }

  // ---------- mainQSort3 ----------

  /** mmed3: the middle of three. */
  method Mmed3(x: byte, y: byte, z: byte) returns (med: byte)
    ensures med == x || med == y || med == z
    ensures (x <= med <= y || y <= med <= x) || (x <= med <= z || z <= med <= x) || (y <= med <= z || z <= med <= y)
  {
    var a, b, c := x, y, z;
    if a > b { a, b := b, a; }
    if b > c {
      b := c;
      if a > b { b := a; }
    }
    med := b;
  }

  lemma ShareInto(b: seq<byte>, block: seq<byte>, a: seq<nat>, lo: nat, end: nat, d: nat)
    requires Extends(block, b) && Share(b, a, lo, end, d) && d <= MAX_DEPTH
    ensures d <= |block| && Into(a, block[d..], lo, end) && end <= |a|
    ensures forall i :: lo <= i < end ==> a[i] + d < |block| && KeyAt(a, block[d..], i) == block[a[i] + d]
  {}

  lemma SameByte(b: seq<byte>, block: seq<byte>, a: seq<nat>, lo: nat, ltLo: nat, unLo: nat, gtEnd: nat, end: nat,
                 d: nat, med: nat)
    requires Extends(block, b) && Share(b, a, lo, end, d) && d < MAX_DEPTH
    requires d <= |block| && Split(a, block[d..], lo, ltLo, unLo, unLo, gtEnd, end, med) && gtEnd <= ltLo
    ensures Share(b, a, lo, end, d + 1)
  {
    hide Agree;
    ShareInto(b, block, a, lo, end, d);
    forall i | lo <= i < end
      ensures block[a[i] + d] == med
    {
      assert Compare(KeyAt(a, block[d..], i), med) == Equal;
    }
    forall i, j | lo <= i < end && lo <= j < end
      ensures Agree(b, a[i], a[j], d + 1)
    {
      NextByte(b, block, a[i], a[j], d);
    }
  }

  /** The pivot's own entry keeps the middle part from being empty. */
  lemma MiddleFull(b: seq<byte>, block: seq<byte>, a: seq<nat>, a': seq<nat>, d: nat, lo: nat, le: nat, ge: nat,
                   end: nat, med: nat, p: nat)
    requires d <= |block| && Shuffled(a, a', lo, end) && Parted(a', block[d..], lo, le, ge, end, med)
             && lo <= p < end <= |a|
    requires a[p] + d < |block| && block[a[p] + d] == med
    ensures le < ge
  {
    hide Shuffled;
    ShuffledSym(a, a', lo, end);
    var q := ShuffledFrom(a', a, lo, end, p);
    PartedSide(a', block, d, lo, le, ge, end, med, q);
  }

  /** One round of partitioning by the byte at depth d. */
  method PartByte(ptr: array<nat>, block: seq<byte>, lo: nat, hi: nat, d: nat, ghost b: seq<byte>)
    returns (same: bool, n: int, m: int, ghost med: nat)
    requires lo <= hi < ptr.Length && d < MAX_DEPTH && Extends(block, b) && Share(b, ptr[..], lo, hi + 1, d)
    modifies ptr
    ensures Shuffled(old(ptr[..]), ptr[..], lo, hi + 1) && Share(b, ptr[..], lo, hi + 1, d)
    ensures same ==> Share(b, ptr[..], lo, hi + 1, d + 1)
    ensures !same ==> PartedRange(b, block, ptr[..], Range(lo, hi, d), n + 1, m, med)
  {
    hide *;
    ghost var a := ptr[..];
    ShareInto(b, block, a, lo, hi + 1, d);
    var mid := (lo + hi) / 2;
    var pivot := Mmed3(block[ptr[lo] + d], block[ptr[hi] + d], block[ptr[mid] + d]);
    ghost var p := if pivot == block[a[lo] + d] then lo else if pivot == block[a[hi] + d] then hi else mid;
    med := pivot;
    var ltLo, unLo, unHi, gtHi := Partition(ptr, block[d..], lo, hi, pivot);
    ghost var split := ptr[..];
    ShareShuffled(b, a, split, lo, hi + 1, d);
    n, m, same := 0, 0, gtHi < ltLo;
    if same {
      SameByte(b, block, split, lo, ltLo, unLo, gtHi + 1, hi + 1, d, med);
    } else {
      n, m := Gather(ptr, block[d..], lo, hi, pivot, ltLo, unLo, unHi, gtHi);
      ShuffledTrans(a, split, ptr[..], lo, hi + 1);
      ShareShuffled(b, a, ptr[..], lo, hi + 1, d);
      MiddleFull(b, block, a, ptr[..], d, lo, n + 1, m, hi + 1, med, p);
      PartedBounds(ptr[..], block[d..], lo, n + 1, m, hi + 1, med);
      PartedRangeIs(b, block, ptr[..], Range(lo, hi, d), n + 1, m, med);
    }
  }

  lemma PartedRangeIs(b: seq<byte>, block: seq<byte>, a: seq<nat>, r: Range, le: int, ge: int, med: nat)
    requires Extends(block, b) && 0 <= r.lo <= le < ge <= r.hi + 1 && r.d < MAX_DEPTH && r.d <= |block|
    requires Share(b, a, r.lo, r.hi + 1, r.d) && Parted(a, block[r.d..], r.lo, le, ge, r.hi + 1, med)
    ensures PartedRange(b, block, a, r, le, ge, med)
  {}

  /** The three parts, largest first: the three conditional swaps of the next arrays. */
  method SortThree(p: Range, q: Range, r: Range) returns (next: seq<Range>)
    ensures Three(next, p, q, r) && Size(next[0]) >= Size(next[1]) >= Size(next[2])
  {
    next := [p, q, r];
    if Size(next[0]) < Size(next[1]) { next := [next[1], next[0], next[2]]; }
    if Size(next[1]) < Size(next[2]) { next := [next[0], next[2], next[1]]; }
    if Size(next[0]) < Size(next[1]) { next := [next[1], next[0], next[2]]; }
  }

  /** Three ranges onto the stack. */
  method PushThree(stack: array<Range>, sp: nat, next: seq<Range>)
    requires |next| == 3 && sp + 3 <= stack.Length
    modifies stack
    ensures stack[..sp + 3] == old(stack[..sp]) + next
  {
    stack[sp], stack[sp + 1], stack[sp + 2] := next[0], next[1], next[2];
  }

  method PushOne(stack: array<Range>, sp: nat, r: Range)
    requires sp < stack.Length
    modifies stack
    ensures stack[..sp + 1] == old(stack[..sp]) + [r]
  {
    stack[sp] := r;
  }

  lemma TopRange(b: seq<byte>, was: seq<nat>, a: seq<nat>, st: seq<Range>, r: Range, lo0: nat, hi0: nat)
    requires Sorting(b, was, a, st + [r], lo0, hi0) && hi0 + 1 < BLOCK_LIMIT
    ensures hi0 < |a| && lo0 <= r.lo <= r.hi + 1 && r.hi <= hi0 && r.d <= MAX_DEPTH && (r.lo <= r.hi ==> |st| < 40)
    ensures Share(b, a, r.lo, r.hi + 1, r.d)
  {
    hide Turns, Shuffled, Share;
    StackedPop(st, r, lo0, hi0);
    var k := |st|;
    assert (st + [r])[k] == r;
    if r.lo <= r.hi && k >= 40 {
      Pow2Values();
      ShrGone(hi0 - lo0 + 1, k / 2, 20);
    }
  }

  lemma PoppedIs(b: seq<byte>, was: seq<nat>, a: seq<nat>, a': seq<nat>, st: seq<Range>, r: Range, lo0: nat, hi0: nat)
    requires Sorting(b, was, a, st + [r], lo0, hi0) && 0 <= r.lo <= r.hi + 1 && |a| == |a'|
             && Shuffled(a, a', r.lo, r.hi + 1)
    ensures Popped(b, was, a, a', st, r, lo0, hi0)
    ensures r.hi <= hi0 && lo0 <= r.lo ==> Shuffled(was, a', lo0, hi0 + 1)
  {
    hide Turns, Deep, Stacked, Halving, Shuffled;
    if r.hi <= hi0 && lo0 <= r.lo {
      ShuffledWider(a, a', r.lo, r.hi + 1, lo0, hi0 + 1);
      ShuffledTrans(was, a, a', lo0, hi0 + 1);
    }
  }

  /** Partitions the range just taken off the stack, and stacks it one byte deeper or its three parts. */
  method SplitTop(ptr: array<nat>, block: seq<byte>, stack: array<Range>, sp: nat, r: Range,
                  ghost b: seq<byte>, ghost was: seq<nat>, ghost loSt: nat, ghost hiSt: nat) returns (sp': nat)
    requires sp + 3 <= stack.Length && (ptr as object) != (stack as object) && Extends(block, b)
    requires loSt <= r.lo <= r.hi <= hiSt < ptr.Length && r.d < MAX_DEPTH && Share(b, ptr[..], r.lo, r.hi + 1, r.d)
    requires Sorting(b, was, ptr[..], stack[..sp] + [r], loSt, hiSt)
    modifies ptr, stack
    ensures sp' <= sp + 3 && Sorting(b, was, ptr[..], stack[..sp'], loSt, hiSt)
    ensures 0 <= Load(stack[..sp']) < old(Load(stack[..sp] + [r]))
  {
    hide *;
    ghost var a, st := ptr[..], stack[..sp];
    var same, n, m;
    ghost var med;
    same, n, m, med := PartByte(ptr, block, r.lo, r.hi, r.d, b);
    assert r == Range(r.lo, r.hi, r.d);
    PoppedIs(b, was, a, ptr[..], st, r, loSt, hiSt);
    if same {
      DeeperStep(b, was, a, ptr[..], st, r, loSt, hiSt);
      PushOne(stack, sp, Range(r.lo, r.hi, r.d + 1));
      sp' := sp + 1;
    } else {
      PartsAre(r, n, m);
      var next := SortThree(Range(r.lo, n, r.d), Range(m, r.hi, r.d), Range(n + 1, m - 1, r.d + 1));
      PartedStep(b, block, was, a, ptr[..], st, r, loSt, hiSt, n + 1, m, med, next);
      ThreeHas(next, LowPart(r, n + 1), HighPart(r, m), MiddlePart(r, n + 1, m));
      PushThree(stack, sp, next);
      sp' := sp + 3;
    }
  }

  lemma PartsAre(r: Range, n: int, m: int)
    ensures LowPart(r, n + 1) == Range(r.lo, n, r.d) && HighPart(r, m) == Range(m, r.hi, r.d)
    ensures MiddlePart(r, n + 1, m) == Range(n + 1, m - 1, r.d + 1)
  {}

  /** Takes one range off the stack: a short or deep one is sorted at once, any other partitioned. */
  method SortTop(ptr: array<nat>, block: seq<byte>, quadrant: seq<nat>, nblock: nat, stack: array<Range>, sp: nat,
                 budget: int,
                 ghost b: seq<byte>, ghost was: seq<nat>, ghost loSt: nat, ghost hiSt: nat)
                   returns (sp': nat, budget': int)
    requires nblock == |b| && Extends(block, b) && Sound(quadrant, b) && budget >= 0
             && (ptr as object) != (stack as object)
    requires stack.Length == STACK_SIZE && 0 < sp <= 43 && loSt <= hiSt < ptr.Length && hiSt + 1 < BLOCK_LIMIT
    requires Sorting(b, was, ptr[..], stack[..sp], loSt, hiSt)
    modifies ptr, stack
    ensures sp' <= 43 && budget' <= budget && Shuffled(was, ptr[..], loSt, hiSt + 1)
    ensures budget' >= 0 ==> Sorting(b, was, ptr[..], stack[..sp'], loSt, hiSt)
    ensures budget' >= 0 ==> 0 <= Load(stack[..sp']) < old(Load(stack[..sp]))
  {
    assert STACK_SIZE == 100 && SMALL_THRESH == 20 && DEPTH_THRESH == 14 && MAX_DEPTH == 15 && BLOCK_LIMIT == 0x10_0000;
    hide *;
    ghost var a := ptr[..];
    sp', budget' := sp - 1, budget;
    var r := stack[sp'];
    ghost var st := stack[..sp'];
    assert stack[..sp] == st + [r];
    TopRange(b, was, a, st, r, loSt, hiSt);
    if r.hi - r.lo < SMALL_THRESH || r.d > DEPTH_THRESH {
      budget' := MainSimpleSort(ptr, block, quadrant, nblock, r.lo, r.hi, r.d, budget, b);
      PoppedIs(b, was, a, ptr[..], st, r, loSt, hiSt);
      if budget' >= 0 {
        SortedStep(b, was, a, ptr[..], st, r, loSt, hiSt);
      }
    } else {
      sp' := SplitTop(ptr, block, stack, sp', r, b, was, loSt, hiSt);
      SortingShuffled(b, was, ptr[..], stack[..sp'], loSt, hiSt);
    }
  }

  lemma SortingShuffled(b: seq<byte>, was: seq<nat>, a: seq<nat>, st: seq<Range>, lo0: nat, hi0: nat)
    requires Sorting(b, was, a, st, lo0, hi0)
    ensures Shuffled(was, a, lo0, hi0 + 1)
  {}

  /** mainQSort3: the range comes out in order unless the budget runs out, and the stack never comes near its limit. */
  method MainQSort3(ptr: array<nat>, block: seq<byte>, quadrant: seq<nat>, nblock: nat, loSt: nat, hiSt: nat, dSt: nat,
                    budget: int, ghost b: seq<byte>) returns (budget': int)
    requires nblock == |b| && Extends(block, b) && Sound(quadrant, b) && budget >= 0 && dSt <= MAX_DEPTH
    requires loSt <= hiSt < ptr.Length && hiSt + 1 < BLOCK_LIMIT && Share(b, ptr[..], loSt, hiSt + 1, dSt)
    modifies ptr
    ensures Shuffled(old(ptr[..]), ptr[..], loSt, hiSt + 1) && budget' <= budget
    ensures budget' >= 0 ==> InTurn(b, ptr[..], loSt, hiSt + 1)
  {
    assert STACK_SIZE == 100;
    hide *;
    var stack := NewStack(Range(loSt, hiSt, dSt));
    ghost var was := ptr[..];
    var sp := 1;
    budget' := budget;
    SortingStart(b, was, loSt, hiSt, dSt);
    while sp > 0
      invariant 0 <= sp <= 43 && 0 <= budget' <= budget
      invariant Sorting(b, was, ptr[..], stack[..sp], loSt, hiSt)
      decreases Load(stack[..sp])
    {
      assert sp < STACK_SIZE - 2;
      sp, budget' := SortTop(ptr, block, quadrant, nblock, stack, sp, budget', b, was, loSt, hiSt);
      if budget' < 0 { return; }
    }
    assert stack[..sp] == [];
    SortingEnd(b, was, ptr[..], loSt, hiSt);
  }

  method NewStack(r: Range) returns (stack: array<Range>)
    ensures fresh(stack) && stack.Length == STACK_SIZE && stack[..1] == [r]
  {
    stack := new Range[STACK_SIZE](_ => r);
  }

  lemma SortingStart(b: seq<byte>, a: seq<nat>, lo: nat, hi: nat, d: nat)
    requires lo <= hi < |a| && Share(b, a, lo, hi + 1, d) && d <= MAX_DEPTH
    ensures Sorting(b, a, a, [Range(lo, hi, d)], lo, hi)
  {
    var r := Range(lo, hi, d);
    forall i, j | lo <= i < j <= hi
      ensures Within([r], i, j)
    {
      assert [r][0].lo <= i && j <= [r][0].hi;
    }
  }

  lemma SortingEnd(b: seq<byte>, was: seq<nat>, a: seq<nat>, lo: nat, hi: nat)
    requires Sorting(b, was, a, [], lo, hi)
    ensures Shuffled(was, a, lo, hi + 1) && InTurn(b, a, lo, hi + 1)
  {}
}
