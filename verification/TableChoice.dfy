/**
 The first half of sendMTFValues: starting tables, and four rounds of choosing a table per group and refitting the
 tables.
*/
module TableChoice {
  import opened Bits
  import opened Occurrences
  import opened Huffman
  import CodeCost
  import opened CodeForest
  import opened CodeLengths
  import opened StreamFormat

  const LESSER_ICOST := 0
  const GREATER_ICOST := 15
  const N_ITERS := 4
  /** Symbols in a block: one per byte and the end symbol. */
  const MOST_SYMBOLS := 900001

  // ---------- tables as rows ----------

  /** k separate rows of full width. */
  ghost predicate Rows(rows: seq<array<nat>>, k: nat) {
    && |rows| == k && (forall t :: 0 <= t < k ==> rows[t].Length == MAX_ALPHA_SIZE)
    && forall t, u :: 0 <= t < u < k ==> rows[t] != rows[u]
  }

  /** The first |lens| rows start with these tables. */
  ghost predicate Shows(rows: seq<array<nat>>, lens: seq<seq<nat>>)
    reads rows
  {
    && |lens| <= |rows|
    && forall t :: 0 <= t < |lens| ==> |lens[t]| <= rows[t].Length && rows[t][..|lens[t]|] == lens[t]
  }

  /** Tables over n symbols with lengths the cost sums can hold. */
  ghost predicate Shaped(lens: seq<seq<nat>>, k: nat, n: nat) {
    |lens| == k && forall t :: 0 <= t < k ==> |lens[t]| == n && LensIn(lens[t], 0, ENC_MAX_LEN)
  }

  // ---------- what a group costs ----------

  /** The bits a table takes for some symbols. */
  function Cost(lens: seq<nat>, syms: seq<nat>): nat
    requires forall k :: 0 <= k < |syms| ==> syms[k] < |lens|
  {
    if syms == [] then 0 else Cost(lens, syms[..|syms| - 1]) + lens[syms[|syms| - 1]]
  }

  ghost predicate InAlphabet(syms: seq<nat>, n: nat) {
    forall k :: 0 <= k < |syms| ==> syms[k] < n
  }

  /** Table t is the first of those that code the symbols in the fewest bits. */
  ghost predicate Best(lens: seq<seq<nat>>, syms: seq<nat>, t: nat, n: nat)
    requires InAlphabet(syms, n) && forall u :: 0 <= u < |lens| ==> |lens[u]| == n
  {
    && t < |lens|
    && (forall u :: 0 <= u < |lens| ==> Cost(lens[t], syms) <= Cost(lens[u], syms))
    && (forall u :: 0 <= u < t ==> Cost(lens[t], syms) < Cost(lens[u], syms))
  }

  lemma CostStep(lens: seq<nat>, syms: seq<nat>, gs: nat, i: nat)
    requires gs <= i < |syms| && InAlphabet(syms, |lens|) && LensIn(lens, 0, ENC_MAX_LEN)
    ensures Cost(lens, syms[gs..i + 1]) == Cost(lens, syms[gs..i]) + lens[syms[i]]
    ensures lens[syms[i]] <= ENC_MAX_LEN
  {
    assert syms[gs..i + 1][..i - gs] == syms[gs..i];
  }

  /** The costs of a group, table by table. */
  ghost predicate Costs(cost: seq<nat>, lens: seq<seq<nat>>, syms: seq<nat>, n: nat)
    requires InAlphabet(syms, n) && forall u :: 0 <= u < |lens| ==> |lens[u]| == n
  {
    |lens| <= |cost| && forall t :: 0 <= t < |lens| ==> cost[t] == Cost(lens[t], syms) <= ENC_MAX_LEN * |syms|
  }

  /** The slow way: table by table. The sums stay far below the 16 bits of a cost entry. */
  method SlowCosts(cost: array<nat>, len: seq<array<nat>>, mtfv: seq<nat>, gs: nat, end: nat, nGroups: nat, n: nat,
                   ghost lens: seq<seq<nat>>)
    requires cost.Length == N_GROUPS && Rows(len, N_GROUPS) && cost !in len && Shows(len, lens)
    requires nGroups == |lens| <= N_GROUPS && Shaped(lens, nGroups, n) && n <= MAX_ALPHA_SIZE
    requires gs <= end <= |mtfv| && InAlphabet(mtfv, n) && end - gs <= G_SIZE
    modifies cost
    ensures Costs(cost[..], lens, mtfv[gs..end], n)
  {
    hide Cost, Rows;
    RowsApart(len, cost);
    for t := 0 to nGroups
      invariant forall u :: 0 <= u < t ==> cost[u] == 0
    {
      cost[t] := 0;
    }
    NoCost(lens, n);
    assert mtfv[gs..gs] == [];
    for i := gs to end
      invariant Costs(cost[..], lens, mtfv[gs..i], n)
    {
      var icv := mtfv[i];
      for t := 0 to nGroups
        invariant forall u :: 0 <= u < t ==> cost[u] == Cost(lens[u], mtfv[gs..i + 1])
        invariant forall u :: t <= u < nGroups ==> cost[u] == Cost(lens[u], mtfv[gs..i])
        invariant forall u :: 0 <= u < nGroups ==> cost[u] <= ENC_MAX_LEN * (i - gs + if u < t then 1 else 0)
      {
        CostStep(lens[t], mtfv, gs, i);
        assert len[t][icv] == len[t][..n][icv] == lens[t][icv];
        cost[t] := cost[t] + len[t][icv];
      }
    }
  }

  lemma RowsApart(rows: seq<array<nat>>, a: array<nat>)
    requires Rows(rows, N_GROUPS) && a !in rows
    ensures |rows| == N_GROUPS && forall t :: 0 <= t < N_GROUPS ==> rows[t].Length == MAX_ALPHA_SIZE && rows[t] != a
  {}

  lemma NoCost(lens: seq<seq<nat>>, n: nat)
    requires Shaped(lens, |lens|, n)
    ensures forall t :: 0 <= t < |lens| ==> Cost(lens[t], []) == 0
  {}

  // ---------- the packed way ----------

  const LANE := 0x1_0000

  /** len_pack holds the lengths two tables at a time, one in each half-word. */
  ghost predicate Packed(pack: array2<nat>, lens: seq<seq<nat>>, n: nat)
    requires |lens| == N_GROUPS && Shaped(lens, N_GROUPS, n)
    reads pack
  {
    && pack.Length0 >= n && pack.Length1 >= 3
    && forall v, c :: 0 <= v < n && 0 <= c < 3 ==> pack[v, c] == LANE * lens[2 * c + 1][v] + lens[2 * c][v]
  }

  lemma PackPair(hi: nat, lo: nat)
    requires lo < LANE
    ensures Or(Shl(hi, 16), lo) == LANE * hi + lo
  {
    ShlMul(hi, 16);
    Pow2Values();
    OrDisjoint(LANE * hi, lo, 16);
  }

  method PackLengths(pack: array2<nat>, len: seq<array<nat>>, n: nat, ghost lens: seq<seq<nat>>)
    requires Rows(len, N_GROUPS) && Shows(len, lens) && |lens| == N_GROUPS && Shaped(lens, N_GROUPS, n)
    requires n <= MAX_ALPHA_SIZE == pack.Length0 && pack.Length1 == 4
    modifies pack
    ensures Packed(pack, lens, n)
  {
    for v := 0 to n
      invariant forall x, c :: 0 <= x < v && 0 <= c < 3 ==> pack[x, c] == LANE * lens[2 * c + 1][x] + lens[2 * c][x]
    {
      RowsAt(len, lens, v, n);
      pack[v, 0] := Or(Shl(len[1][v], 16), len[0][v]);
      pack[v, 1] := Or(Shl(len[3][v], 16), len[2][v]);
      pack[v, 2] := Or(Shl(len[5][v], 16), len[4][v]);
      PackPair(len[1][v], len[0][v]);
      PackPair(len[3][v], len[2][v]);
      PackPair(len[5][v], len[4][v]);
    }
  }

  lemma RowsAt(len: seq<array<nat>>, lens: seq<seq<nat>>, v: nat, n: nat)
    requires Rows(len, N_GROUPS) && Shows(len, lens) && |lens| <= N_GROUPS && Shaped(lens, |lens|, n) && v < n
    ensures forall t :: 0 <= t < |lens| ==> v < len[t].Length && len[t][v] == lens[t][v] <= ENC_MAX_LEN
  {
    forall t | 0 <= t < |lens|
      ensures v < len[t].Length && len[t][v] == lens[t][v] <= ENC_MAX_LEN
    {
      assert len[t][..n][v] == lens[t][v];
    }
  }

  lemma Lanes(hi: nat, lo: nat)
    requires lo < LANE
    ensures (LANE * hi + lo) % LANE == lo && (LANE * hi + lo) / LANE == hi
  {}

  /**
   The fast way, for full groups under six tables: three sums carry two costs each, and no lane spills into the next.
  */
  method FastCosts(cost: array<nat>, pack: array2<nat>, mtfv: seq<nat>, gs: nat, n: nat, ghost lens: seq<seq<nat>>)
    requires cost.Length == N_GROUPS && |lens| == N_GROUPS && Shaped(lens, N_GROUPS, n) && Packed(pack, lens, n)
    requires gs + G_SIZE <= |mtfv| && InAlphabet(mtfv, n)
    modifies cost
    ensures Costs(cost[..], lens, mtfv[gs..gs + G_SIZE], n)
  {
    hide Cost;
    var cost01, cost23, cost45 := 0, 0, 0;
    NoCost(lens, n);
    assert mtfv[gs..gs] == [];
    for i := gs to gs + G_SIZE
      invariant forall t :: 0 <= t < N_GROUPS ==> Cost(lens[t], mtfv[gs..i]) <= ENC_MAX_LEN * (i - gs)
      invariant cost01 == LANE * Cost(lens[1], mtfv[gs..i]) + Cost(lens[0], mtfv[gs..i])
      invariant cost23 == LANE * Cost(lens[3], mtfv[gs..i]) + Cost(lens[2], mtfv[gs..i])
      invariant cost45 == LANE * Cost(lens[5], mtfv[gs..i]) + Cost(lens[4], mtfv[gs..i])
    {
      var icv := mtfv[i];
      forall t | 0 <= t < N_GROUPS
        ensures Cost(lens[t], mtfv[gs..i + 1]) == Cost(lens[t], mtfv[gs..i]) + lens[t][icv]
                && lens[t][icv] <= ENC_MAX_LEN
      {
        CostStep(lens[t], mtfv, gs, i);
      }
      assert pack[icv, 0] == LANE * lens[1][icv] + lens[0][icv];
      assert pack[icv, 1] == LANE * lens[3][icv] + lens[2][icv];
      assert pack[icv, 2] == LANE * lens[5][icv] + lens[4][icv];
      cost01 := cost01 + pack[icv, 0];
      cost23 := cost23 + pack[icv, 1];
      cost45 := cost45 + pack[icv, 2];
    }
    ghost var g := mtfv[gs..gs + G_SIZE];
    Lanes(Cost(lens[1], g), Cost(lens[0], g));
    Lanes(Cost(lens[3], g), Cost(lens[2], g));
    Lanes(Cost(lens[5], g), Cost(lens[4], g));
    cost[0], cost[1] := cost01 % LANE, cost01 / LANE;
    cost[2], cost[3] := cost23 % LANE, cost23 / LANE;
    cost[4], cost[5] := cost45 % LANE, cost45 / LANE;
  }

  /** The first cheapest table. */
  method PickBest(cost: array<nat>, nGroups: nat, n: nat, ghost lens: seq<seq<nat>>, ghost group: seq<nat>)
    returns (bt: nat)
    requires 1 <= nGroups == |lens| <= cost.Length && |group| <= G_SIZE
    requires InAlphabet(group, n) && Shaped(lens, nGroups, n) && Costs(cost[..], lens, group, n)
    ensures Best(lens, group, bt, n)
  {
    hide Cost;
    assert forall t :: 0 <= t < nGroups ==> cost[t] == cost[..][t] == Cost(lens[t], group) <= ENC_MAX_LEN * G_SIZE;
    var bc := 999999999;
    bt := nGroups;
    for t := 0 to nGroups
      invariant t > 0 ==> bt < t && bc == cost[bt]
      invariant t == 0 ==> bc == 999999999
      invariant forall u :: 0 <= u < t ==> bc <= cost[u]
      invariant forall u :: 0 <= u < t && u < bt ==> bc < cost[u]
    {
      if cost[t] < bc { bc, bt := cost[t], t; }
    }
  }

  // ---------- tallying ----------

  /** How often the groups coded with table t hold symbol v. */
  function Uses(sels: seq<byte>, syms: seq<nat>, t: nat, v: nat): nat {
    if syms == [] then 0
    else
      var p := |syms| - 1;
      Uses(sels, syms[..p], t, v) + if p / G_SIZE < |sels| && sels[p / G_SIZE] == t && syms[p] == v then 1 else 0
  }

  /** Later selectors do not matter for the groups already counted. */
  lemma {:induction false} UsesMore(sels: seq<byte>, syms: seq<nat>, bt: byte, t: nat, v: nat)
    requires |syms| <= G_SIZE * |sels|
    ensures Uses(sels + [bt], syms, t, v) == Uses(sels, syms, t, v)
  {
    if syms != [] { UsesMore(sels, syms[..|syms| - 1], bt, t, v); }
  }

  /** The tallies after some symbols: right for every table and symbol, and no larger in all than the symbols read. */
  ghost predicate Tally(rf: seq<seq<nat>>, sels: seq<byte>, syms: seq<nat>, k: nat, n: nat) {
    && |rf| == k
    && (forall t :: 0 <= t < k ==> |rf[t]| == n && Total(rf[t]) <= |syms|)
    && forall t, v :: 0 <= t < k && 0 <= v < n ==> rf[t][v] == Uses(sels, syms, t, v)
  }

  lemma {:induction false} TotalUpdate(s: seq<nat>, i: nat)
    requires i < |s|
    ensures Total(s[i := s[i] + 1]) == Total(s) + 1
  {
    var k, u := |s| - 1, s[i := s[i] + 1];
    if i < k {
      assert u[..k] == s[..k][i := s[i] + 1];
      TotalUpdate(s[..k], i);
    } else {
      assert u[..k] == s[..k];
    }
  }

  lemma TallyStep(rf: seq<seq<nat>>, sels: seq<byte>, syms: seq<nat>, i: nat, bt: nat, k: nat, n: nat)
    requires i < |syms| && Tally(rf, sels, syms[..i], k, n) && InAlphabet(syms, n) && bt < k
    requires i / G_SIZE < |sels| && sels[i / G_SIZE] == bt
    ensures Tally(rf[bt := rf[bt][syms[i] := rf[bt][syms[i]] + 1]], sels, syms[..i + 1], k, n)
  {
    TotalUpdate(rf[bt], syms[i]);
    var rf' := rf[bt := rf[bt][syms[i] := rf[bt][syms[i]] + 1]];
    forall t, v | 0 <= t < k && 0 <= v < n
      ensures rf'[t][v] == Uses(sels, syms[..i + 1], t, v)
    {
      assert syms[..i + 1][..i] == syms[..i];
    }
  }

  lemma TallyMore(rf: seq<seq<nat>>, sels: seq<byte>, syms: seq<nat>, bt: byte, k: nat, n: nat)
    requires Tally(rf, sels, syms, k, n) && |syms| <= G_SIZE * |sels|
    ensures Tally(rf, sels + [bt], syms, k, n)
  {
    forall t, v | 0 <= t < k && 0 <= v < n
      ensures rf[t][v] == Uses(sels + [bt], syms, t, v)
    {
      UsesMore(sels, syms, bt, t, v);
    }
  }

  method CountGroup(rfreq: seq<array<nat>>, mtfv: seq<nat>, gs: nat, end: nat, bt: nat, nGroups: nat, n: nat,
                    ghost rf: seq<seq<nat>>, ghost sels: seq<byte>) returns (ghost rf': seq<seq<nat>>)
    requires Rows(rfreq, N_GROUPS) && Shows(rfreq, rf) && nGroups <= N_GROUPS && n <= MAX_ALPHA_SIZE
    requires gs <= end <= |mtfv| && InAlphabet(mtfv, n) && bt < nGroups && Tally(rf, sels, mtfv[..gs], nGroups, n)
    requires forall i :: gs <= i < end ==> i / G_SIZE < |sels| && sels[i / G_SIZE] == bt
    modifies rfreq
    ensures Shows(rfreq, rf') && Tally(rf', sels, mtfv[..end], nGroups, n)
  {
    hide Uses, Total;
    rf' := rf;
    for i := gs to end
      invariant Shows(rfreq, rf') && Tally(rf', sels, mtfv[..i], nGroups, n)
    {
      var v := mtfv[i];
      TallyStep(rf', sels, mtfv, i, bt, nGroups, n);
      assert rfreq[bt][v] == rfreq[bt][..n][v] == rf'[bt][v];
      ghost var row := rf'[bt][v := rf'[bt][v] + 1];
      label L:
      rfreq[bt][v] := rfreq[bt][v] + 1;
      assert rfreq[bt][..n] == row;
      forall t | 0 <= t < nGroups && t != bt
        ensures rfreq[t][..n] == old@L(rfreq[t][..n])
      {
        RowsDiffer(rfreq, t, bt);
      }
      rf' := rf'[bt := row];
    }
  }

  lemma RowsDiffer(rows: seq<array<nat>>, t: nat, u: nat)
    requires Rows(rows, N_GROUPS) && t < N_GROUPS && u < N_GROUPS && t != u
    ensures rows[t] != rows[u]
  {}

  // ---------- one round ----------

  function GroupEnd(gs: nat, nMTF: nat): nat {
    if gs + G_SIZE >= nMTF then nMTF else gs + G_SIZE
  }

  /** The k-th group of fifty. */
  function GroupOf(syms: seq<nat>, k: nat): seq<nat>
    requires G_SIZE * k <= |syms|
  {
    syms[G_SIZE * k..GroupEnd(G_SIZE * k, |syms|)]
  }

  /** Each selector picks the first cheapest of the tables for its group. */
  ghost predicate Chosen(sels: seq<byte>, lens: seq<seq<nat>>, syms: seq<nat>, n: nat)
    requires InAlphabet(syms, n) && forall u :: 0 <= u < |lens| ==> |lens[u]| == n
  {
    forall k :: 0 <= k < |sels| ==> G_SIZE * k <= |syms| && Best(lens, GroupOf(syms, k), sels[k], n)
  }

  /** How many groups the symbols make. */
  function GroupCount(nMTF: nat): nat {
    (nMTF + G_SIZE - 1) / G_SIZE
  }

  /** The storage of the entropy coder. */
  class CodingTables {
    const len: seq<array<nat>>
    const code: seq<array<nat>>
    const rfreq: seq<array<nat>>
    const lenPack: array2<nat>
    const cost: array<nat>
    const selector: array<byte>
    const selectorMtf: array<nat>
    ghost const repr: set<object>

    ghost predicate Other(r: object) {
      r != (lenPack as object) && r != (selector as object)
    }

    /** Everything these tables write is in repr. */
    ghost predicate Listed() {
      && (forall r :: r in len ==> r in repr) && (forall r :: r in code ==> r in repr)
      && (forall r :: r in rfreq ==> r in repr)
      && lenPack in repr && cost in repr && selector in repr && selectorMtf in repr
    }

    ghost predicate Apart() {
      && Rows(len, N_GROUPS) && Rows(code, N_GROUPS) && Rows(rfreq, N_GROUPS)
      && (forall r :: r in len ==> r !in code && r !in rfreq) && (forall r :: r in code ==> r !in rfreq)
      && cost !in len && cost !in code && cost !in rfreq
      && selectorMtf !in len && selectorMtf !in code && selectorMtf !in rfreq && selectorMtf != cost
      && (forall r :: r in len ==> Other(r)) && (forall r :: r in code ==> Other(r))
      && (forall r :: r in rfreq ==> Other(r))
      && Other(cost) && Other(selectorMtf)
      && (selector as object) != (lenPack as object)
      && cost.Length == N_GROUPS && lenPack.Length0 == MAX_ALPHA_SIZE && lenPack.Length1 == 4
      && selector.Length == selectorMtf.Length == MAX_SELECTORS
    }

    constructor ()
      ensures Apart() && Listed() && fresh(repr)
    {
      var l := NewRows();
      var c := NewRows();
      var f := NewRows();
      var p, k, s, m := new nat[MAX_ALPHA_SIZE, 4], new nat[N_GROUPS], new byte[MAX_SELECTORS], new nat[MAX_SELECTORS];
      len, code, rfreq, lenPack, cost, selector, selectorMtf := l, c, f, p, k, s, m;
      repr := (set r | r in l :: r as object) + (set r | r in c :: r as object) + (set r | r in f :: r as object)
      + {p, k, s, m};
    }

    lemma LenApart()
      requires Apart()
      ensures |len| == N_GROUPS
      ensures forall t :: 0 <= t < N_GROUPS ==>
                len[t] !in rfreq && len[t] !in code && len[t] != cost && len[t] != selectorMtf
      ensures forall t :: 0 <= t < N_GROUPS ==> Other(len[t])
    {
      forall t | 0 <= t < N_GROUPS
        ensures len[t] !in rfreq && len[t] !in code && len[t] != cost && len[t] != selectorMtf && Other(len[t])
      {
        assert len[t] in len;
      }
    }

    /** The first cheapest table for one group. */
    method ChooseTable(mtfv: seq<nat>, gs: nat, end: nat, nGroups: nat, n: nat, ghost lens: seq<seq<nat>>)
      returns (bt: nat)
      requires Apart() && 1 <= nGroups <= N_GROUPS && n <= MAX_ALPHA_SIZE && InAlphabet(mtfv, n)
      requires gs <= end <= |mtfv| && end - gs <= G_SIZE
      requires Shows(len, lens) && Shaped(lens, nGroups, n) && (nGroups == N_GROUPS ==> Packed(lenPack, lens, n))
      modifies cost
      ensures Best(lens, mtfv[gs..end], bt, n) && bt < nGroups
    {
      hide Cost;
      if nGroups == N_GROUPS && end - gs == G_SIZE {
        FastCosts(cost, lenPack, mtfv, gs, n, lens);
      } else {
        SlowCosts(cost, len, mtfv, gs, end, nGroups, n, lens);
      }
      bt := PickBest(cost, nGroups, n, lens, mtfv[gs..end]);
    }

    /** The selectors of one round, and the tallies they give. */
    method Pass(mtfv: seq<nat>, nGroups: nat, n: nat, ghost lens: seq<seq<nat>>)
      returns (nSelectors: nat, ghost rf: seq<seq<nat>>)
      requires Apart() && 1 <= nGroups <= N_GROUPS && n <= MAX_ALPHA_SIZE && |mtfv| <= MOST_SYMBOLS
               && InAlphabet(mtfv, n)
      requires Shows(len, lens) && Shaped(lens, nGroups, n)
      modifies rfreq, lenPack, cost, selector
      ensures nSelectors == GroupCount(|mtfv|) <= MAX_SELECTORS
      ensures Chosen(selector[..nSelectors], lens, mtfv, n)
      ensures Shows(rfreq, rf) && Tally(rf, selector[..nSelectors], mtfv, nGroups, n)
    {
      hide Uses, Total, Cost, Tally, Chosen, Best, LensIn, Packed;
      ChosenNone(lens, mtfv, n);
      LenApart();
      rf := ZeroRows(rfreq, nGroups, n);
      if nGroups == N_GROUPS {
        PackLengths(lenPack, len, n, lens);
      }
      nSelectors := 0;
      var gs := 0;
      while gs < |mtfv|
        invariant gs == (if G_SIZE * nSelectors >= |mtfv| then |mtfv| else G_SIZE * nSelectors)
        invariant G_SIZE * nSelectors <= gs + G_SIZE - 1 && nSelectors <= MAX_SELECTORS
        invariant Shows(len, lens) && (nGroups == N_GROUPS ==> Packed(lenPack, lens, n))
        invariant Shows(rfreq, rf) && Tally(rf, selector[..nSelectors], mtfv[..gs], nGroups, n)
        invariant Chosen(selector[..nSelectors], lens, mtfv, n)
      {
        var end := GroupEnd(gs, |mtfv|);
        var bt := ChooseTable(mtfv, gs, end, nGroups, n, lens);
        ChosenMore(selector[..nSelectors], lens, mtfv, n, bt);
        TallyMore(rf, selector[..nSelectors], mtfv[..gs], bt, nGroups, n);
        ghost var sels := selector[..nSelectors];
        selector[nSelectors] := bt;
        nSelectors := nSelectors + 1;
        assert selector[..nSelectors] == sels + [bt];
        rf := CountGroup(rfreq, mtfv, gs, end, bt, nGroups, n, rf, selector[..nSelectors]);
        gs := end;
      }
      assert mtfv[..gs] == mtfv;
    }
  }

  method NewRows() returns (rows: seq<array<nat>>)
    ensures Rows(rows, N_GROUPS) && forall r :: r in rows ==> fresh(r)
  {
    var r0, r1, r2 := new nat[MAX_ALPHA_SIZE], new nat[MAX_ALPHA_SIZE], new nat[MAX_ALPHA_SIZE];
    var r3, r4, r5 := new nat[MAX_ALPHA_SIZE], new nat[MAX_ALPHA_SIZE], new nat[MAX_ALPHA_SIZE];
    rows := [r0, r1, r2, r3, r4, r5];
  }

  method ZeroRows(rows: seq<array<nat>>, k: nat, n: nat) returns (ghost rf: seq<seq<nat>>)
    requires Rows(rows, N_GROUPS) && k <= N_GROUPS && n <= MAX_ALPHA_SIZE
    modifies rows
    ensures Shows(rows, rf) && Tally(rf, [], [], k, n)
  {
    rf := [];
    for t := 0 to k
      invariant |rf| == t && Shows(rows, rf)
      invariant forall u :: 0 <= u < t ==> |rf[u]| == n && Total(rf[u]) == 0 && forall v :: 0 <= v < n ==> rf[u][v] == 0
    {
      for v := 0 to n
        invariant Shows(rows, rf) && forall x :: 0 <= x < v ==> rows[t][x] == 0
      {
        rows[t][v] := 0;
      }
      ZeroTotal(rows[t][..n]);
      rf := rf + [rows[t][..n]];
    }
  }

  lemma {:induction false} ZeroTotal(s: seq<nat>)
    requires forall i :: 0 <= i < |s| ==> s[i] == 0
    ensures Total(s) == 0
  {
    if s != [] { ZeroTotal(s[..|s| - 1]); }
  }

  lemma ChosenNone(lens: seq<seq<nat>>, syms: seq<nat>, n: nat)
    requires InAlphabet(syms, n) && forall u :: 0 <= u < |lens| ==> |lens[u]| == n
    ensures Chosen([], lens, syms, n)
  {}

  lemma ChosenMore(sels: seq<byte>, lens: seq<seq<nat>>, syms: seq<nat>, n: nat, bt: byte)
    requires InAlphabet(syms, n) && forall u :: 0 <= u < |lens| ==> |lens[u]| == n
    requires Chosen(sels, lens, syms, n) && G_SIZE * |sels| <= |syms|
    requires Best(lens, GroupOf(syms, |sels|), bt, n)
    ensures Chosen(sels + [bt], lens, syms, n)
  {
    hide Best;
  }

  // ---------- refitting ----------

  lemma {:induction false} WeightsTotal(f: seq<nat>)
    ensures Total(Weights(f)) <= Total(f) + |f|
  {
    if f != [] {
      var k := |f| - 1;
      WeightsTotal(f[..k]);
      assert Weights(f)[..k] == Weights(f[..k]);
    }
  }

  /** Tables a block may be sent with: lengths 1 to 17 that use up the code space. */
  ghost predicate Fitted(lens: seq<seq<nat>>, k: nat, n: nat) {
    |lens| == k && forall t :: 0 <= t < k ==> GoodLens(lens[t], n) && Kraft(lens[t], LONGEST) == Pow2(LONGEST)
  }

  /** The tally of table t: how often each symbol is coded with it. */
  function UsesRow(sels: seq<byte>, syms: seq<nat>, t: nat, n: nat): (u: seq<nat>)
    ensures |u| == n && forall v :: 0 <= v < n ==> u[v] == Uses(sels, syms, t, v)
  {
    if n == 0 then [] else UsesRow(sels, syms, t, n - 1) + [Uses(sels, syms, t, n - 1)]
  }

  /**
   No prefix code is cheaper for these counts, each at least one, as rescaled so many times; and they are not rescaled
   unless they come to 6765 or more.
  */
  ghost predicate FittedAfter(lens: seq<nat>, counts: seq<nat>, rounds: nat)
    requires |lens| == |counts|
  {
    && CodeCost.Optimal(Rescaled(Weights(counts), rounds), lens)
    && (Total(Weights(counts)) < 6765 ==> rounds == 0)
  }

  ghost predicate FittedTo(lens: seq<nat>, counts: seq<nat>)
    requires |lens| == |counts|
  {
    exists rounds: nat :: FittedAfter(lens, counts, rounds)
  }

  /** The first tables are each fitted to what the selectors give them to code. */
  ghost predicate AllFitted(lens: seq<seq<nat>>, sels: seq<byte>, syms: seq<nat>, n: nat)
    requires forall t :: 0 <= t < |lens| ==> |lens[t]| == n
  {
    forall t :: 0 <= t < |lens| ==> FittedTo(lens[t], UsesRow(sels, syms, t, n))
  }

  /** One more table. */
  lemma OneMoreFitted(lens: seq<seq<nat>>, sels: seq<byte>, syms: seq<nat>, n: nat, len: seq<nat>, counts: seq<nat>,
                      rounds: nat)
    requires (forall t :: 0 <= t < |lens| ==> |lens[t]| == n) && AllFitted(lens, sels, syms, n)
    requires |len| == |counts| == n && (forall v :: 0 <= v < n ==> counts[v] == Uses(sels, syms, |lens|, v))
    requires CodeCost.Optimal(Rescaled(Weights(counts), rounds), len)
    requires Total(Weights(counts)) < Fib(ENC_MAX_LEN + 1) ==> rounds == 0
    ensures AllFitted(lens + [len], sels, syms, n)
  {
    hide Uses, Total, Weights, Fib, CodeCost.Optimal, Rescaled, FittedTo;
    FibValues();
    assert counts == UsesRow(sels, syms, |lens|, n);
    assert FittedAfter(len, counts, rounds);
    FittedIs(len, counts, rounds);
    var all := lens + [len];
    forall t | 0 <= t < |all|
      ensures FittedTo(all[t], UsesRow(sels, syms, t, n))
    {
      if t < |lens| { assert all[t] == lens[t]; }
    }
  }

  lemma FittedIs(lens: seq<nat>, counts: seq<nat>, rounds: nat)
    requires |lens| == |counts| && FittedAfter(lens, counts, rounds)
    ensures FittedTo(lens, counts)
  {}

  /** New code lengths for every table, from its tally. */
  method Refit(tables: CodingTables, nGroups: nat, n: nat, ghost rf: seq<seq<nat>>, ghost sels: seq<byte>,
               ghost syms: seq<nat>)
    returns (ghost lens: seq<seq<nat>>)
    requires tables.Apart() && nGroups <= N_GROUPS && 2 <= n <= MAX_ALPHA_SIZE && |syms| <= MOST_SYMBOLS
    requires Shows(tables.rfreq, rf) && Tally(rf, sels, syms, nGroups, n)
    modifies tables.len
    ensures Shows(tables.len, lens) && Fitted(lens, nGroups, n)
    ensures (forall t :: 0 <= t < |lens| ==> |lens[t]| == n) && AllFitted(lens, sels, syms, n)
  {
    hide Uses, Total, Weights, LensIn, Kraft, Pow2, AllFitted, CodeCost.Optimal, Rescaled, Fib, UsesRow;
    tables.LenApart();
    lens := [];
    NoneFitted(sels, syms, n);
    for t := 0 to nGroups
      invariant Shows(tables.len, lens) && Fitted(lens, t, n) && Shows(tables.rfreq, rf)
      invariant (forall u :: 0 <= u < |lens| ==> |lens[u]| == n) && AllFitted(lens, sels, syms, n)
    {
      assert tables.rfreq[t][..n] == rf[t];
      WeightsTotal(rf[t]);
      RowsOneByOne(tables.len, t);
      assert tables.rfreq[t] in tables.rfreq;
      ghost var rounds := MakeCodeLengths(tables.len[t], tables.rfreq[t], n, ENC_MAX_LEN);
      OneMoreFitted(lens, sels, syms, n, tables.len[t][..n], tables.rfreq[t][..n], rounds);
      lens := lens + [tables.len[t][..n]];
    }
  }

  lemma NoneFitted(sels: seq<byte>, syms: seq<nat>, n: nat)
    ensures AllFitted([], sels, syms, n)
  {}

  lemma RowsOneByOne(rows: seq<array<nat>>, t: nat)
    requires Rows(rows, N_GROUPS) && t < N_GROUPS
    ensures |rows| == N_GROUPS && forall u :: 0 <= u < N_GROUPS && u != t ==> rows[u] != rows[t]
  {}

  // ---------- starting tables ----------

  /** How many tables a block of this many symbols gets. */
  function GroupsFor(nMTF: nat): (k: nat)
    ensures 2 <= k <= N_GROUPS
  {
    if nMTF < 200 then 2
    else if nMTF < 600 then 3
    else if nMTF < 1200 then 4
    else if nMTF < 2400 then 5
    else 6
  }

  /** Every symbol is cheap in exactly one table, the one that owns it. */
  ghost predicate Owned(lens: seq<seq<nat>>, owner: seq<nat>, from: nat) {
    forall t, v :: from <= t < |lens| && 0 <= v < |lens[t]|
      ==> lens[t][v] == if v < |owner| && owner[v] == t then LESSER_ICOST else GREATER_ICOST
  }

  lemma TotalStep(f: seq<nat>, g: nat)
    requires g < |f|
    ensures Total(f[..g + 1]) == Total(f[..g]) + f[g]
  {
    assert f[..g + 1][..g] == f[..g];
  }

  lemma {:induction false} TotalPrefix(f: seq<nat>, g: nat)
    requires g < |f|
    ensures Total(f[..g]) + f[|f| - 1] <= Total(f)
  {
    var k := |f| - 1;
    if g < k {
      TotalPrefix(f[..k], g);
      assert f[..k][..g] == f[..g];
    }
  }

  /** The counts of all symbols add up to their number. */
  lemma {:induction false} CountsTotal(f: seq<nat>, out: seq<nat>)
    requires InAlphabet(out, |f|) && forall v :: 0 <= v < |f| ==> f[v] == Count(out, v)
    ensures Total(f) == |out|
    decreases |out|
  {
    if out == [] {
      ZeroTotal(f);
    } else {
      var k := |out| - 1;
      var x := out[k];
      var f' := f[x := f[x] - 1];
      CountsTotal(f', out[..k]);
      assert f == f'[x := f'[x] + 1];
      TotalUpdate(f', x);
    }
  }

  /** The symbols the next starting table favours: end is one past the last. */
  method FindRange(freq: seq<nat>, nMTF: nat, remF: nat, gs: nat, nPart: nat, nGroups: nat)
    returns (end: nat, aFreq: nat)
    requires gs <= |freq| && 1 <= nPart <= nGroups && freq != [] && freq[|freq| - 1] > 0
    requires Total(freq) == nMTF && Total(freq[..gs]) + remF == nMTF
    ensures gs <= end <= |freq| && Total(freq[..end]) == Total(freq[..gs]) + aFreq && aFreq <= remF
    ensures nPart == 1 ==> end == |freq|
  {
    hide Total;
    var tFreq := remF / nPart;
    assert nPart == 1 ==> tFreq == remF;
    var ge: int := gs - 1;
    aFreq := 0;
    while aFreq < tFreq && ge < |freq| - 1
      invariant gs - 1 <= ge <= |freq| - 1
      invariant Total(freq[..ge + 1]) == Total(freq[..gs]) + aFreq
    {
      ge := ge + 1;
      aFreq := aFreq + freq[ge];
      TotalStep(freq, ge);
    }
    if ge < |freq| - 1 { TotalPrefix(freq, ge + 1); }
    if ge > gs && nPart != nGroups && nPart != 1 && (nGroups - nPart) % 2 == 1 {
      TotalStep(freq, ge);
      RangeBack(freq, gs, ge);
      aFreq := aFreq - freq[ge];
      ge := ge - 1;
    }
    end := ge + 1;
    PrefixAtMost(freq, end);
  }

  lemma RangeBack(f: seq<nat>, gs: nat, g: nat)
    requires gs <= g <= |f|
    ensures Total(f[..gs]) <= Total(f[..g])
  {
    PrefixAtMost(f[..g], gs);
    assert f[..g][..gs] == f[..gs];
  }

  lemma PrefixAtMost(f: seq<nat>, g: nat)
    requires g <= |f|
    ensures Total(f[..g]) <= Total(f)
  {
    if g < |f| { TotalPrefix(f, g); } else { assert f[..g] == f; }
  }

  /** One starting table: cheap from gs up to end, dear elsewhere. */
  method FavourRange(row: array<nat>, gs: nat, end: nat, n: nat)
    requires n <= row.Length
    modifies row
    ensures forall v :: 0 <= v < n ==> row[v] == if gs <= v < end then LESSER_ICOST else GREATER_ICOST
  {
    for v := 0 to n
      invariant forall x :: 0 <= x < v ==> row[x] == if gs <= x < end then LESSER_ICOST else GREATER_ICOST
    {
      row[v] := if gs <= v < end then LESSER_ICOST else GREATER_ICOST;
    }
  }

  /** The starting tables share the alphabet out by frequency. */
  method InitialTables(len: seq<array<nat>>, mtfFreq: array<nat>, nMTF: nat, nGroups: nat, n: nat)
    returns (ghost lens: seq<seq<nat>>, ghost owner: seq<nat>)
    requires Rows(len, N_GROUPS) && mtfFreq !in len && 1 <= nGroups <= N_GROUPS
    requires 1 <= n <= MAX_ALPHA_SIZE && n <= mtfFreq.Length
    requires Total(mtfFreq[..n]) == nMTF && mtfFreq[n - 1] > 0
    modifies len
    ensures Shows(len, lens) && Shaped(lens, nGroups, n)
    ensures |owner| == n && (forall v :: 0 <= v < n ==> owner[v] < nGroups) && Owned(lens, owner, 0)
  {
    hide Total;
    RowsApart(len, mtfFreq);
    var nPart, remF, gs := nGroups, nMTF, 0;
    owner := [];
    EmptyTotal();
    var freq := mtfFreq[..n];
    assert freq[..0] == [];
    while nPart > 0
      invariant 0 <= nPart <= nGroups && gs <= n && (nPart == 0 ==> gs == n)
      invariant mtfFreq[..n] == freq && Total(freq[..gs]) + remF == nMTF
      invariant |owner| == gs && forall v :: 0 <= v < gs ==> nPart <= owner[v] < nGroups
      invariant forall t, v :: nPart <= t < nGroups && 0 <= v < n
                  ==> len[t][v] == if v < gs && owner[v] == t then LESSER_ICOST else GREATER_ICOST
    {
      var end, aFreq := FindRange(freq, nMTF, remF, gs, nPart, nGroups);
      RowsOneByOne(len, nPart - 1);
      FavourRange(len[nPart - 1], gs, end, n);
      owner := owner + seq(end - gs, _ => (nPart - 1) as nat);
      nPart := nPart - 1;
      gs := end;
      remF := remF - aFreq;
    }
    lens := ReadRows(len, nGroups, n);
    assert Owned(lens, owner, 0);
    OwnedShaped(lens, owner, nGroups, n);
  }

  lemma OwnedShaped(lens: seq<seq<nat>>, owner: seq<nat>, k: nat, n: nat)
    requires Owned(lens, owner, 0) && |lens| == k && forall t :: 0 <= t < k ==> |lens[t]| == n
    ensures Shaped(lens, k, n)
  {
    forall t: nat, v: nat | t < k && v < n
      ensures lens[t][v] <= ENC_MAX_LEN
    {
      OwnedAt(lens, owner, t, v);
    }
  }

  lemma OwnedAt(lens: seq<seq<nat>>, owner: seq<nat>, t: nat, v: nat)
    requires Owned(lens, owner, 0) && t < |lens| && v < |lens[t]|
    ensures lens[t][v] == if v < |owner| && owner[v] == t then LESSER_ICOST else GREATER_ICOST
  {}

  lemma EmptyTotal()
    ensures Total([]) == 0
  {}

  ghost method ReadRows(len: seq<array<nat>>, k: nat, n: nat) returns (lens: seq<seq<nat>>)
    requires Rows(len, N_GROUPS) && k <= N_GROUPS && n <= MAX_ALPHA_SIZE
    ensures Shows(len, lens) && |lens| == k && forall t :: 0 <= t < k ==> lens[t] == len[t][..n]
  {
    lens := [];
    for t := 0 to k
      invariant |lens| == t && Shows(len, lens) && forall u :: 0 <= u < t ==> lens[u] == len[u][..n]
    {
      lens := lens + [len[t][..n]];
    }
  }

  // ---------- choosing tables and selectors ----------

  /** Every symbol is cheap in exactly one table. */
  ghost predicate Shares(lens: seq<seq<nat>>, n: nat)
    requires forall t :: 0 <= t < |lens| ==> |lens[t]| == n
  {
    forall v :: 0 <= v < n ==> CheapOnce(lens, n, v)
  }

  ghost predicate CheapOnce(lens: seq<seq<nat>>, n: nat, v: nat)
    requires v < n && forall t :: 0 <= t < |lens| ==> |lens[t]| == n
  {
    exists t :: 0 <= t < |lens| && lens[t][v] == 0 && forall u :: 0 <= u < |lens| && u != t ==> lens[u][v] == 15
  }

  lemma OwnedShares(lens: seq<seq<nat>>, owner: seq<nat>, k: nat, n: nat)
    requires Shaped(lens, k, n) && |owner| == n && (forall v :: 0 <= v < n ==> owner[v] < k) && Owned(lens, owner, 0)
    ensures Shares(lens, n)
  {
    hide LensIn;
    forall v: nat | v < n
      ensures CheapOnce(lens, n, v)
    {
      OwnedAt(lens, owner, owner[v], v);
      forall u: nat | u < |lens| && u != owner[v]
        ensures lens[u][v] == 15
      {
        OwnedAt(lens, owner, u, v);
      }
    }
  }

  /** One round: the selectors are best for the old tables, and the new ones are fitted to what they select. */
  ghost predicate Stage(old': seq<seq<nat>>, new': seq<seq<nat>>, sels: seq<byte>, syms: seq<nat>, k: nat, n: nat) {
    && InAlphabet(syms, n) && Shaped(old', k, n) && Fitted(new', k, n) && (forall t :: 0 <= t < k ==> |new'[t]| == n)
    && |sels| == GroupCount(|syms|) && Chosen(sels, old', syms, n) && AllFitted(new', sels, syms, n)
  }

  /** So many rounds. */
  ghost predicate Stages(tables: seq<seq<seq<nat>>>, choices: seq<seq<byte>>, syms: seq<nat>, k: nat, n: nat) {
    && |tables| == |choices| + 1
    && forall i :: 0 <= i < |choices| ==> Stage(tables[i], tables[i + 1], choices[i], syms, k, n)
  }

  lemma OneMoreStage(tables: seq<seq<seq<nat>>>, choices: seq<seq<byte>>, syms: seq<nat>, k: nat, n: nat,
                     next: seq<seq<nat>>, sels: seq<byte>)
    requires Stages(tables, choices, syms, k, n) && Stage(tables[|choices|], next, sels, syms, k, n)
    ensures Stages(tables + [next], choices + [sels], syms, k, n)
  {
    hide Stage;
    var ts, cs := tables + [next], choices + [sels];
    forall i: nat | i < |cs|
      ensures Stage(ts[i], ts[i + 1], cs[i], syms, k, n)
    {
      if i < |choices| { assert ts[i] == tables[i] && ts[i + 1] == tables[i + 1] && cs[i] == choices[i]; }
    }
  }

  lemma StageIs(old': seq<seq<nat>>, new': seq<seq<nat>>, sels: seq<byte>, syms: seq<nat>, k: nat, n: nat)
    ensures Stage(old', new', sels, syms, k, n) ==>
              InAlphabet(syms, n) && Shaped(old', k, n) && Fitted(new', k, n) && Chosen(sels, old', syms, n)
    ensures InAlphabet(syms, n) && Shaped(old', k, n) && Fitted(new', k, n)
            && (forall t :: 0 <= t < k ==> |new'[t]| == n)
            && |sels| == GroupCount(|syms|) && Chosen(sels, old', syms, n) && AllFitted(new', sels, syms, n)
            ==> Stage(old', new', sels, syms, k, n)
  {
    hide LensIn, Chosen, Fitted, AllFitted;
  }

  /**
   Everything sendMTFValues decides before it writes: from tables that share the alphabet out, four rounds of selectors
   that are best for the tables there are, and of tables fitted to what the selectors give them to code. The last
   selectors and the last tables are those written.
  */
  method ChooseTables(tables: CodingTables, mtfv: seq<nat>, mtfFreq: array<nat>, n: nat)
    returns (nGroups: nat, nSelectors: nat, ghost lens: seq<seq<nat>>, ghost stages: seq<seq<seq<nat>>>,
             ghost choices: seq<seq<byte>>)
    requires tables.Apart() && mtfFreq !in tables.len && mtfFreq !in tables.rfreq && mtfFreq != tables.cost
    requires 1 <= |mtfv| <= MOST_SYMBOLS && 2 <= n <= MAX_ALPHA_SIZE && InAlphabet(mtfv, n) && n <= mtfFreq.Length
    requires (forall v :: 0 <= v < n ==> mtfFreq[v] == Count(mtfv, v)) && mtfv[|mtfv| - 1] == n - 1
    modifies tables.len, tables.rfreq, tables.lenPack, tables.cost, tables.selector
    ensures nGroups == if |mtfv| < 200 then 2 else if |mtfv| < 600 then 3 else if |mtfv| < 1200 then 4
                       else if |mtfv| < 2400 then 5 else 6
    ensures nSelectors == (|mtfv| + 49) / 50 <= 18002
    ensures Shows(tables.len, lens) && Fitted(lens, nGroups, n)
    ensures forall k :: 0 <= k < nSelectors ==> tables.selector[k] < nGroups
    ensures |choices| == 4 && Stages(stages, choices, mtfv, nGroups, n)
    ensures stages[4] == lens && choices[3] == tables.selector[..nSelectors]
    ensures (forall t :: 0 <= t < |stages[0]| ==> |stages[0][t]| == n) && Shares(stages[0], n)
  {
    hide Total, Count, Chosen, Uses, Tally, Fitted, Owned, LensIn, Kraft, Stage, Stages, AllFitted, Shares;
    ghost var owner;
    nGroups := GroupsFor(|mtfv|);
    AllCounted(mtfFreq[..n], mtfv);
    lens, owner := InitialTables(tables.len, mtfFreq, |mtfv|, nGroups, n);
    OwnedShares(lens, owner, nGroups, n);
    ghost var first := lens;
    stages, choices := [lens], [];
    NoStages(lens, mtfv, nGroups, n);
    nSelectors := 0;
    for iter := 0 to N_ITERS
      invariant Shows(tables.len, lens) && Shaped(lens, nGroups, n)
      invariant |choices| == iter && |stages| == iter + 1 && stages[iter] == lens
                && Stages(stages, choices, mtfv, nGroups, n)
      invariant stages[0] == first
      invariant iter > 0 ==> Fitted(lens, nGroups, n) && nSelectors == GroupCount(|mtfv|) <= MAX_SELECTORS
      invariant iter > 0 ==> choices[iter - 1] == tables.selector[..nSelectors]
    {
      ghost var rf;
      ghost var before := lens;
      nSelectors, rf := tables.Pass(mtfv, nGroups, n, lens);
      lens := Refit(tables, nGroups, n, rf, tables.selector[..nSelectors], mtfv);
      FittedShaped(lens, nGroups, n);
      StageIs(before, lens, tables.selector[..nSelectors], mtfv, nGroups, n);
      OneMoreStage(stages, choices, mtfv, nGroups, n, lens, tables.selector[..nSelectors]);
      stages, choices := stages + [lens], choices + [tables.selector[..nSelectors]];
    }
    LastStage(stages, choices, mtfv, nGroups, n);
    ChosenBelow(tables.selector[..nSelectors], stages[3], mtfv, n, nGroups);
  }

  lemma NoStages(lens: seq<seq<nat>>, syms: seq<nat>, k: nat, n: nat)
    ensures Stages([lens], [], syms, k, n)
  {}

  lemma LastStage(tables: seq<seq<seq<nat>>>, choices: seq<seq<byte>>, syms: seq<nat>, k: nat, n: nat)
    requires |choices| == 4 && Stages(tables, choices, syms, k, n)
    ensures |tables| == 5 && InAlphabet(syms, n) && Shaped(tables[3], k, n) && Chosen(choices[3], tables[3], syms, n)
  {
    hide Chosen, Fitted, AllFitted, LensIn;
    assert Stage(tables[3], tables[4], choices[3], syms, k, n);
  }

  lemma AllCounted(f: seq<nat>, out: seq<nat>)
    requires out != [] && f != [] && InAlphabet(out, |f|) && out[|out| - 1] == |f| - 1
    requires forall v :: 0 <= v < |f| ==> f[v] == Count(out, v)
    ensures Total(f) == |out| && f[|f| - 1] > 0
  {
    CountsTotal(f, out);
    assert Count(out, |f| - 1) > 0;
  }

  lemma FittedShaped(lens: seq<seq<nat>>, k: nat, n: nat)
    requires Fitted(lens, k, n)
    ensures Shaped(lens, k, n)
  {
    hide Kraft;
  }

  lemma ChosenBelow(sels: seq<byte>, lens: seq<seq<nat>>, syms: seq<nat>, n: nat, k: nat)
    requires InAlphabet(syms, n) && Shaped(lens, k, n) && Chosen(sels, lens, syms, n)
    ensures forall i :: 0 <= i < |sels| ==> sels[i] < k
  {
    hide Cost;
  }
}
