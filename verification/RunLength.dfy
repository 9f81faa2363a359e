/** The first stage: runs of 4 to 255 equal bytes become four bytes and a count. */
module RunLength {
  import opened Bits
  import opened MoveToFront

  /** The bytes expanded so far, the length of the run in progress, and its byte. */
  datatype Rle = Rle(out: seq<byte>, run: nat, last: byte)

  function RleStep(st: Rle, x: byte): Rle {
    if st.run == 4 then Rle(st.out + Repeat(st.last, x), 0, st.last)
    else if st.run > 0 && x == st.last then Rle(st.out + [x], st.run + 1, x)
    else Rle(st.out + [x], 1, x)
  }

  /** Expanding a block byte by byte. */
  function RleFold(b: seq<byte>): Rle {
    if b == [] then Rle([], 0, 0) else RleStep(RleFold(b[..|b| - 1]), b[|b| - 1])
  }

  function UnRle(b: seq<byte>): seq<byte> {
    RleFold(b).out
  }

  /** The block does not end between a run of four and its count. */
  predicate Complete(b: seq<byte>) {
    RleFold(b).run != 4
  }

  /** What add_pair_to_block appends for a run of len bytes ch. */
  function Pair(ch: byte, len: nat): seq<byte>
    requires 1 <= len <= 255
  {
    if len <= 3 then Repeat(ch, len) else Repeat(ch, 4) + [len - 4]
  }

  /** A run of ch may be appended: nothing is open that it could be confused with. */
  predicate Fresh(b: seq<byte>, ch: byte) {
    RleFold(b).run == 0 || (RleFold(b).run < 4 && RleFold(b).last != ch)
  }

  lemma FoldSnoc(b: seq<byte>, x: byte)
    ensures RleFold(b + [x]) == RleStep(RleFold(b), x)
  {
    assert (b + [x])[..|b|] == b;
  }

  lemma Assoc(a: seq<byte>, b: seq<byte>, x: byte)
    ensures a + (b + [x]) == a + b + [x]
  {}

  lemma CountExpands(st: Rle, out: seq<byte>, ch: byte, x: byte)
    requires st == Rle(out + Repeat(ch, 4), 4, ch)
    ensures RleStep(st, x) == Rle(out + Repeat(ch, 4 + x), 0, ch)
  {
    RepeatAdd(ch, 4, x);
    assert out + Repeat(ch, 4) + Repeat(ch, x) == out + (Repeat(ch, 4) + Repeat(ch, x));
  }

  lemma {:induction false} FoldRepeat(b: seq<byte>, ch: byte, k: nat)
    requires Fresh(b, ch) && 1 <= k <= 4
    ensures RleFold(b + Repeat(ch, k)) == Rle(UnRle(b) + Repeat(ch, k), k, ch)
    decreases k
  {
    if k == 1 {
      assert Repeat(ch, 1) == [ch];
      FoldSnoc(b, ch);
    } else {
      var r := Repeat(ch, k - 1);
      FoldRepeat(b, ch, k - 1);
      FoldSnoc(b + r, ch);
      Assoc(b, r, ch);
      Assoc(UnRle(b), r, ch);
      assert Repeat(ch, k) == r + [ch];
    }
  }

  lemma {:induction false} RepeatAdd(c: byte, m: nat, n: nat)
    ensures Repeat(c, m) + Repeat(c, n) == Repeat(c, m + n)
  {
    if n > 0 {
      RepeatAdd(c, m, n - 1);
      assert Repeat(c, m) + Repeat(c, n) == Repeat(c, m) + Repeat(c, n - 1) + [c];
    } else {
      assert Repeat(c, m) + [] == Repeat(c, m);
    }
  }

  /** Expanding inverts add_pair_to_block. */
  lemma PairExpands(b: seq<byte>, ch: byte, len: nat)
    requires Fresh(b, ch) && 1 <= len <= 255
    ensures RleFold(b + Pair(ch, len)) == Rle(UnRle(b) + Repeat(ch, len), if len <= 3 then len else 0, ch)
  {
    if len <= 3 {
      FoldRepeat(b, ch, len);
    } else {
      var r, x := Repeat(ch, 4), len - 4;
      FoldRepeat(b, ch, 4);
      FoldSnoc(b + r, x);
      Assoc(b, r, x);
      CountExpands(Rle(UnRle(b) + r, 4, ch), UnRle(b), ch, x);
    }
  }

  /** After a pair, a run of another byte may follow; after a full run, any byte may. */
  lemma FreshAfterPair(b: seq<byte>, ch: byte, len: nat, next: byte)
    requires Fresh(b, ch) && 1 <= len <= 255 && (next != ch || len == 255)
    ensures Fresh(b + Pair(ch, len), next) && Complete(b + Pair(ch, len))
  {
    PairExpands(b, ch, len);
  }
}
