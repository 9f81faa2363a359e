/**
 What the bytes fed to a decoder so far come to: the run of the automaton over them, and how each step stays with it.
*/
module DecoderFeeding {
  import opened Bits
  import opened Crc
  import opened MoveToFront
  import opened RunLength
  import opened InverseBwt
  import opened BlockRows
  import opened BlockOutput
  import opened Decoder

  /** All that the automaton makes of some bytes. */
  function Decoded(fed: seq<byte>): Outcome {
    RunBits(Start, BytesBits(fed))
  }

  /** The bytes fed lead to the output done, the state d and the bits not yet consumed. */
  ghost predicate Reached(fed: seq<byte>, done: seq<byte>, d: D, pending: Bits) {
    var r := RunBits(d, pending);
    Decoded(fed) == Outcome(done + r.out, r.d, r.rest)
  }

  lemma ReachedStart()
    ensures Reached([], [], Start, [])
  {}

  /** One more byte. */
  lemma ReachedByte(fed: seq<byte>, done: seq<byte>, d: D, pending: Bits, b: byte)
    requires Reached(fed, done, d, pending)
    ensures Reached(fed + [b], done, d, pending + ToBits(b, 8))
  {
    var bits, more := BytesBits(fed), ToBits(b, 8);
    BytesBitsAppend(fed, [b]);
    OneByteBits(b);
    RunAppend(Start, bits, more);
    RunAppend(d, pending, more);
    var r := RunBits(d, pending);
    hide RunBits;
    AssocBytes(done, r.out, RunBits(r.d, r.rest + more).out);
  }

  lemma OneByteBits(b: byte)
    ensures BytesBits([b]) == ToBits(b, 8)
  {
    assert ToBits(b, 8) + [] == ToBits(b, 8);
  }

  /** One GET_BITS and the code after it. */
  lemma ReachedStep(fed: seq<byte>, done: seq<byte>, d: D, pending: Bits, n: nat)
    requires Reached(fed, done, d, pending) && Reading(d) && n == Need(d) <= |pending|
    ensures Reached(fed, done, Advance(d, FromBits(pending[..n])), pending[n..])
  {
    RunReads(d, pending, n);
  }

  /** A block has been put out. */
  lemma ReachedBlock(fed: seq<byte>, done: seq<byte>, d: D, pending: Bits)
    requires Reached(fed, done, d, pending) && d.Output?
    ensures Reached(fed, done + Emitted(d), AfterOutput(d), pending)
    ensures done + Emitted(d) <= Decoded(fed).out
  {
    RunEmits(d, pending);
    hide RunBits, AfterOutput, Emitted;
    AssocBytes(done, Emitted(d), RunBits(AfterOutput(d), pending).out);
  }

  /** Nothing more can be made of these bytes. */
  lemma ReachedAll(fed: seq<byte>, done: seq<byte>, d: D, pending: Bits)
    requires Reached(fed, done, d, pending) && !d.Output? && (!Reading(d) || |pending| < Need(d))
    ensures Decoded(fed) == Outcome(done, d, pending)
  {
    RunStops(d, pending);
    hide RunBits;
    assert done + [] == done;
  }

  /** More bytes only add to the output. */
  lemma DecodedMore(fed: seq<byte>, more: seq<byte>)
    ensures Decoded(fed).out <= Decoded(fed + more).out
    ensures !Reading(Decoded(fed).d) && !Decoded(fed).d.Output? ==>
              Decoded(fed + more).out == Decoded(fed).out && Decoded(fed + more).d == Decoded(fed).d
  {
    var r, bits := Decoded(fed), BytesBits(more);
    BytesBitsAppend(fed, more);
    RunAppend(Start, BytesBits(fed), bits);
    if !Reading(r.d) && !r.d.Output? { RunStops(r.d, r.rest + bits); }
    hide RunBits;
  }

  // ---------- the output of a block ----------

  lemma {:induction false} FoldGrows(b: seq<byte>, c: seq<byte>)
    ensures UnRle(b) <= UnRle(b + c)
    decreases |c|
  {
    if c == [] {
      assert b + c == b;
    } else {
      var c', x := c[..|c| - 1], c[|c| - 1];
      FoldGrows(b, c');
      assert b + c == b + c' + [x];
      FoldSnoc(b + c', x);
      hide RleFold;
    }
  }

  lemma {:induction false} ReadGrows(col: seq<byte>, p: nat, m: nat, n: nat)
    requires p < |col| && m <= n
    ensures Read(col, p, m) <= Read(col, p, n)
    decreases n - m
  {
    if m < n {
      ReadMore(col, p, m);
      hide Read;
      ReadGrows(col, p, m + 1, n);
    }
  }

  lemma UnRleGrows(col: seq<byte>, p: nat, m: nat, n: nat)
    requires p < |col| && m <= n
    ensures UnRle(Read(col, p, m)) <= UnRle(Read(col, p, n))
  {
    ReadGrows(col, p, m, n);
    var a, b := Read(col, p, m), Read(col, p, n);
    hide UnRle, Read;
    FoldGrows(a, b[|a|..]);
    assert a + b[|a|..] == b;
  }

  lemma BetweenFacts(col: seq<byte>, p: nat, used: nat, k0: byte, e: seq<byte>, len: nat, ch: byte)
    ensures Between(col, p, used, k0, e, len, ch) ==>
              && 1 <= used <= |col| + 2 && e <= UnRle(Read(col, p, used - 1))
              && (used == |col| + 2 ==> !Complete(Read(col, p, |col|)))
  {
    hide Read, UnRle, Complete, Repeat, Fresh;
    assert e <= e + Repeat(ch, len);
  }

  /** What has been put out of a block is the beginning of what it puts out. */
  lemma WithinTarget(col: seq<byte>, p: nat, used: nat, k0: byte, e: seq<byte>, len: nat, ch: byte)
    requires p < |col| && Between(col, p, used, k0, e, len, ch)
    ensures e <= Target(col, p)
  {
    hide Read, UnRle, Target, Complete, Between;
    BetweenFacts(col, p, used, k0, e, len, ch);
    TargetIs(col, p);
    UnRleGrows(col, p, used - 1, if Complete(Read(col, p, |col|)) then |col| else |col| + 1);
  }

  lemma TargetIs(col: seq<byte>, p: nat)
    ensures Inverse(col, p) == Read(col, p, |col|)
    ensures Target(col, p) == UnRle(Read(col, p, if Complete(Read(col, p, |col|)) then |col| else |col| + 1))
  {
    hide UnRle, Complete;
  }

  /** When the last run has been put out, the block has. */
  lemma TargetMet(col: seq<byte>, p: nat, k0: byte, e: seq<byte>, ch: byte)
    requires Between(col, p, |col| + 1, k0, e, 0, ch)
    ensures Complete(Inverse(col, p)) && e == Target(col, p) == UnRle(Inverse(col, p))
  {
    TargetIs(col, p);
    hide Read, UnRle, Target, Complete, Fresh;
    assert e + [] == e;
  }
}
