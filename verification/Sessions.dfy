/**
 Whole sessions: a client that compresses under any calls, and one that decompresses what comes out, cut and buffered
 in any way.
*/
module Sessions {
  import opened Bits
  import opened StreamFormat
  import opened Decoder
  import opened DecoderFeeding
  import opened StreamGrammar
  import opened AcceptedStreams
  import ReadBack
  import RoundTrip
  import C = Compressor
  import X = Decompressor

  /** One call to the compressor: more input behind what is left, and so much room. */
  datatype Call = Call(action: C.Action, more: seq<byte>, room: nat)

  function Supplied(calls: seq<Call>): seq<byte> {
    if calls == [] then [] else Supplied(calls[..|calls| - 1]) + calls[|calls| - 1].more
  }

  /** Whether the session goes on after this result. */
  predicate GoesOn(r: C.Result) {
    r.RunOk? || r.FlushOk? || r.FinishOk?
  }

  /** Every block but the last was cut only when full, and the last was not unless it ends the stream. */
  ghost predicate CutFull(early: seq<bool>, ended: bool) {
    && (forall k :: 0 <= k < |early| - 1 ==> !early[k])
    && (|early| > 0 && early[|early| - 1] ==> ended)
  }

  lemma StaysFull(was: seq<bool>, wasEnded: bool, now: seq<bool>, ended: bool)
    requires CutFull(was, wasEnded) && C.MoreCuts(was, now) && (C.LastEarly(was, now) ==> ended)
    requires wasEnded ==> ended && now == was
    ensures CutFull(now, ended)
  {
    forall k | 0 <= k < |now| - 1
      ensures !now[k]
    {
      if k < |was| { assert now[k] == was[k]; }
    }
  }

  /** A session without a flush. */
  predicate NoFlush(calls: seq<Call>) {
    forall j :: 0 <= j < |calls| ==> !calls[j].action.Flush?
  }

  lemma NoFlushYet(calls: seq<Call>, k: nat)
    requires k < |calls|
    ensures NoFlush(calls[..k + 1]) <==> NoFlush(calls[..k]) && !calls[k].action.Flush?
  {
    assert calls[..k + 1] == calls[..k] + [calls[k]];
    if NoFlush(calls[..k + 1]) {
      assert !calls[..k + 1][k].action.Flush?;
      forall j | 0 <= j < k
        ensures !calls[..k][j].action.Flush?
      {
        assert calls[..k][j] == calls[..k + 1][j];
      }
    }
  }

  /** No block is larger than the level allows, and without a flush all but the last are full. */
  lemma Cuts(blocks: seq<BlockCode>, early: seq<bool>, level: nat, full: bool, ended: bool)
    requires C.WellMade(blocks, early, level) && (full ==> CutFull(early, ended))
    ensures forall k :: 0 <= k < |blocks| ==> |blocks[k].block| <= 100000 * level - 10
    ensures full ==> forall k :: 0 <= k < |blocks| - 1 ==> |blocks[k].block| >= 100000 * level - 19
  {
    assert forall k :: 0 <= k < |blocks| ==> C.WellCut(blocks[k], early[k], level);
  }

  /**
   A client of BZ2_bzCompress. It passes on the input that the last call left together with some more, and stops at
   the end of the stream or at an error.
  */
  method CompressAll(level: nat, work: nat, order: nat, calls: seq<Call>)
    returns (r: C.Result, sent: seq<byte>, left: seq<byte>, used: nat, ghost blocks: seq<BlockCode>)
    requires 1 <= level <= 9 && work <= 250 && order <= 1
    ensures used <= |calls| && (GoesOn(r) ==> used == |calls|)
    ensures r == C.StreamEnd ==> left == [] && IsEncoding(sent, Supplied(calls[..used]), blocks, level)
    ensures forall k :: 0 <= k < |blocks| ==> |blocks[k].block| <= 100000 * level - 10
    ensures NoFlush(calls[..used]) ==> forall k :: 0 <= k < |blocks| - 1 ==> |blocks[k].block| >= 100000 * level - 19
  {
    hide *;
    var e := new C.EState(level, work, order);
    r, left, used := C.RunOk, [], 0;
    Whole(calls);
    NothingCut(e.early, e.ended);
    assert e.consumed + left == Supplied(calls[..used]);
    while used < |calls| && GoesOn(r)
      invariant used <= |calls| && e.Between() && fresh(e) && fresh(e.blk.repr) && e.blk.level == level
      invariant e.consumed + left == Supplied(calls[..used])
      invariant r == C.StreamEnd ==> left == [] && IsEncoding(e.output, e.consumed, e.blocks, level)
      invariant NoFlush(calls[..used]) ==> CutFull(e.early, e.ended)
    {
      Taking(calls, used, e.consumed, left);
      NoFlushYet(calls, used);
      ghost var was, cuts, ended := e.consumed, e.early, e.ended;
      var input := left + calls[used].more;
      r := e.Compress(calls[used].action, input, calls[used].room);
      left := e.nextIn;
      TookAll(input, was, left, e.consumed);
      if NoFlush(calls[..used + 1]) { NotFlushed(calls[used].action); StaysFull(cuts, ended, e.early, e.ended); }
      used := used + 1;
    }
    sent, blocks := e.output, e.blocks;
    MadeWell(e);
    Cuts(blocks, e.early, level, NoFlush(calls[..used]), e.ended);
    assert r == C.StreamEnd ==> e.consumed == Supplied(calls[..used]);
  }

  lemma NothingCut(early: seq<bool>, ended: bool)
    requires early == []
    ensures CutFull(early, ended)
  {}

  lemma NotFlushed(a: C.Action)
    requires !a.Flush?
    ensures a.Run? || a.Finish?
  {}

  lemma MadeWell(e: C.EState)
    requires e.Between()
    ensures C.WellMade(e.blocks, e.early, e.blk.level)
  {
    hide C.EState.Core, C.WellMade;
  }

  lemma Whole(calls: seq<Call>)
    ensures calls[..0] == [] && Supplied(calls[..0]) == []
    ensures GoesOn(C.RunOk)
  {}

  lemma Taking(calls: seq<Call>, k: nat, taken: seq<byte>, left: seq<byte>)
    requires k < |calls| && taken + left == Supplied(calls[..k])
    ensures taken + (left + calls[k].more) == Supplied(calls[..k + 1])
  {
    assert calls[..k + 1][..k] == calls[..k];
  }

  lemma TookAll(given: seq<byte>, before: seq<byte>, now: seq<byte>, after: seq<byte>)
    requires C.Took(given, before, now, after)
    ensures after + now == before + given
  {
    assert given == given[..|given| - |now|] + now;
  }

  /** One call to the decompressor: so many more bytes of the stream, and so much room. */
  datatype Delivery = Delivery(size: nat, room: nat)

  /** What a client knows of a stream from a result, the output so far, and how much has been given and taken. */
  ghost predicate Concluded(stream: seq<byte>, code: X.Code, got: seq<byte>, given: nat, taken: nat, roomLeft: nat) {
    && taken <= given <= |stream| && got <= Decoded(stream).out
    && (code == X.DataErrorMagic <==> !BeginsWell(stream[..taken]))
    && match code
       case OK => roomLeft > 0 ==>
                    taken == given && got == Decoded(stream[..given]).out && Reading(Decoded(stream[..given]).d)
       case StreamEnd =>
         && Decoded(stream).d == Idle && got == Decoded(stream).out
         && Decoded(stream[..taken]).d == Idle && |Decoded(stream[..taken]).rest| < 8
       case SequenceError => false
       case DataError => Decoded(stream).d == Failed(false)
       case DataErrorMagic => Decoded(stream).d == Failed(true)
       case Unmodelled => Decoded(stream).d == Randomised
  }

  lemma NothingGiven(stream: seq<byte>)
    ensures Concluded(stream, X.OK, [], 0, 0, 0) && stream[..0] == [] && stream[0..0] == []
  {
    hide Decoded;
  }

  /** What an answer about the bytes taken says about the stream. */
  lemma Conclude(x: X.DecompressStream, stream: seq<byte>, code: X.Code, given: nat, taken: nat, roomLeft: nat)
    requires x.Answer(code) && code != X.SequenceError && taken <= given <= |stream| && x.fed == stream[..taken]
    requires code == X.DataErrorMagic <==> !BeginsWell(x.fed)
    requires code == X.OK && roomLeft > 0 ==>
               taken == given && Reading(x.d) && Decoded(x.fed) == Outcome(x.stage.output, x.d, x.reader.pending)
    ensures Concluded(stream, code, x.stage.output, given, taken, roomLeft)
  {
    hide Decoded;
    assert stream == stream[..taken] + stream[taken..];
    DecodedMore(stream[..taken], stream[taken..]);
  }

  /** The slices of a stream before and after one delivery and what was taken of it. */
  lemma Sliced(stream: seq<byte>, given: nat, taken: nat, more: nat, fed: seq<byte>, left: seq<byte>)
    requires taken <= given <= more <= |stream|
    requires stream[..taken] <= fed && fed + left == stream[..taken] + (stream[taken..given] + stream[given..more])
    ensures |fed| == more - |left| && fed == stream[..more - |left|] && left == stream[more - |left|..more]
  {
    assert stream[..taken] + (stream[taken..given] + stream[given..more]) == stream[..more];
    assert fed == (fed + left)[..|fed|];
    assert left == (fed + left)[|fed|..];
  }

  /**
   A client of BZ2_bzDecompress that delivers a stream piece by piece, and stops at its end or at an error. It has
   given so many bytes, of which so many have been taken; roomLeft is what the last call left of its room.
  */
  method DecompressAll(small: bool, stream: seq<byte>, deliveries: seq<Delivery>)
    returns (code: X.Code, got: seq<byte>, given: nat, taken: nat, roomLeft: nat)
    ensures Concluded(stream, code, got, given, taken, roomLeft)
    ensures code == X.DataErrorMagic <==> !BeginsWell(stream[..taken])
    ensures code == X.StreamEnd ==> exists level, parts, rest ::
              IsStream(stream[..taken], level, parts, rest) && |rest| < 8 && got == PartsData(parts)
    ensures code != X.OK && code != X.StreamEnd ==>
              forall more, level, parts, rest :: !IsStream(stream + more, level, parts, rest)
    ensures code == X.OK && roomLeft > 0 ==>
              forall n, level, parts, rest :: 0 <= n <= given ==> !IsStream(stream[..n], level, parts, rest)
  {
    hide *;
    var x := new X.DecompressStream(small);
    var left, k := [], 0;
    code, given, taken, roomLeft := X.OK, 0, 0, 0;
    NothingGiven(stream);
    while k < |deliveries| && code == X.OK
      invariant k <= |deliveries| && taken <= given <= |stream| && x.fed == stream[..taken]
                && left == stream[taken..given]
      invariant Concluded(stream, code, x.stage.output, given, taken, roomLeft)
                && (code == X.OK ==> x.Valid() && !x.d.Idle?)
      invariant fresh(x) && fresh(x.s) && fresh(x.save) && fresh(x.reader) && fresh(x.stage)
      invariant fresh(x.s.arena) && fresh(x.s.arena.mtfa) && fresh(x.s.arena.mtfbase) && fresh(x.s.store.repr)
    {
      code, left, given, taken, roomLeft := Deliver(x, stream, given, taken, left, deliveries[k]);
      k := k + 1;
    }
    got := x.stage.output;
    Meaning(stream, code, got, given, taken, roomLeft);
  }

  /**
   What a result says of the bytes: they are a stream, or begin none, or have not come to the end of one.
  */
  lemma Meaning(stream: seq<byte>, code: X.Code, got: seq<byte>, given: nat, taken: nat, roomLeft: nat)
    requires Concluded(stream, code, got, given, taken, roomLeft)
    ensures taken <= given <= |stream|
    ensures code == X.DataErrorMagic <==> !BeginsWell(stream[..taken])
    ensures code == X.StreamEnd ==> exists level, parts, rest ::
              IsStream(stream[..taken], level, parts, rest) && |rest| < 8 && got == PartsData(parts)
    ensures code != X.OK && code != X.StreamEnd ==>
              forall more, level, parts, rest :: !IsStream(stream + more, level, parts, rest)
    ensures code == X.OK && roomLeft > 0 ==>
              forall n, level, parts, rest :: 0 <= n <= given ==> !IsStream(stream[..n], level, parts, rest)
  {
    hide RunBits, IsStream, PartsData, BeginsWell;
    if code == X.StreamEnd {
      assert stream == stream[..taken] + stream[taken..];
      DecodedMore(stream[..taken], stream[taken..]);
      var level, parts := AcceptedIsStream(stream[..taken]);
    }
    if code != X.OK && code != X.StreamEnd {
      forall more, level, parts, rest
        ensures !IsStream(stream + more, level, parts, rest)
      {
        RefusedForGood(stream, more, level, parts, rest);
      }
    }
    if code == X.OK && roomLeft > 0 {
      forall n, level, parts, rest | 0 <= n <= given && IsStream(stream[..n], level, parts, rest)
        ensures false
      {
        ReadBack.StreamIsAccepted(stream[..n], level, parts, rest);
        assert stream[..given] == stream[..n] + stream[n..given];
        DecodedMore(stream[..n], stream[n..given]);
      }
    }
  }

  /** One delivery. */
  method Deliver(x: X.DecompressStream, stream: seq<byte>, given: nat, taken: nat, left: seq<byte>, delivery: Delivery)
    returns (code: X.Code, left': seq<byte>, given': nat, taken': nat, roomLeft: nat)
    requires taken <= given <= |stream| && x.fed == stream[..taken] && left == stream[taken..given] && x.Valid()
             && !x.d.Idle?
    modifies x, x.s, x.save, x.reader, x.stage, x.s.arena, x.s.arena.mtfa, x.s.arena.mtfbase, x.s.store.repr
    ensures taken' <= given' <= |stream| && x.fed == stream[..taken'] && left' == stream[taken'..given']
    ensures Concluded(stream, code, x.stage.output, given', taken', roomLeft)
            && (code == X.OK ==> x.Valid() && !x.d.Idle?)
  {
    hide *;
    given' := if delivery.size <= |stream| - given then given + delivery.size else |stream|;
    var before := |x.stage.output|;
    code := x.BzDecompress(left + stream[given..given'], delivery.room);
    left' := x.nextIn;
    Sliced(stream, given, taken, given', x.fed, left');
    taken', roomLeft := given' - |left'|, before + delivery.room - |x.stage.output|;
    Conclude(x, stream, code, given', taken', roomLeft);
    AnswerOk(x, code);
  }

  lemma AnswerOk(x: X.DecompressStream, code: X.Code)
    requires x.Answer(code)
    ensures code == X.OK ==> x.Valid() && !x.d.Idle?
  {
    hide Decoded;
  }

  // ---------- round trip ----------

  /** Two prefixes of a stream that both end a run, with less than a byte to spare, are one. */
  lemma SameEnd(a: seq<byte>, more: seq<byte>)
    requires Decoded(a).d == Idle == Decoded(a + more).d && |Decoded(a + more).rest| < 8
    ensures more == []
  {
    BytesBitsAppend(a, more);
    RunAppend(Start, BytesBits(a), BytesBits(more));
    var r := Decoded(a);
    RunTerminal(Idle, r.rest + BytesBits(more));
    hide RunBits;
    assert |Decoded(a + more).rest| == |r.rest| + 8 * |more|;
  }

  /** The bytes that end a stream are those of the encoding. */
  lemma EndsTogether(sent: seq<byte>, trailing: seq<byte>, taken: nat)
    requires Decoded(sent).d == Idle && |Decoded(sent).rest| < 8 && taken <= |sent + trailing|
    requires Decoded((sent + trailing)[..taken]).d == Idle && |Decoded((sent + trailing)[..taken]).rest| < 8
    ensures taken == |sent|
  {
    hide Decoded;
    var all := sent + trailing;
    if taken < |sent| {
      assert sent == all[..taken] + sent[taken..];
      SameEnd(all[..taken], sent[taken..]);
    } else {
      assert all[..taken] == sent + all[|sent|..taken];
      SameEnd(sent, all[|sent|..taken]);
    }
  }

  /** Once all of an encoding has been given, nothing more is asked for. */
  lemma AllGiven(sent: seq<byte>, trailing: seq<byte>, given: nat)
    requires Decoded(sent).d == Idle && |sent| <= given <= |sent + trailing|
    ensures Decoded((sent + trailing)[..given]).d == Idle
  {
    hide Decoded;
    var all := sent + trailing;
    assert all[..given] == sent + all[|sent|..given];
    DecodedMore(sent, all[|sent|..given]);
  }

  /** What decompressing an encoding, with anything behind it, comes to. */
  lemma DecodesBack(sent: seq<byte>, trailing: seq<byte>, data: seq<byte>, blocks: seq<BlockCode>, level: nat,
                    code: X.Code, got: seq<byte>,
                    given: nat, taken: nat, roomLeft: nat)
    requires IsEncoding(sent, data, blocks, level) && Concluded(sent + trailing, code, got, given, taken, roomLeft)
    ensures got <= data && (code == X.OK || code == X.StreamEnd)
    ensures code == X.StreamEnd ==> got == data && taken == |sent|
    ensures code == X.OK ==> given < |sent| || roomLeft == 0
  {
    hide IsEncoding, Decoded;
    Decodes(sent, data, blocks, level);
    DecodedMore(sent, trailing);
    if code == X.StreamEnd { EndsTogether(sent, trailing, taken); }
    if code == X.OK && given >= |sent| { AllGiven(sent, trailing, given); }
  }

  lemma Decodes(sent: seq<byte>, data: seq<byte>, blocks: seq<BlockCode>, level: nat)
    requires IsEncoding(sent, data, blocks, level)
    ensures Decoded(sent).out == data && Decoded(sent).d == Idle && |Decoded(sent).rest| < 8
  {
    hide IsEncoding, RunBits;
    RoundTrip.RoundTrip(sent, data, blocks, level);
  }

  /**
   Data compressed under any calls up to the end of the stream, and decompressed in any pieces, with any room, comes
   back: there is never an error, what has come out is the beginning of the data, and it is all of it, with nothing
   taken of what follows the stream, as soon as the stream has been given and a call has had room to spare.
  */
  method CompressThenDecompress(level: nat, work: nat, order: nat, calls: seq<Call>, small: bool, trailing: seq<byte>,
                                deliveries: seq<Delivery>)
    returns (r: C.Result, sent: seq<byte>, used: nat, code: X.Code, got: seq<byte>, given: nat, taken: nat,
             roomLeft: nat)
    requires 1 <= level <= 9 && work <= 250 && order <= 1
    ensures used <= |calls|
    ensures r == C.StreamEnd ==>
              && got <= Supplied(calls[..used]) && (code == X.OK || code == X.StreamEnd)
              && (code == X.StreamEnd ==> got == Supplied(calls[..used]) && taken == |sent|)
              && (given >= |sent| && roomLeft > 0 ==> code == X.StreamEnd)
  {
    var left;
    ghost var blocks;
    r, sent, left, used, blocks := CompressAll(level, work, order, calls);
    code, got, given, taken, roomLeft := DecompressAll(small, sent + trailing, deliveries);
    if r == C.StreamEnd {
      DecodesBack(sent, trailing, Supplied(calls[..used]), blocks, level, code, got, given, taken, roomLeft);
    }
  }
}
