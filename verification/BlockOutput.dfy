/**
 The last stage of decoding: bytes fetched through the inverse become runs, and runs become output, as far as there is
 room.
*/
module BlockOutput {
  import opened Bits
  import opened Crc
  import opened MoveToFront
  import opened RunLength
  import opened InverseBwt
  import opened BlockRows
  import opened BlockStore

  /**
   After used fetches, the bytes before the last fetched one have become e and len more bytes ch; the last one begins
   a run.
  */
  ghost predicate Between(col: seq<byte>, p: nat, used: nat, k0: byte, e: seq<byte>, len: nat, ch: byte) {
    var n := |col|;
    && 1 <= used <= n + 2 && e + Repeat(ch, len) == UnRle(Read(col, p, used - 1))
    && (used <= n ==> Read(col, p, used) == Read(col, p, used - 1) + [k0] && Fresh(Read(col, p, used - 1), k0))
    && (used == n + 1 ==> Complete(Read(col, p, n)))
    && (used == n + 2 ==> !Complete(Read(col, p, n)))
  }

  /** m bytes of the run of k0 that begins after the first used - 1 bytes have been fetched. */
  ghost predicate Looking(col: seq<byte>, p: nat, used: nat, k0: byte, m: nat) {
    used >= 1 && Read(col, p, used - 1 + m) == Read(col, p, used - 1) + Repeat(k0, m)
  }

  lemma OneByte(x: byte)
    ensures Repeat(x, 1) == [x] && Repeat(x, 0) == []
  {}

  /** One byte goes out. */
  lemma EmitKeeps(col: seq<byte>, p: nat, used: nat, k0: byte, e: seq<byte>, len: nat, ch: byte)
    requires Between(col, p, used, k0, e, len, ch) && len > 0
    ensures Between(col, p, used, k0, e + [ch], len - 1, ch)
  {
    hide Read, UnRle, Repeat, Fresh, Complete;
    RepeatAdd(ch, 1, len - 1);
    OneByte(ch);
    assert e + [ch] + Repeat(ch, len - 1) == e + ([ch] + Repeat(ch, len - 1));
  }

  lemma LookStart(col: seq<byte>, p: nat, used: nat, k0: byte, e: seq<byte>, ch: byte)
    requires Between(col, p, used, k0, e, 0, ch) && used <= |col|
    ensures Looking(col, p, used, k0, 1) && e == UnRle(Read(col, p, used - 1)) && Fresh(Read(col, p, used - 1), k0)
  {
    hide Read, UnRle, Repeat, Fresh, Complete;
    OneByte(k0);
    OneByte(ch);
    assert e + [] == e;
  }

  lemma LookMore(col: seq<byte>, p: nat, used: nat, k0: byte, m: nat)
    requires Looking(col, p, used, k0, m) && Read(col, p, used + m) == Read(col, p, used - 1 + m) + [k0]
    ensures Looking(col, p, used, k0, m + 1)
  {
    hide Read;
    var r := Read(col, p, used - 1);
    assert r + Repeat(k0, m) + [k0] == r + (Repeat(k0, m) + [k0]);
  }

  /** A run of one to three bytes, ended by another byte or by the end of the block. */
  lemma ShortRun(col: seq<byte>, p: nat, used: nat, k0: byte, m: nat, k1: byte, e: seq<byte>)
    requires Looking(col, p, used, k0, m) && 1 <= m <= 3 && used + m <= |col| + 1
    requires e == UnRle(Read(col, p, used - 1)) && Fresh(Read(col, p, used - 1), k0)
    requires Read(col, p, used + m) == Read(col, p, used - 1 + m) + [k1]
    requires used + m == |col| + 1 || k1 != k0
    ensures Between(col, p, used + m, k1, e, m, k0)
  {
    hide Read, Repeat;
    FoldRepeat(Read(col, p, used - 1), k0, m);
    hide RleFold;
  }

  /** A run of four, its count, and the byte after. */
  lemma LongRun(col: seq<byte>, p: nat, used: nat, k0: byte, x: byte, k1: byte, e: seq<byte>)
    requires Looking(col, p, used, k0, 4) && used + 3 <= |col|
    requires e == UnRle(Read(col, p, used - 1)) && Fresh(Read(col, p, used - 1), k0)
    requires Read(col, p, used + 4) == Read(col, p, used + 3) + [x]
             && Read(col, p, used + 5) == Read(col, p, used + 4) + [k1]
    ensures Between(col, p, used + 5, k1, e, x + 4, k0)
  {
    hide Read, Repeat;
    var r := Read(col, p, used - 1);
    FoldRepeat(r, k0, 4);
    FoldSnoc(Read(col, p, used + 3), x);
    CountExpands(RleFold(Read(col, p, used + 3)), e, k0, x);
    hide RleFold;
  }

  lemma StartBetween(col: seq<byte>, p: nat, k0: byte, e: seq<byte>)
    requires e == [] && |col| >= 1 && Read(col, p, 1) == Read(col, p, 0) + [k0]
    ensures Between(col, p, 1, k0, e, 0, 0) && Running(e) == 0xffff_ffff && Read(col, p, 0) == []
  {
    assert Read(col, p, 0) == [];
    assert RleFold([]).run == 0;
  }

  class OutputStage {
    const store: Store
    var stateOutLen: nat
    var stateOutCh: byte
    var k0: byte
    var nblockUsed: nat
    var blockCRC: word
    /** The caller's buffer: room left, and all output so far. */
    var availOut: nat
    var output: seq<byte>
    /** All output before this block. */
    ghost var before: seq<byte>

    /** What has been put out of this block. */
    ghost function Out(): seq<byte>
      requires |before| <= |output|
      reads this`output, this`before
    {
      output[|before|..]
    }

    /** Between runs, or with len more bytes of one to put out. */
    ghost predicate FlowingWith(len: nat)
      reads this, store, store.repr
    {
      && this !in store.repr && store.Shaped() && store.Ready() && nblockUsed == store.fetched && before <= output
      && blockCRC == Running(Out())
      && Between(store.col, store.orig, nblockUsed, k0, Out(), len, stateOutCh)
    }

    ghost predicate Flowing()
      reads this, store, store.repr
    {
      FlowingWith(stateOutLen)
    }

    /** The run of k0 is being looked at: m bytes of it have been fetched. */
    ghost predicate InRun(used: nat, m: nat)
      reads this, store, store.repr
    {
      && this !in store.repr && store.Shaped() && store.Ready() && nblockUsed == store.fetched == used - 1 + m
      && before <= output && blockCRC == Running(Out())
      && Looking(store.col, store.orig, used, k0, m) && used + m <= store.nblock + 1
      && Out() == UnRle(Read(store.col, store.orig, used - 1)) && Fresh(Read(store.col, store.orig, used - 1), k0)
    }

    constructor (store: Store)
      ensures this.store == store && output == [] && before == []
    {
      this.store, stateOutLen, stateOutCh, k0, nblockUsed, blockCRC, availOut, output, before := store, 0, 0, 0, 0, 0,
      0, [], [];
    }

    /** The start of a block's output: its CRC, and the first byte. */
    method Start(limit: nat) returns (corrupt: bool)
      requires this !in store.repr && store.Shaped() && store.Ready() && store.fetched == 0 && store.nblock <= limit
      modifies this, store`tPos, store`fetched
      ensures !corrupt && Flowing() && stateOutLen == 0 && nblockUsed == 1 && before == output == old(output)
      ensures availOut == old(availOut)
    {
      hide Between, Looking, Running, Read, Store.Ready, Store.Shaped;
      blockCRC, stateOutLen, stateOutCh, before := 0xffff_ffff, 0, 0, output;
      var c;
      if store.small { corrupt, c := store.GetSmall(limit); } else { corrupt, c := store.GetFast(limit); }
      k0, nblockUsed := c, 1;
      StoreSize();
      assert Out() == [];
      StartBetween(store.col, store.orig, c, Out());
    }

    lemma StoreSize()
      requires store.Ready()
      ensures 0 < store.nblock == |store.col| && store.orig < store.nblock
    {
      hide Store.Shaped;
    }

    /** One byte of the pending run; len is how many are pending. */
    method PutByte(ghost len: nat)
      requires FlowingWith(len) && len > 0 && availOut > 0
      modifies this`output, this`blockCRC, this`availOut
      ensures FlowingWith(len - 1) && output == old(output) + [stateOutCh] && availOut == old(availOut) - 1
    {
      hide Between, Running, Store.Ready, Store.Shaped;
      EmitKeeps(store.col, store.orig, nblockUsed, k0, Out(), len, stateOutCh);
      RunningSnoc(Out(), stateOutCh);
      assert (output + [stateOutCh])[|before|..] == Out() + [stateOutCh];
      output := output + [stateOutCh];
      blockCRC := Update(blockCRC, stateOutCh);
      availOut := availOut - 1;
    }

    /** The next byte through the inverse; nblock_used counts it. */
    method Fetch(limit: nat) returns (corrupt: bool, c: byte)
      requires this !in store.repr && store.Shaped() && store.Ready() && nblockUsed == store.fetched
               && store.nblock <= limit
      modifies this`nblockUsed, store`tPos, store`fetched
      ensures !corrupt && store.Ready() && nblockUsed == store.fetched == old(nblockUsed) + 1
              && store.Fetched() == old(store.Fetched()) + [c]
    {
      hide Store.Ready, Store.Shaped;
      if store.small { corrupt, c := store.GetSmall(limit); } else { corrupt, c := store.GetFast(limit); }
      nblockUsed := nblockUsed + 1;
    }

    /** A byte k1 has been fetched after m bytes of a run. */
    ghost predicate Looked(used: nat, m: nat, k1: byte)
      reads this, store, store.repr
    {
      && this !in store.repr && store.Shaped() && store.Ready() && nblockUsed == store.fetched == used + m
      && before <= output && blockCRC == Running(Out())
      && Looking(store.col, store.orig, used, k0, m) && used + m <= store.nblock + 1
      && Read(store.col, store.orig, used + m) == Read(store.col, store.orig, used - 1 + m) + [k1]
      && Out() == UnRle(Read(store.col, store.orig, used - 1)) && Fresh(Read(store.col, store.orig, used - 1), k0)
    }

    /** A new run can be started. */
    lemma BeginRun()
      requires FlowingWith(0) && nblockUsed <= store.nblock
      ensures InRun(nblockUsed, 1)
    {
      hide Between, Looking, Running, Read, UnRle, Fresh, Store.Shaped, Store.Ready;
      StoreSize();
      LookStart(store.col, store.orig, nblockUsed, k0, Out(), stateOutCh);
    }

    /** The run is over: at the end of the block, or because k1 is another byte. */
    lemma EndRun(used: nat, m: nat, k1: byte)
      requires Looked(used, m, k1) && 1 <= m <= 3 && (nblockUsed == store.nblock + 1 || k1 != k0)
      ensures Between(store.col, store.orig, nblockUsed, k1, Out(), m, k0)
      ensures nblockUsed == store.nblock + 1 ==> Between(store.col, store.orig, nblockUsed, k0, Out(), m, k0)
    {
      hide Looking, Running, Read, UnRle, Fresh, Repeat, Complete, Store.Shaped;
      StoreSize();
      ShortRun(store.col, store.orig, used, k0, m, k1, Out());
    }

    /** The run goes on. */
    lemma OnRun(used: nat, m: nat, k1: byte)
      requires Looked(used, m, k1) && nblockUsed <= store.nblock && k1 == k0
      ensures InRun(used, m + 1)
    {
      hide Looking, Running, Read, UnRle, Fresh, Store.Shaped, Store.Ready;
      LookMore(store.col, store.orig, used, k0, m);
    }

    /** GET the byte after m bytes of the run. */
    method Look(limit: nat, ghost used: nat, ghost m: nat) returns (corrupt: bool, k1: byte)
      requires InRun(used, m) && store.nblock <= limit
      modifies this`nblockUsed, store`tPos, store`fetched
      ensures !corrupt && Looked(used, m, k1) && nblockUsed == old(nblockUsed) + 1
    {
      hide Looking, Running, Read, UnRle, Fresh, Store.Shaped, Store.Ready;
      corrupt, k1 := Fetch(limit);
    }

    /** After four: the count, and the byte that begins the next run. */
    method Count(limit: nat, ghost used: nat) returns (corrupt: bool)
      requires InRun(used, 4) && store.nblock <= limit && stateOutCh == k0
      modifies this`nblockUsed, this`stateOutLen, this`k0, store`tPos, store`fetched
      ensures !corrupt && Flowing() && stateOutLen > 0 && nblockUsed == old(nblockUsed) + 2
    {
      hide Looking, Running, Read, UnRle, Fresh, Between, Store.Shaped, Store.Ready;
      ghost var was := k0;
      var k1, next;
      corrupt, k1 := Fetch(limit);
      if corrupt { return; }
      var count: nat := k1;
      stateOutLen := count + 4;
      corrupt, next := Fetch(limit);
      if corrupt { return; }
      k0 := next;
      StoreIs();
      LongRun(store.col, store.orig, used, was, k1, next, Out());
    }

    lemma StoreIs()
      requires store.Ready()
      ensures store.nblock == |store.col|
    {
      hide Store.Shaped;
    }

    /** A new run, as unRLE_obuf_to_output_SMALL reads it. */
    method RunSmall(limit: nat) returns (corrupt: bool)
      requires FlowingWith(0) && nblockUsed <= store.nblock <= limit
      modifies this`nblockUsed, this`stateOutLen, this`stateOutCh, this`k0, store`tPos, store`fetched
      ensures !corrupt && Flowing() && stateOutLen > 0 && nblockUsed > old(nblockUsed)
    {
      hide Between, Looking, Running, Read, UnRle, Fresh, Store.Shaped, Store.Ready;
      BeginRun();
      ghost var used := nblockUsed;
      stateOutLen, stateOutCh := 1, k0;
      var k1;
      corrupt, k1 := Look(limit, used, 1);
      if nblockUsed == store.nblock + 1 || k1 != k0 { EndRun(used, 1, k1); }
      if nblockUsed == store.nblock + 1 { return; }
      if k1 != k0 { k0 := k1; return; }
      OnRun(used, 1, k1);
      stateOutLen := 2;
      corrupt, k1 := Look(limit, used, 2);
      if nblockUsed == store.nblock + 1 || k1 != k0 { EndRun(used, 2, k1); }
      if nblockUsed == store.nblock + 1 { return; }
      if k1 != k0 { k0 := k1; return; }
      OnRun(used, 2, k1);
      stateOutLen := 3;
      corrupt, k1 := Look(limit, used, 3);
      if nblockUsed == store.nblock + 1 || k1 != k0 { EndRun(used, 3, k1); }
      if nblockUsed == store.nblock + 1 { return; }
      if k1 != k0 { k0 := k1; return; }
      OnRun(used, 3, k1);
      corrupt := Count(limit, used);
    }

    /**
     A new run, as unRLE_obuf_to_output_FAST reads it; one says that a single byte is to go out, whatever stateOutLen
     says.
    */
    method RunFast(limit: nat) returns (corrupt: bool, one: bool)
      requires FlowingWith(0) && nblockUsed <= store.nblock <= limit
      modifies this`nblockUsed, this`stateOutLen, this`stateOutCh, this`k0, store`tPos, store`fetched
      ensures !corrupt && nblockUsed > old(nblockUsed)
      ensures if one then FlowingWith(1) else Flowing() && stateOutLen > 0
    {
      hide Between, Looking, Running, Read, UnRle, Fresh, Store.Shaped, Store.Ready;
      BeginRun();
      ghost var used := nblockUsed;
      one := true;
      stateOutCh := k0;
      var k1;
      corrupt, k1 := Look(limit, used, 1);
      if nblockUsed == store.nblock + 1 || k1 != k0 { EndRun(used, 1, k1); }
      if k1 != k0 { k0 := k1; return; }
      if nblockUsed == store.nblock + 1 { return; }
      one := false;
      OnRun(used, 1, k1);
      stateOutLen := 2;
      corrupt, k1 := Look(limit, used, 2);
      if nblockUsed == store.nblock + 1 || k1 != k0 { EndRun(used, 2, k1); }
      if nblockUsed == store.nblock + 1 { return; }
      if k1 != k0 { k0 := k1; return; }
      OnRun(used, 2, k1);
      stateOutLen := 3;
      corrupt, k1 := Look(limit, used, 3);
      if nblockUsed == store.nblock + 1 || k1 != k0 { EndRun(used, 3, k1); }
      if nblockUsed == store.nblock + 1 { return; }
      if k1 != k0 { k0 := k1; return; }
      OnRun(used, 3, k1);
      corrupt := Count(limit, used);
    }

    /** The block has been put out in full. */
    predicate Finished()
      reads this, store`nblock
    {
      nblockUsed == store.nblock + 1 && stateOutLen == 0
    }

    /** Puts out the pending run, as far as there is room. */
    method FinishRunSmall() returns (full: bool)
      requires Flowing()
      modifies this`stateOutLen, this`output, this`blockCRC, this`availOut
      ensures Flowing() && (if full then availOut == 0 else stateOutLen == 0)
      ensures old(output) <= output && availOut + |output| == old(availOut + |output|)
    {
      hide Between, Running, Store.Shaped, Store.Ready;
      while true
        invariant Flowing() && old(output) <= output && availOut + |output| == old(availOut + |output|)
        decreases stateOutLen
      {
        if availOut == 0 { return true; }
        if stateOutLen == 0 { return false; }
        PutByte(stateOutLen);
        stateOutLen := stateOutLen - 1;
      }
    }

    /** unRLE_obuf_to_output_SMALL, for a block that is not randomised; true is the discovery of corrupt data. */
    method UnRleSmall(limit: nat) returns (corrupt: bool)
      requires Flowing() && store.nblock <= limit
      modifies this`nblockUsed, this`stateOutLen, this`stateOutCh, this`k0, this`output, this`blockCRC, this`availOut,
               store`tPos, store`fetched
      ensures Flowing() && old(output) <= output && availOut + |output| == old(availOut + |output|)
      ensures corrupt ==> nblockUsed == store.nblock + 2 && stateOutLen == 0
                          && !Complete(Read(store.col, store.orig, store.nblock))
      ensures !corrupt ==> availOut == 0 || Finished()
    {
      hide Between, Running, Complete, Read, Store.Shaped, Store.Ready;
      while true
        invariant Flowing() && old(output) <= output && availOut + |output| == old(availOut + |output|)
        decreases store.nblock + 2 - nblockUsed
      {
        var full := FinishRunSmall();
        if full { return false; }
        UsedBoundWith(stateOutLen);
        if nblockUsed == store.nblock + 1 { return false; }
        if nblockUsed > store.nblock + 1 { return true; }
        corrupt := RunSmall(limit);
        if corrupt { return; }
        UsedBoundWith(stateOutLen);
      }
    }

    /**
     unRLE_obuf_to_output_FAST, for a block that is not randomised. On corrupt data it returns without
     saving its copies of the stream's position, so what it wrote does not count as put out.
    */
    method UnRleFast(limit: nat) returns (corrupt: bool)
      requires Flowing() && store.nblock <= limit
      modifies this`nblockUsed, this`stateOutLen, this`stateOutCh, this`k0, this`output, this`blockCRC, this`availOut,
               store`tPos, store`fetched
      ensures !corrupt ==> Flowing() && (availOut == 0 || Finished()) && old(output) <= output
                           && availOut + |output| == old(availOut + |output|)
      ensures corrupt ==> !Complete(Read(store.col, store.orig, store.nblock)) && output == old(output)
                          && availOut == old(availOut)
    {
      hide Between, Running, Complete, Read, Store.Shaped, Store.Ready;
      var one, room, sent := false, availOut, output;
      while true
        invariant if one then FlowingWith(1) else Flowing()
        invariant old(output) <= output && availOut + |output| == old(availOut + |output|)
        decreases store.nblock + 2 - nblockUsed
      {
        var full := FinishRunFast(one);
        if full { return false; }
        UsedBoundWith(0);
        if nblockUsed > store.nblock + 1 {
          availOut, output := room, sent;
          return true;
        }
        if nblockUsed == store.nblock + 1 {
          stateOutLen := 0;
          return false;
        }
        corrupt, one := RunFast(limit);
        if corrupt { return; }
        UsedBoundWith(if one then 1 else stateOutLen);
      }
    }

    lemma UsedBoundWith(len: nat)
      requires FlowingWith(len)
      ensures 1 <= nblockUsed <= store.nblock + 2
      ensures nblockUsed == store.nblock + 2 ==> !Complete(Read(store.col, store.orig, store.nblock))
    {
      StoreIs();
    }

    /** Puts out the pending run; stateOutLen is left at one, or whatever it was. */
    method FinishRunFast(one: bool) returns (full: bool)
      requires if one then FlowingWith(1) else Flowing()
      modifies this`stateOutLen, this`output, this`blockCRC, this`availOut
      ensures if full then Flowing() && availOut == 0 else FlowingWith(0)
      ensures old(output) <= output && availOut + |output| == old(availOut + |output|)
    {
      hide Between, Running, Store.Shaped, Store.Ready;
      if one || stateOutLen > 0 {
        if !one {
          while true
            invariant Flowing() && stateOutLen > 0 && old(output) <= output
                      && availOut + |output| == old(availOut + |output|)
            decreases stateOutLen
          {
            if availOut == 0 { return true; }
            if stateOutLen == 1 { break; }
            PutByte(stateOutLen);
            stateOutLen := stateOutLen - 1;
          }
        }
        if availOut == 0 {
          stateOutLen := 1;
          return true;
        }
        PutByte(1);
      }
      full := false;
    }
  }
}
