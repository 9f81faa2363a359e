/**
 The hasher's shared state: the files to hash, the semaphore, and the pause counter that also stores deferred
 wake-ups.
*/
module HasherQueue {
  /** Semaphore tokens, pause counter, flags; one wake-up is deferred for each count above the first. */
  datatype Shared = Shared(w: map<string, int>, tokens: nat, paused: nat, stop: bool, rebuild: bool)

  /** The largest unsigned. */
  const UINT_MAX := 0xFFFF_FFFF

  function Deferred(paused: nat): nat {
    if paused > 0 then paused - 1 else 0
  }

  /** Without the files below baseDir. */
  function Without(w: map<string, int>, baseDir: string): map<string, int> {
    map k | k in w && !(baseDir <= k) :: w[k]
  }

  // ---------- what each critical section does ----------

  function AfterHashFile(s: Shared, name: string, size: int): Shared {
    if name in s.w then s
    else if s.paused > 0 then s.(w := s.w[name := size], paused := s.paused + 1)
    else s.(w := s.w[name := size], tokens := s.tokens + 1)
  }

  function AfterPause(s: Shared): Shared {
    s.(paused := s.paused + 1)
  }

  /**
   Signals sent by resume: the deferred wake-ups; or, when not paused, as many as an unsigned counter has values below
   zero.
  */
  function Released(paused: nat): nat {
    if paused > 0 then Deferred(paused) else UINT_MAX
  }

  function AfterResume(s: Shared): Shared {
    s.(tokens := s.tokens + Released(s.paused), paused := 0)
  }

  function AfterStopHashing(s: Shared, baseDir: string): Shared {
    s.(w := Without(s.w, baseDir))
  }

  /** The locked part of instantPause. */
  function AfterInstantPause(s: Shared): Shared {
    if s.paused > 0 then s.(paused := s.paused + 1) else s
  }

  /** Signals sent by shutdown and scheduleRebuild after they have looked at the pause counter. */
  function SignalsFor(paused: nat): nat {
    if paused > 0 then 2 else 1
  }

  class Hasher {
    var w: map<string, int>
    /** The count of the semaphore s. */
    var tokens: nat
    var paused: nat
    var stop: bool
    var rebuild: bool

    function Now(): Shared
      reads this
    {
      Shared(w, tokens, paused, stop, rebuild)
    }

    constructor ()
      ensures Now() == Shared(map[], 0, 0, false, false)
    {
      w, tokens, paused, stop, rebuild := map[], 0, 0, false, false;
    }

    /** Semaphore::signal. */
    method Signal()
      modifies this`tokens
      ensures tokens == old(tokens) + 1
    {
      tokens := tokens + 1;
    }

    /** hashFile: a new file brings exactly one wake-up, at once or deferred; one already queued changes nothing. */
    method HashFile(fileName: string, size: int)
      modifies this
      ensures w == if fileName in old(w) then old(w) else old(w)[fileName := size]
      ensures tokens + Deferred(paused) == old(tokens + Deferred(paused)) + if fileName in old(w) then 0 else 1
      ensures Now() == AfterHashFile(old(Now()), fileName, size)
    {
      if fileName !in w {
        w := w[fileName := size];
        if paused > 0 {
          paused := paused + 1;
        } else {
          Signal();
        }
      }
    }

    /** pause; whether it was paused before. */
    method Pause() returns (was: bool)
      modifies this`paused
      ensures paused == old(paused) + 1
      ensures Now() == AfterPause(old(Now())) && (was <==> old(paused) > 0)
    {
      was := paused > 0;
      paused := paused + 1;
    }

    /** resume; the counter is unsigned, and taking one from zero gives the largest number. */
    method Resume()
      modifies this`paused, this`tokens
      ensures paused == 0 && tokens == old(tokens) + if old(paused) > 0 then old(paused) - 1 else UINT_MAX
      ensures Now() == AfterResume(old(Now()))
    {
      paused := if paused == 0 then UINT_MAX else paused - 1;
      while paused > 0
        invariant tokens + paused == old(tokens) + Released(old(paused))
      {
        Signal();
        paused := paused - 1;
      }
    }

    method IsPaused() returns (yes: bool)
      ensures yes <==> paused > 0
    {
      yes := paused > 0;
    }

    /** stopHashing: exactly the files below baseDir go, and nothing else changes. */
    method StopHashing(baseDir: string)
      modifies this`w
      ensures forall k :: k in w <==> k in old(w) && !(baseDir <= k)
      ensures forall k :: k in w ==> w[k] == old(w)[k]
      ensures Now() == AfterStopHashing(old(Now()), baseDir)
    {
      var left := w.Keys;
      while left != {}
        invariant left <= old(w).Keys
        invariant w.Keys == set k | k in old(w).Keys && (k in left || !(baseDir <= k))
        invariant forall k :: k in w ==> k in old(w) && w[k] == old(w)[k]
        decreases |left|
      {
        var k :| k in left;
        left := left - {k};
        if baseDir <= k { w := w - {k}; }
      }
      assert w == Without(old(w), baseDir);
    }

    /**
     The locked part of instantPause; whether the worker must then wait, and then exactly one wake-up is deferred for
     it.
    */
    method InstantPause() returns (wait: bool)
      modifies this`paused
      ensures Deferred(paused) == old(Deferred(paused)) + if wait then 1 else 0
      ensures Now() == AfterInstantPause(old(Now())) && (wait <==> old(paused) > 0)
    {
      wait := false;
      if paused > 0 {
        paused := paused + 1;
        wait := true;
      }
    }

    /**
     shutdown, when nothing comes in between its steps: one signal for the worker, and one more to come out of a
     pause.
    */
    method Shutdown()
      modifies this`stop, this`tokens
      ensures stop && tokens == old(tokens) + if old(paused) > 0 then 2 else 1
      ensures Now() == old(Now()).(stop := true, tokens := old(tokens) + SignalsFor(old(paused)))
    {
      stop := true;
      if paused > 0 { Signal(); }
      Signal();
    }

    /** scheduleRebuild, when nothing comes in between its steps, with the signals of shutdown. */
    method ScheduleRebuild()
      modifies this`rebuild, this`tokens
      ensures rebuild && tokens == old(tokens) + if old(paused) > 0 then 2 else 1
      ensures Now() == old(Now()).(rebuild := true, tokens := old(tokens) + SignalsFor(old(paused)))
    {
      rebuild := true;
      if paused > 0 { Signal(); }
      Signal();
    }
  }
}
