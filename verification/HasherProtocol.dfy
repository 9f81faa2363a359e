/** The hasher as interleaved steps of its worker and of everybody else: no wake-up is lost. */
module HasherProtocol {
  import opened HasherQueue

  datatype Option<T> = None | Some(value: T)

  /** Where the worker is in run; a file has that many callbacks left. */
  datatype Worker =
    | Waiting                               // before s.wait() at the top of the loop
    | Woken                                 // after it, before looking at stop
    | Unstopped                             // before looking at rebuild
    | Rebuilding                            // in doRebuild
    | Picking                               // before taking the first file
    | Hashing(file: string, left: nat)
    | PauseWait(file: string, left: nat)   // before s.wait() in instantPause
    | Unpaused(file: string, left: nat)    // after instantPause, before looking at stop
    | Ended

  /**
   asked: callers of shutdown and scheduleRebuild that have set their flag; owed: signals they still send after
   looking at paused.
  */
  datatype State = State(q: Shared, asked: nat, owed: nat, worker: Worker)

  datatype Event =
    | HashFile(name: string, size: int)
    | Pause
    | Resume
    | StopHashing(baseDir: string)
    | AskRebuild
    | AskStop
    | LookPaused
    | Signal
    | Wait
    | LookStop
    | LookRebuild
    | RebuildDone
    | Pick(name: string, callbacks: nat)
    | PickNone
    | Read
    | PauseOver
    | Continue
    | FileDone

  const Start := State(Shared(map[], 0, 0, false, false), 0, 0, Waiting)

  /** Strictly before, character by character: the order of the map of files. */
  predicate Less(a: string, b: string) {
    b != [] && (a == [] || a[0] < b[0] || (a[0] == b[0] && Less(a[1..], b[1..])))
  }

  predicate IsFirst(w: map<string, int>, name: string) {
    name in w && forall x :: x in w ==> !Less(x, name)
  }

  /** One atomic step, if it can be taken. */
  ghost function Step(s: State, e: Event): Option<State> {
    match e
    case HashFile(name, size) => Some(s.(q := AfterHashFile(s.q, name, size)))
    case Pause => Some(s.(q := AfterPause(s.q)))
    case Resume => Some(s.(q := AfterResume(s.q)))
    case StopHashing(baseDir) => Some(s.(q := AfterStopHashing(s.q, baseDir)))
    case AskRebuild => Some(s.(q := s.q.(rebuild := true), asked := s.asked + 1))
    case AskStop => Some(s.(q := s.q.(stop := true), asked := s.asked + 1))
    case LookPaused => if s.asked == 0 then None
                       else Some(s.(asked := s.asked - 1, owed := s.owed + SignalsFor(s.q.paused)))
    case Signal => if s.owed == 0 then None else Some(s.(owed := s.owed - 1, q := s.q.(tokens := s.q.tokens + 1)))
    case Wait => if s.worker != Waiting || s.q.tokens == 0 then None
                 else Some(s.(q := s.q.(tokens := s.q.tokens - 1), worker := Woken))
    case LookStop => if s.worker != Woken then None else Some(s.(worker := if s.q.stop then Ended else Unstopped))
    case LookRebuild => if s.worker != Unstopped then None
                        else Some(s.(worker := if s.q.rebuild then Rebuilding else Picking))
    case RebuildDone => if s.worker != Rebuilding then None
                        else Some(s.(q := s.q.(rebuild := false), worker := Waiting))
    case Pick(name, callbacks) =>
      if s.worker != Picking || !IsFirst(s.q.w, name) then None
      else Some(s.(q := s.q.(w := s.q.w - {name}), worker := Hashing(name, callbacks)))
    case PickNone => if s.worker != Picking || s.q.w != map[] then None else Some(s.(worker := Waiting))
    case Read =>
      if !s.worker.Hashing? || s.worker.left == 0 then None
      else
        var (f, r) := (s.worker.file, s.worker.left - 1);
        Some(s.(q := AfterInstantPause(s.q), worker := if s.q.paused > 0 then PauseWait(f, r) else Unpaused(f, r)))
    case PauseOver =>
      if !s.worker.PauseWait? || s.q.tokens == 0 then None
      else Some(s.(q := s.q.(tokens := s.q.tokens - 1), worker := Unpaused(s.worker.file, s.worker.left)))
    case Continue =>
      if !s.worker.Unpaused? then None
      else Some(s.(worker := if s.q.stop then Waiting else Hashing(s.worker.file, s.worker.left)))
    case FileDone => if !s.worker.Hashing? then None else Some(s.(worker := Waiting))
  }

  /** A run. */
  ghost function Run(s: State, es: seq<Event>): Option<State>
    decreases |es|
  {
    if es == [] then Some(s)
    else match Step(s, es[0])
      case None => None
      case Some(s') => Run(s', es[1..])
  }

  // ---------- wake-ups ----------

  /** Wake-ups there are or will be: tokens, deferred ones, signals still to be sent, and the one the worker holds. */
  function Have(s: State): nat {
    s.q.tokens + Deferred(s.q.paused) + s.asked + s.owed + if s.worker in {Woken, Unstopped, Picking} then 1 else 0
  }

  function AtLeastOne(n: nat): nat {
    if n == 0 then 1 else n
  }

  /**
   Wake-ups wanted: one for each file, for a worker inside instantPause, and for a rebuild not yet begun; a worker
   that has been woken uses one up.
  */
  function Need(s: State): nat {
    var files, rebuild := |s.q.w|, if s.q.rebuild then 1 else 0;
    match s.worker
    case Woken => AtLeastOne(files + rebuild)
    case Unstopped => AtLeastOne(files + rebuild)
    case Picking => AtLeastOne(files) + rebuild
    case Rebuilding => files
    case PauseWait(_, _) => files + rebuild + 1
    case _ => files + rebuild
  }

  /** Until the worker ends, wake-ups cover what is wanted, and once stopping there is one more to end it. */
  ghost predicate Inv(s: State) {
    s.worker == Ended || (s.worker == Woken && s.q.stop) || Have(s) >= Need(s) + if s.q.stop then 1 else 0
  }

  lemma AddFile(w: map<string, int>, name: string, size: int)
    requires name !in w
    ensures |w[name := size]| == |w| + 1
  {
    assert w[name := size].Keys == w.Keys + {name};
  }

  lemma DropFile(w: map<string, int>, name: string)
    requires name in w
    ensures |w - {name}| == |w| - 1
  {
    assert (w - {name}).Keys == w.Keys - {name};
  }

  lemma FewerFiles(w: map<string, int>, baseDir: string)
    ensures |Without(w, baseDir)| <= |w|
  {
    var v := Without(w, baseDir);
    assert v.Keys <= w.Keys;
    var rest := w.Keys - v.Keys;
    assert w.Keys == v.Keys + rest && v.Keys !! rest;
  }

  lemma HashFileKeeps(s: State, e: Event)
    requires Inv(s) && e.HashFile?
    ensures Inv(Step(s, e).value)
  {
    if e.name !in s.q.w { AddFile(s.q.w, e.name, e.size); }
  }

  lemma StopHashingKeeps(s: State, e: Event)
    requires Inv(s) && e.StopHashing?
    ensures Inv(Step(s, e).value)
  {
    hide Without;
    FewerFiles(s.q.w, e.baseDir);
  }

  lemma CallersKeep(s: State, e: Event)
    requires Inv(s) && Step(s, e).Some?
             && (e.Pause? || e.Resume? || e.AskRebuild? || e.AskStop? || e.LookPaused? || e.Signal?)
    ensures Inv(Step(s, e).value)
  {}

  lemma WakingKeeps(s: State, e: Event)
    requires Inv(s) && Step(s, e).Some? && (e.Wait? || e.LookStop? || e.LookRebuild? || e.RebuildDone?)
    ensures Inv(Step(s, e).value)
  {}

  lemma PickingKeeps(s: State, e: Event)
    requires Inv(s) && Step(s, e).Some? && (e.Pick? || e.PickNone?)
    ensures Inv(Step(s, e).value)
  {
    if e.Pick? { DropFile(s.q.w, e.name); }
  }

  lemma HashingKeeps(s: State, e: Event)
    requires Inv(s) && Step(s, e).Some? && (e.Read? || e.PauseOver? || e.Continue? || e.FileDone?)
    ensures Inv(Step(s, e).value)
  {}

  lemma StepKeeps(s: State, e: Event)
    requires Inv(s) && Step(s, e).Some?
    ensures Inv(Step(s, e).value)
  {
    hide Inv, Step;
    if e.HashFile? { HashFileKeeps(s, e); }
    else if e.StopHashing? { StopHashingKeeps(s, e); }
    else if e.Pause? || e.Resume? || e.AskRebuild? || e.AskStop? || e.LookPaused? || e.Signal? { CallersKeep(s, e); }
    else if e.Wait? || e.LookStop? || e.LookRebuild? || e.RebuildDone? { WakingKeeps(s, e); }
    else if e.Pick? || e.PickNone? { PickingKeeps(s, e); }
    else { HashingKeeps(s, e); }
  }

  lemma {:induction false} RunKeeps(s: State, es: seq<Event>)
    requires Inv(s) && Run(s, es).Some?
    ensures Inv(Run(s, es).value)
    decreases |es|
  {
    if es != [] {
      StepKeeps(s, es[0]);
      RunKeeps(Step(s, es[0]).value, es[1..]);
    }
  }

  /**
   No lost wake-ups: while not paused, a worker about to wait with something to do has a token or is about to be
   signalled.
  */
  lemma NoLostWakeUps(es: seq<Event>)
    requires Run(Start, es).Some?
    ensures var s := Run(Start, es).value;
            && s.q.paused == 0 && (s.worker == Waiting || s.worker.PauseWait?)
            && (s.q.w != map[] || s.worker.PauseWait? || s.q.rebuild || s.q.stop)
            ==> s.q.tokens + s.asked + s.owed > 0
  {
    RunKeeps(Start, es);
  }

  // ---------- everything queued gets done ----------

  /** Steps of the worker, and signals on their way. */
  predicate Internal(e: Event) {
    !e.HashFile? && !e.Pause? && !e.Resume? && !e.StopHashing? && !e.AskRebuild? && !e.AskStop?
  }

  function Rank(w: Worker): nat {
    match w
    case Woken => 5
    case Unstopped => 4
    case Picking => 3
    case Rebuilding => 2
    case Hashing(_, _) => 1
    case Unpaused(_, _) => 1
    case _ => 0
  }

  function Callbacks(w: Worker): nat {
    match w
    case Hashing(_, left) => 2 * left
    case Unpaused(_, left) => 2 * left + 1
    case _ => 0
  }

  /** What gets smaller with every internal step, compared part by part. */
  predicate Smaller(t: State, s: State) {
    t.asked < s.asked || (t.asked == s.asked && (t.owed < s.owed || (t.owed == s.owed && (t.q.tokens < s.q.tokens
    || (t.q.tokens == s.q.tokens
        && (Rank(t.worker) < Rank(s.worker)
            || (Rank(t.worker) == Rank(s.worker) && Callbacks(t.worker) < Callbacks(s.worker))))))))
  }

  /** Left to itself, paused or not, the hasher cannot go on for ever. */
  lemma InternalStepsEnd(s: State, e: Event)
    requires Internal(e) && Step(s, e).Some?
    ensures Smaller(Step(s, e).value, s) && (Step(s, e).value.q.paused == 0 <==> s.q.paused == 0)
  {}

  /** A queue that is not empty has a first file. */
  lemma FirstFile(w: map<string, int>) returns (name: string)
    requires w != map[]
    ensures IsFirst(w, name)
  {
    var some :| some in w;
    name := LeastOf(w.Keys, some);
  }

  lemma LeastOf(keys: set<string>, some: string) returns (name: string)
    requires some in keys
    ensures name in keys && forall x :: x in keys ==> !Less(x, name)
    decreases |keys|
  {
    if exists x :: x in keys && Less(x, some) {
      var x :| x in keys && Less(x, some);
      LessNotSelf(some);
      var rest := keys - {some};
      assert |rest| < |keys|;
      name := LeastOf(rest, x);
      if Less(some, name) { LessTrans(x, some, name); }
    } else {
      name := some;
    }
  }

  lemma {:induction false} LessNotSelf(a: string)
    ensures !Less(a, a)
    decreases |a|
  {
    if a != [] { LessNotSelf(a[1..]); }
  }

  lemma {:induction false} LessTrans(a: string, b: string, c: string)
    requires Less(a, b) && Less(b, c)
    ensures Less(a, c)
    decreases |a|
  {
    if a != [] && a[0] == b[0] && b[0] == c[0] { LessTrans(a[1..], b[1..], c[1..]); }
  }

  /** The unpaused hasher has come to rest. */
  ghost predicate AtRest(s: State) {
    forall e :: Internal(e) ==> Step(s, e).None?
  }

  /**
   When it comes to rest, nothing is queued, no rebuild is wanted, and it has not been told to stop, unless it has
   ended.
  */
  lemma RestMeansDone(es: seq<Event>)
    requires Run(Start, es).Some? && Run(Start, es).value.q.paused == 0 && AtRest(Run(Start, es).value)
    ensures var s := Run(Start, es).value;
            s.worker == Ended || (s.worker == Waiting && s.q.w == map[] && !s.q.rebuild && !s.q.stop)
  {
    RunKeeps(Start, es);
    RestIs(Run(Start, es).value);
  }

  lemma PickingGoesOn(s: State)
    requires s.worker == Picking
    ensures exists e :: Internal(e) && Step(s, e).Some?
  {
    if s.q.w == map[] {
      assert Step(s, PickNone).Some?;
    } else {
      var name := FirstFile(s.q.w);
      assert Step(s, Pick(name, 0)).Some?;
    }
  }

  lemma RestIs(s: State)
    requires Inv(s) && s.q.paused == 0 && AtRest(s)
    ensures s.worker == Ended || (s.worker == Waiting && s.q.w == map[] && !s.q.rebuild && !s.q.stop)
  {
    assert Step(s, LookPaused).None? && Step(s, Signal).None? && Step(s, Wait).None? && Step(s, PauseOver).None?;
    assert Step(s, LookStop).None? && Step(s, LookRebuild).None? && Step(s, RebuildDone).None?
           && Step(s, FileDone).None? && Step(s, Continue).None?;
    assert Step(s, PickNone).None?;
    if s.worker == Picking { PickingGoesOn(s); }
  }

  // ---------- how soon a pause works ----------

  predicate IsWait(e: Event) {
    e.Wait? || e.PauseOver?
  }

  function Waits(es: seq<Event>): nat
    decreases |es|
  {
    if es == [] then 0 else (if IsWait(es[0]) then 1 else 0) + Waits(es[1..])
  }

  /** Nobody resumes, and nobody asks for a rebuild or a stop. */
  predicate StaysPaused(es: seq<Event>) {
    forall k :: 0 <= k < |es| ==> !es[k].Resume? && !es[k].AskRebuild? && !es[k].AskStop?
  }

  /**
   A pause is not immediate: the worker goes past a wait once for each token that was there; after that it is held.
  */
  lemma {:induction false} PauseTakesEffect(s: State, es: seq<Event>)
    requires s.q.paused > 0 && s.asked == 0 && s.owed == 0 && StaysPaused(es) && Run(s, es).Some?
    ensures Run(s, es).value.q.paused > 0 && Waits(es) + Run(s, es).value.q.tokens == s.q.tokens
    decreases |es|
  {
    if es != [] {
      assert !es[0].Resume? && !es[0].AskRebuild? && !es[0].AskStop?;
      PauseTakesEffect(Step(s, es[0]).value, es[1..]);
    }
  }

  /** Held at a pause, with no token left. */
  predicate Held(s: State) {
    s.worker.PauseWait? && s.q.paused > 0 && s.q.tokens == 0 && s.asked == 0 && s.owed == 0
  }

  lemma {:induction false} HeldStays(s: State, es: seq<Event>)
    requires Held(s) && StaysPaused(es) && Run(s, es).Some?
    ensures Held(Run(s, es).value)
    decreases |es|
  {
    if es != [] {
      assert !es[0].Resume? && !es[0].AskRebuild? && !es[0].AskStop?;
      HeldStays(Step(s, es[0]).value, es[1..]);
    }
  }

  /** Whatever happens from its next callback on, while it stays paused, the worker does not get past that callback. */
  ghost predicate HeldAtCallback(s: State) {
    forall es :: StaysPaused(es) && Run(s, [Read] + es).Some? ==> Run(s, [Read] + es).value.worker.PauseWait?
  }

  /** A pause works at the next callback, whatever comes after it, exactly when no token is left. */
  lemma PausedCallback(s: State)
    requires s.q.paused > 0 && s.asked == 0 && s.owed == 0 && s.worker.Hashing? && s.worker.left > 0
    ensures HeldAtCallback(s) <==> s.q.tokens == 0
  {
    var t := Step(s, Read).value;
    RunFirst(s, Read);
    if s.q.tokens > 0 {
      var es := [PauseOver];
      RunFirst(t, PauseOver);
      assert [PauseOver] + [] == es && Run(Step(t, PauseOver).value, []) == Some(Step(t, PauseOver).value);
      assert StaysPaused(es) && Run(s, [Read] + es).Some? && !Run(s, [Read] + es).value.worker.PauseWait?;
    } else {
      forall es | StaysPaused(es) && Run(s, [Read] + es).Some?
        ensures Run(s, [Read] + es).value.worker.PauseWait?
      {
        HeldStays(t, es);
      }
    }
  }

  lemma RunFirst(s: State, e: Event)
    requires Step(s, e).Some?
    ensures forall es :: Run(s, [e] + es) == Run(Step(s, e).value, es)
  {
    hide Step;
    forall es: seq<Event>
      ensures Run(s, [e] + es) == Run(Step(s, e).value, es)
    {
      RunFrom(s, e, es);
    }
  }

  /**
   Two files, and a pause once the first is being hashed: the worker goes on past the pause with the token of the
   second.
  */
  lemma PauseNotImmediate() returns (es: seq<Event>, past: State)
    ensures Run(Start, es) == Some(past) && past.q.paused > 0 && past.worker.Unpaused? && es != []
            && es[|es| - 1] == PauseOver
  {
    var w := map["a" := 1, "b" := 1];
    var woken := State(Shared(w, 1, 0, false, false), 0, 0, Woken);
    var picked := State(Shared(w - {"a"}, 1, 0, false, false), 0, 0, Hashing("a", 1));
    past := State(Shared(w - {"a"}, 0, 2, false, false), 0, 0, Unpaused("a", 0));
    var e1, e2, e3 := [HashFile("a", 1), HashFile("b", 1), Wait], [LookStop, LookRebuild, Pick("a", 1)],
                      [Pause, Read, PauseOver];
    hide Run, Step;
    QueueTwo(woken, w);
    PickA(woken, picked, w);
    PassPause(picked, past);
    ThreeSteps(Start, woken, e1);
    ThreeSteps(woken, picked, e2);
    ThreeSteps(picked, past, e3);
    RunAppend(Start, woken, e1, e2);
    RunAppend(Start, picked, e1 + e2, e3);
    es := e1 + e2 + e3;
    assert es[|es| - 1] == PauseOver;
  }

  lemma QueueTwo(woken: State, w: map<string, int>)
    requires w == map["a" := 1, "b" := 1] && woken == State(Shared(w, 1, 0, false, false), 0, 0, Woken)
    ensures Step(Start, HashFile("a", 1)).Some? && Step(Step(Start, HashFile("a", 1)).value, HashFile("b", 1)).Some?
    ensures Step(Step(Step(Start, HashFile("a", 1)).value, HashFile("b", 1)).value, Wait) == Some(woken)
  {
    assert map["a" := 1]["b" := 1] == w;
    assert "b" !in map["a" := 1];
  }

  lemma PickA(woken: State, picked: State, w: map<string, int>)
    requires w == map["a" := 1, "b" := 1] && woken == State(Shared(w, 1, 0, false, false), 0, 0, Woken)
    requires picked == State(Shared(w - {"a"}, 1, 0, false, false), 0, 0, Hashing("a", 1))
    ensures Step(woken, LookStop).Some? && Step(Step(woken, LookStop).value, LookRebuild).Some?
    ensures Step(Step(Step(woken, LookStop).value, LookRebuild).value, Pick("a", 1)) == Some(picked)
  {
    assert "a"[1..] == [] && !Less([], []);
    assert IsFirst(w, "a");
  }

  lemma PassPause(picked: State, past: State)
    requires picked.q.tokens == 1 && picked.q.paused == 0 && picked.worker == Hashing("a", 1)
    requires past == picked.(q := picked.q.(tokens := 0, paused := 2), worker := Unpaused("a", 0))
    ensures Step(picked, Pause).Some? && Step(Step(picked, Pause).value, Read).Some?
    ensures Step(Step(Step(picked, Pause).value, Read).value, PauseOver) == Some(past)
  {}

  lemma ThreeSteps(s: State, t: State, es: seq<Event>)
    requires |es| == 3 && Step(s, es[0]).Some? && Step(Step(s, es[0]).value, es[1]).Some?
    requires Step(Step(Step(s, es[0]).value, es[1]).value, es[2]) == Some(t)
    ensures Run(s, es) == Some(t)
  {
    hide Step;
    var s1 := Step(s, es[0]).value;
    var s2 := Step(s1, es[1]).value;
    assert es[1..][1..][1..] == [] && es[1..][0] == es[1] && es[1..][1..][0] == es[2];
    assert Run(t, []) == Some(t);
    assert Run(s2, es[1..][1..]) == Some(t);
    assert Run(s1, es[1..]) == Some(t);
  }

  lemma {:induction false} RunAppend(s: State, t: State, a: seq<Event>, b: seq<Event>)
    requires Run(s, a) == Some(t)
    ensures Run(s, a + b) == Run(t, b)
    decreases |a|
  {
    hide Step;
    if a == [] {
      assert a + b == b;
    } else {
      assert (a + b)[1..] == a[1..] + b;
      RunAppend(Step(s, a[0]).value, t, a[1..], b);
    }
  }

  // ---------- being told to stop ----------

  /** Nothing is done but what the hasher does by itself. */
  predicate AllInternal(es: seq<Event>) {
    forall k :: 0 <= k < |es| ==> Internal(es[k])
  }

  /**
   Wake-ups the worker can count on while paused: tokens, signals owed, and two from each caller that has not looked
   yet.
  */
  function Coming(s: State): nat {
    s.q.tokens + s.owed + 2 * s.asked
  }

  /**
   Waits between the worker and its end, at most, once stopping: one inside a callback, and one at the top of its
   loop.
  */
  function WaitsToEnd(w: Worker): nat {
    match w
    case Ended => 0
    case Woken => 0
    case Waiting => 1
    case Rebuilding => 1
    case Unpaused(_, _) => 1
    case _ => 2
  }

  ghost predicate StoppingPaused(s: State) {
    s.q.stop && s.q.paused > 0 && Coming(s) >= WaitsToEnd(s.worker)
  }

  lemma StoppingStep(s: State, e: Event)
    requires StoppingPaused(s) && Internal(e) && Step(s, e).Some?
    ensures StoppingPaused(Step(s, e).value)
  {}

  lemma {:induction false} StoppingRun(s: State, es: seq<Event>)
    requires StoppingPaused(s) && AllInternal(es) && Run(s, es).Some?
    ensures StoppingPaused(Run(s, es).value)
    decreases |es|
  {
    hide StoppingPaused, Step;
    if es != [] {
      assert Internal(es[0]);
      StoppingStep(s, es[0]);
      StoppingRun(Step(s, es[0]).value, es[1..]);
    }
  }

  lemma StoppingRest(s: State)
    requires StoppingPaused(s) && AtRest(s)
    ensures s.worker == Ended
  {
    assert Step(s, LookPaused).None? && Step(s, Signal).None? && Step(s, Wait).None? && Step(s, PauseOver).None?;
    assert Step(s, LookStop).None? && Step(s, LookRebuild).None? && Step(s, RebuildDone).None?;
    assert Step(s, FileDone).None? && Step(s, Continue).None?;
    if s.worker == Picking { PickingGoesOn(s); }
  }

  lemma StopAsked(s: State)
    requires s.q.paused > 0
    ensures Step(s, AskStop).Some? && StoppingPaused(Step(s, AskStop).value)
  {}

  lemma RunFrom(s: State, e: Event, es: seq<Event>)
    requires Step(s, e).Some?
    ensures Run(s, [e] + es) == Run(Step(s, e).value, es)
  {
    hide Step;
    assert ([e] + es)[1..] == es;
  }

  /**
   Told to stop while paused, wherever its worker is, and left to itself, the hasher comes to rest only with its worker
   ended: shutdown does not wait for ever.
  */
  lemma StopWhilePaused(s: State, es: seq<Event>)
    requires s.q.paused > 0 && AllInternal(es) && Run(s, [AskStop] + es).Some? && AtRest(Run(s, [AskStop] + es).value)
    ensures Run(s, [AskStop] + es).value.worker == Ended
  {
    RunFrom(s, AskStop, es);
    StopAsked(s);
    hide Run, Step, AtRest, StoppingPaused;
    var t := Step(s, AskStop).value;
    StoppingRun(t, es);
    StoppingRest(Run(t, es).value);
  }

  function Picks(es: seq<Event>): nat
    decreases |es|
  {
    if es == [] then 0 else (if es[0].Pick? then 1 else 0) + Picks(es[1..])
  }

  function Reads(es: seq<Event>): nat
    decreases |es|
  {
    if es == [] then 0 else (if es[0].Read? then 1 else 0) + Reads(es[1..])
  }

  /**
   Once told to stop it begins at most the file it was about to pick, and gives up the file being hashed at its next
   callback.
  */
  lemma {:induction false} StopIsSoon(s: State, es: seq<Event>)
    requires s.q.stop && Run(s, es).Some?
    ensures Picks(es) <= if s.worker in {Unstopped, Picking} then 1 else 0
    ensures Reads(es) <= if s.worker in {Unstopped, Picking} || s.worker.Hashing? then 1 else 0
    ensures Run(s, es).value.q.stop
    decreases |es|
  {
    if es != [] { StopIsSoon(Step(s, es[0]).value, es[1..]); }
  }

  // ---------- what becomes of a queued file ----------

  /** No file below baseDir is queued. */
  predicate NoneBelow(w: map<string, int>, baseDir: string) {
    forall k :: k in w ==> !(baseDir <= k)
  }

  /** No file below baseDir is handed in. */
  predicate NoneHanded(es: seq<Event>, baseDir: string) {
    forall i :: 0 <= i < |es| && es[i].HashFile? ==> !(baseDir <= es[i].name)
  }

  lemma {:induction false} NonePicked(s: State, baseDir: string, es: seq<Event>)
    requires NoneBelow(s.q.w, baseDir) && NoneHanded(es, baseDir) && Run(s, es).Some?
    ensures forall i :: 0 <= i < |es| && es[i].Pick? ==> !(baseDir <= es[i].name)
    decreases |es|
  {
    if es != [] {
      var t, rest := Step(s, es[0]).value, es[1..];
      assert NoneHanded(rest, baseDir) && (es[0].HashFile? ==> !(baseDir <= es[0].name));
      NonePicked(t, baseDir, rest);
      assert forall i :: 1 <= i < |es| ==> es[i] == rest[i - 1];
    }
  }

  /** After stopHashing no file below the directory is begun, as long as none is handed in again. */
  lemma StoppedFiles(s: State, baseDir: string, es: seq<Event>)
    requires NoneHanded(es, baseDir) && Run(s, [StopHashing(baseDir)] + es).Some?
    ensures forall i :: 0 <= i < |es| && es[i].Pick? ==> !(baseDir <= es[i].name)
  {
    RunFrom(s, StopHashing(baseDir), es);
    NonePicked(Step(s, StopHashing(baseDir)).value, baseDir, es);
  }

  /** This step takes the file out of the queue. */
  predicate TakesOut(e: Event, name: string) {
    (e.Pick? && e.name == name) || (e.StopHashing? && e.baseDir <= name)
  }

  /** A queued file stays queued, with its size, until it is picked or its directory is stopped. */
  lemma {:induction false} StaysQueued(s: State, name: string, es: seq<Event>)
    requires name in s.q.w && Run(s, es).Some? && forall i :: 0 <= i < |es| ==> !TakesOut(es[i], name)
    ensures name in Run(s, es).value.q.w && Run(s, es).value.q.w[name] == s.q.w[name]
    decreases |es|
  {
    if es != [] {
      assert !TakesOut(es[0], name);
      StaysQueued(Step(s, es[0]).value, name, es[1..]);
    }
  }

  lemma {:induction false} LessOrNot(a: string, b: string)
    ensures a == b || Less(a, b) || Less(b, a)
    decreases |a|
  {
    if a != [] && b != [] && a[0] == b[0] {
      LessOrNot(a[1..], b[1..]);
      if a[1..] == b[1..] { assert a == [a[0]] + a[1..] && b == [b[0]] + b[1..]; }
    }
  }

  predicate NothingHanded(es: seq<Event>) {
    forall i :: 0 <= i < |es| ==> !es[i].HashFile?
  }

  predicate AllAfter(w: map<string, int>, name: string) {
    forall k :: k in w ==> Less(name, k)
  }

  lemma {:induction false} LaterPicks(s: State, name: string, es: seq<Event>)
    requires AllAfter(s.q.w, name) && NothingHanded(es) && Run(s, es).Some?
    ensures forall i :: 0 <= i < |es| && es[i].Pick? ==> Less(name, es[i].name)
    decreases |es|
  {
    if es != [] {
      var t, rest := Step(s, es[0]).value, es[1..];
      assert !es[0].HashFile?;
      StepAfter(s, name, es[0]);
      hide Step, Less;
      assert NothingHanded(rest);
      LaterPicks(t, name, rest);
      assert forall i :: 1 <= i < |es| ==> es[i] == rest[i - 1];
    }
  }

  lemma StepAfter(s: State, name: string, e: Event)
    requires AllAfter(s.q.w, name) && !e.HashFile? && Step(s, e).Some?
    ensures AllAfter(Step(s, e).value.q.w, name) && (e.Pick? ==> Less(name, e.name))
  {
    hide Less;
  }

  /** Files are hashed in the order of their names, as long as none is handed in meanwhile. */
  lemma HashedInOrder(s: State, name: string, callbacks: nat, es: seq<Event>)
    requires NothingHanded(es) && Run(s, [Pick(name, callbacks)] + es).Some?
    ensures forall i :: 0 <= i < |es| && es[i].Pick? ==> Less(name, es[i].name)
  {
    RunFrom(s, Pick(name, callbacks), es);
    var t := Step(s, Pick(name, callbacks)).value;
    forall k | k in t.q.w
      ensures Less(name, k)
    {
      LessOrNot(name, k);
    }
    hide Run, Step, Less;
    LaterPicks(t, name, es);
  }

  // ---------- every wake-up is accounted for ----------

  /**
   Wake-ups a step makes: for a new file, a pause on top of another, a worker about to wait at a callback, a signal
   sent; and by a resume while not paused.
  */
  function Makes(s: State, e: Event): nat {
    match e
    case HashFile(name, _) => if name in s.q.w then 0 else 1
    case Pause => if s.q.paused > 0 then 1 else 0
    case Read => if s.q.paused > 0 then 1 else 0
    case Signal => 1
    case Resume => if s.q.paused > 0 then 0 else UINT_MAX
    case _ => 0
  }

  ghost function Made(s: State, es: seq<Event>): nat
    requires Run(s, es).Some?
    decreases |es|
  {
    if es == [] then 0 else Makes(s, es[0]) + Made(Step(s, es[0]).value, es[1..])
  }

  lemma StepAccounted(s: State, e: Event)
    requires Step(s, e).Some?
    ensures var t := Step(s, e).value;
            t.q.tokens + Deferred(t.q.paused) + (if IsWait(e) then 1 else 0)
            == s.q.tokens + Deferred(s.q.paused) + Makes(s, e)
  {}

  /** Over every run: the wake-ups there are, now or deferred, and those used are those there were and those made. */
  lemma {:induction false} WakeUpsAccounted(s: State, es: seq<Event>)
    requires Run(s, es).Some?
    ensures var t := Run(s, es).value;
            t.q.tokens + Deferred(t.q.paused) + Waits(es) == s.q.tokens + Deferred(s.q.paused) + Made(s, es)
    decreases |es|
  {
    hide Step, Makes;
    if es != [] {
      StepAccounted(s, es[0]);
      WakeUpsAccounted(Step(s, es[0]).value, es[1..]);
    }
  }

  // ---------- rebuild requests ----------

  /** In this run a rebuild is begun, because one is wanted. */
  ghost predicate Begun(s: State, es: seq<Event>) {
    exists k :: 0 <= k < |es| && es[k] == LookRebuild && Run(s, es[..k]).Some?
                && Run(s, es[..k]).value.worker == Unstopped
                && Run(s, es[..k]).value.q.rebuild
  }

  /** A rebuild wanted while none is going on is begun before the flag is cleared. */
  lemma {:induction false} RebuildServed(s: State, es: seq<Event>)
    requires s.q.rebuild && s.worker != Rebuilding && Run(s, es).Some? && !Run(s, es).value.q.rebuild
    ensures Begun(s, es)
    decreases |es|
  {
    RebuildStays(s, es[0]);
    hide Step;
    var t := Step(s, es[0]).value;
    if t.worker == Rebuilding {
      assert es[..0] == [];
      assert Run(s, es[..0]) == Some(s);
    } else {
      var rest := es[1..];
      RebuildServed(t, rest);
      var k :| 0 <= k < |rest| && rest[k] == LookRebuild && Run(t, rest[..k]).Some?
               && Run(t, rest[..k]).value.worker == Unstopped
               && Run(t, rest[..k]).value.q.rebuild;
      assert es[..k + 1][1..] == rest[..k];
      assert Run(s, es[..k + 1]) == Run(t, rest[..k]);
      assert es[k + 1] == LookRebuild;
    }
  }

  /** Only a rebuild that has begun ends the wish for one. */
  lemma RebuildStays(s: State, e: Event)
    requires s.q.rebuild && s.worker != Rebuilding && Step(s, e).Some?
    ensures Step(s, e).value.q.rebuild
    ensures Step(s, e).value.worker == Rebuilding ==> e == LookRebuild && s.worker == Unstopped
  {}

  /** Without a new request, no rebuild is begun when none is wanted. */
  lemma {:induction false} NoRebuild(s: State, es: seq<Event>)
    requires !s.q.rebuild && s.worker != Rebuilding && AskRebuild !in es && Run(s, es).Some?
    ensures Run(s, es).value.worker != Rebuilding && !Run(s, es).value.q.rebuild
    decreases |es|
  {
    if es != [] { NoRebuild(Step(s, es[0]).value, es[1..]); }
  }

  /** Whatever is asked while a rebuild goes on: once it is done, only a further request begins another. */
  lemma {:induction false} RebuildForgotten(s: State, mid: seq<Event>, es: seq<Event>)
    requires s.worker == Rebuilding && RebuildDone !in mid && AskRebuild !in es
             && Run(s, mid + [RebuildDone] + es).Some?
    ensures Run(s, mid + [RebuildDone] + es).value.worker != Rebuilding
    decreases |mid|
  {
    var all := mid + [RebuildDone] + es;
    if mid == [] {
      assert all == [RebuildDone] + es && all[1..] == es;
      NoRebuild(Step(s, RebuildDone).value, es);
    } else {
      assert all[1..] == mid[1..] + [RebuildDone] + es;
      assert mid[0] in mid;
      RebuildForgotten(Step(s, mid[0]).value, mid[1..], es);
    }
  }

  /** With the rebuild under way over and no further request, none has been begun. */
  lemma {:induction false} NotBegun(s: State, es: seq<Event>, k: nat)
    requires s.worker == Rebuilding && AskRebuild !in es && Run(s, es).Some? && k < |es| && es[k] == LookRebuild
             && Run(s, es[..k]).Some?
    ensures !(Run(s, es[..k]).value.worker == Unstopped && Run(s, es[..k]).value.q.rebuild)
    decreases |es|
  {
    if k > 0 {
      var t, rest := Step(s, es[0]).value, es[1..];
      assert es[..k][1..] == rest[..k - 1] && rest[k - 1] == LookRebuild;
      if es[0] == RebuildDone {
        NoRebuild(t, rest[..k - 1]);
      } else {
        NotBegun(t, rest, k - 1);
      }
    }
  }

  /**
   A request for a rebuild, at any time, and any run after it without a further one, at whose end the flag is clear
   again: a rebuild has been begun for it if and only if none was going on when it was made.
  */
  lemma RebuildServedExactly(s: State, es: seq<Event>)
    requires AskRebuild !in es && Run(s, [AskRebuild] + es).Some? && !Run(s, [AskRebuild] + es).value.q.rebuild
    ensures Begun(Step(s, AskRebuild).value, es) <==> s.worker != Rebuilding
  {
    var t := Step(s, AskRebuild).value;
    RunFirst(s, AskRebuild);
    if s.worker != Rebuilding {
      RebuildServed(t, es);
    } else if Begun(t, es) {
      var k :| 0 <= k < |es| && es[k] == LookRebuild && Run(t, es[..k]).Some?
               && Run(t, es[..k]).value.worker == Unstopped
               && Run(t, es[..k]).value.q.rebuild;
      NotBegun(t, es, k);
    }
  }

  // ---------- a rebuild asked for while paused ----------

  /**
   Waits between the worker and the next rebuild, at most, while paused: one at each callback left, and one at the top
   of its loop.
  */
  function WaitsToRebuild(w: Worker): nat {
    match w
    case Waiting => 1
    case Picking => 1
    case Hashing(_, left) => left + 1
    case Unpaused(_, left) => left + 1
    case PauseWait(_, left) => left + 2
    case _ => 0
  }

  /** There are wake-ups enough for the worker to come to a rebuild without a resume. */
  ghost predicate Enough(s: State) {
    && s.worker != Rebuilding && s.worker != Ended && !(s.worker == Picking && s.q.w != map[])
    && Coming(s) >= WaitsToRebuild(s.worker)
  }

  ghost predicate WantedPaused(s: State) {
    s.q.rebuild && !s.q.stop && s.q.paused > 0
  }

  lemma EnoughStep(s: State, e: Event)
    requires WantedPaused(s) && Enough(s) && Internal(e) && Step(s, e).Some?
    requires !(e == LookRebuild && s.worker == Unstopped)
    ensures WantedPaused(Step(s, e).value) && Enough(Step(s, e).value)
  {}

  lemma NoRestYet(s: State)
    requires WantedPaused(s) && Enough(s)
    ensures !AtRest(s)
  {
    var e := if s.asked > 0 then LookPaused else if s.owed > 0 then Signal else
      match s.worker
      case Waiting => Wait
      case Woken => LookStop
      case Unstopped => LookRebuild
      case Picking => PickNone
      case Hashing(_, _) => FileDone
      case PauseWait(_, _) => PauseOver
      case _ => Continue;
    assert Internal(e) && Step(s, e).Some?;
  }

  lemma {:induction false} EnoughBegins(s: State, es: seq<Event>)
    requires WantedPaused(s) && Enough(s) && AllInternal(es) && Run(s, es).Some? && AtRest(Run(s, es).value)
    ensures Begun(s, es)
    decreases |es|
  {
    hide WantedPaused, Enough, AtRest, Step;
    NoRestYet(s);
    assert es != [] && Internal(es[0]);
    if es[0] == LookRebuild && s.worker == Unstopped {
      WantedIs(s);
      assert es[..0] == [];
      assert Run(s, es[..0]) == Some(s);
    } else {
      EnoughStep(s, es[0]);
      EnoughBegins(Step(s, es[0]).value, es[1..]);
      BegunLater(s, es);
    }
  }

  lemma WantedIs(s: State)
    requires WantedPaused(s)
    ensures s.q.rebuild
  {}

  lemma BegunLater(s: State, es: seq<Event>)
    requires es != [] && Step(s, es[0]).Some? && Begun(Step(s, es[0]).value, es[1..])
    ensures Begun(s, es)
  {
    hide Step;
    var t, rest := Step(s, es[0]).value, es[1..];
    var k :| 0 <= k < |rest| && rest[k] == LookRebuild && Run(t, rest[..k]).Some?
             && Run(t, rest[..k]).value.worker == Unstopped
             && Run(t, rest[..k]).value.q.rebuild;
    assert es[..k + 1][1..] == rest[..k];
    assert Run(s, es[..k + 1]) == Run(t, rest[..k]);
    assert es[k + 1] == LookRebuild;
  }

  /** A first step that is not a look at the flag begins nothing. */
  lemma NotBegunFirst(s: State, e: Event, es: seq<Event>)
    requires Step(s, e).Some? && e != LookRebuild && Begun(s, [e] + es)
    ensures Begun(Step(s, e).value, es)
  {
    hide Step;
    var all, t := [e] + es, Step(s, e).value;
    var k :| 0 <= k < |all| && all[k] == LookRebuild && Run(s, all[..k]).Some?
             && Run(s, all[..k]).value.worker == Unstopped
             && Run(s, all[..k]).value.q.rebuild;
    assert all[0] == e && k > 0;
    assert all[..k][1..] == es[..k - 1];
    assert Run(s, all[..k]) == Run(t, es[..k - 1]);
    assert es[k - 1] == LookRebuild;
  }

  /** A step that leads on, without wake-ups enough, and not to a rebuild. */
  lemma StuckStep(s: State) returns (e: Event)
    requires WantedPaused(s) && !Enough(s) && s.worker != Rebuilding && s.worker != Ended && !AtRest(s)
    ensures Internal(e) && e != LookRebuild && Step(s, e).Some? && Step(s, e).value.worker != Rebuilding
    ensures Step(s, e).value.worker != Ended && WantedPaused(Step(s, e).value) && !Enough(Step(s, e).value)
  {
    hide AtRest;
    if s.asked > 0 { return LookPaused; }
    if s.owed > 0 { return Signal; }
    match s.worker {
      case Hashing(_, left) => e := if left == 0 then FileDone else Read;
      case Unpaused(_, _) => e := Continue;
      case PauseWait(_, _) =>
        e := PauseOver;
        if s.q.tokens == 0 { HeldRest(s); }
      case Picking =>
        if s.q.w == map[] {
          e := PickNone;
        } else {
          var name := FirstFile(s.q.w);
          e := Pick(name, s.q.tokens);
        }
      case Waiting =>
        HeldRest(s);
        assert false;
      case _ => assert false;
    }
  }

  lemma HeldRest(s: State)
    requires s.asked == 0 && s.owed == 0 && s.q.tokens == 0 && (s.worker.PauseWait? || s.worker == Waiting)
    ensures AtRest(s)
  {}

  /** Without wake-ups enough there is a run to rest in which no rebuild is begun. */
  lemma {:induction false} StuckRun(s: State) returns (es: seq<Event>)
    requires WantedPaused(s) && !Enough(s) && s.worker != Rebuilding && s.worker != Ended
    ensures AllInternal(es) && Run(s, es).Some? && AtRest(Run(s, es).value) && !Begun(s, es)
    decreases s.asked, s.owed, s.q.tokens, Rank(s.worker), Callbacks(s.worker)
  {
    if AtRest(s) {
      es := [];
    } else {
      var e := StuckStep(s);
      InternalStepsEnd(s, e);
      var t := Step(s, e).value;
      var rest := StuckRun(t);
      hide Step, AtRest, WantedPaused, Enough;
      es := [e] + rest;
      RunFrom(s, e, rest);
      if Begun(s, es) { NotBegunFirst(s, e, rest); }
    }
  }

  /** Every run of its own to rest begins a rebuild. */
  ghost predicate AlwaysBegins(s: State) {
    forall es :: AllInternal(es) && Run(s, es).Some? && AtRest(Run(s, es).value) ==> Begun(s, es)
  }

  /**
   A rebuild asked for while paused, with nobody telling the hasher to stop: left to itself, and still paused, it comes
   to that rebuild whatever it does if and only if there are wake-ups enough, counting the two of the request: one for
   each callback left of the file being hashed, one more if it waits at a callback, and one for the top of its loop.
  */
  lemma RebuildWhilePaused(s: State)
    requires s.q.paused > 0 && !s.q.stop && s.worker != Ended
    ensures AlwaysBegins(Step(s, AskRebuild).value) <==>
            && s.worker != Rebuilding && !(s.worker == Picking && s.q.w != map[])
            && s.q.tokens + s.owed + 2 * (s.asked + 1) >= WaitsToRebuild(s.worker)
  {
    var t := Step(s, AskRebuild).value;
    if Enough(t) {
      forall es | AllInternal(es) && Run(t, es).Some? && AtRest(Run(t, es).value)
        ensures Begun(t, es)
      {
        EnoughBegins(t, es);
      }
    } else if s.worker != Rebuilding {
      var es := StuckRun(t);
    } else {
      var es := RestReached(t);
      NeverBegun(t, es);
    }
  }

  /** There is a run to rest from every state. */
  lemma {:induction false} RestReached(s: State) returns (es: seq<Event>)
    ensures AllInternal(es) && Run(s, es).Some? && AtRest(Run(s, es).value)
    decreases s.asked, s.owed, s.q.tokens, Rank(s.worker), Callbacks(s.worker)
  {
    if AtRest(s) {
      es := [];
    } else {
      var e :| Internal(e) && Step(s, e).Some?;
      InternalStepsEnd(s, e);
      var rest := RestReached(Step(s, e).value);
      hide Step, AtRest;
      es := [e] + rest;
      RunFrom(s, e, rest);
    }
  }

  lemma NeverBegun(s: State, es: seq<Event>)
    requires s.worker == Rebuilding && AllInternal(es) && Run(s, es).Some?
    ensures !Begun(s, es)
  {
    hide Run, Step;
    assert AskRebuild !in es;
    if Begun(s, es) {
      var k :| 0 <= k < |es| && es[k] == LookRebuild && Run(s, es[..k]).Some?
               && Run(s, es[..k]).value.worker == Unstopped
               && Run(s, es[..k]).value.q.rebuild;
      NotBegun(s, es, k);
    }
  }

  /**
   A run from the start: a file with three callbacks left, and both wake-ups of the request are used up at two of
   them, and the third holds the worker.
  */
  lemma RebuildNotPaused() returns (before: seq<Event>, s: State, es: seq<Event>)
    ensures Run(Start, before) == Some(s) && s.q.paused > 0 && s.worker == Hashing("a", 3) && AllInternal(es)
    ensures var t := Step(s, AskRebuild).value;
            Run(t, es).Some? && AtRest(Run(t, es).value) && !Begun(t, es) && Run(t, es).value.worker.PauseWait?
  {
    before := [HashFile("a", 1), Wait, LookStop] + [LookRebuild, Pick("a", 3), Pause];
    s := State(Shared(map[], 0, 1, false, false), 0, 0, Hashing("a", 3));
    ThirdPicked(before, s);
    var t0 := Step(s, AskRebuild).value;
    var t1 := State(Shared(map[], 2, 1, false, true), 0, 0, Hashing("a", 3));
    var t2 := State(Shared(map[], 1, 2, false, true), 0, 0, Hashing("a", 2));
    var t3 := State(Shared(map[], 0, 3, false, true), 0, 0, Hashing("a", 1));
    var t4 := State(Shared(map[], 0, 4, false, true), 0, 0, PauseWait("a", 0));
    var e1, e2 := [LookPaused, Signal, Signal], [Read, PauseOver, Continue];
    SignalsSent(t0, t1, e1);
    PastCallback(t1, t2, e2);
    PastCallback(t2, t3, e2);
    HeldAtLast(t3, t4);
    hide *;
    RunAppend(t0, t1, e1, e2);
    RunAppend(t0, t2, e1 + e2, e2);
    RunAppend(t0, t3, e1 + e2 + e2, [Read]);
    es := e1 + e2 + e2 + [Read];
    NoLookAtAll(t0, es);
    OwnSteps(es);
  }

  lemma ThirdPicked(before: seq<Event>, s: State)
    requires before == [HashFile("a", 1), Wait, LookStop] + [LookRebuild, Pick("a", 3), Pause]
    requires s == State(Shared(map[], 0, 1, false, false), 0, 0, Hashing("a", 3))
    ensures Run(Start, before) == Some(s)
  {
    var mid := State(Shared(map["a" := 1], 0, 0, false, false), 0, 0, Unstopped);
    var e1, e2 := [HashFile("a", 1), Wait, LookStop], [LookRebuild, Pick("a", 3), Pause];
    hide Step, Run;
    OneQueued(mid);
    OnePicked(mid, s);
    ThreeSteps(Start, mid, e1);
    ThreeSteps(mid, s, e2);
    RunAppend(Start, mid, e1, e2);
  }

  lemma OneQueued(mid: State)
    requires mid == State(Shared(map["a" := 1], 0, 0, false, false), 0, 0, Unstopped)
    ensures Step(Start, HashFile("a", 1)).Some? && Step(Step(Start, HashFile("a", 1)).value, Wait).Some?
    ensures Step(Step(Step(Start, HashFile("a", 1)).value, Wait).value, LookStop) == Some(mid)
  {
    var none: map<string, int> := map[];
    assert "a" !in none && none["a" := 1] == map["a" := 1];
  }

  lemma OnePicked(mid: State, s: State)
    requires mid == State(Shared(map["a" := 1], 0, 0, false, false), 0, 0, Unstopped)
    requires s == State(Shared(map[], 0, 1, false, false), 0, 0, Hashing("a", 3))
    ensures Step(mid, LookRebuild).Some? && Step(Step(mid, LookRebuild).value, Pick("a", 3)).Some?
    ensures Step(Step(Step(mid, LookRebuild).value, Pick("a", 3)).value, Pause) == Some(s)
  {
    OnlyFile(mid.q.w);
    assert mid.q.w - {"a"} == map[];
    hide IsFirst;
  }

  lemma OnlyFile(w: map<string, int>)
    requires w == map["a" := 1]
    ensures IsFirst(w, "a")
  {
    LessNotSelf("a");
  }

  lemma SignalsSent(s: State, t: State, es: seq<Event>)
    requires s == State(Shared(map[], 0, 1, false, true), 1, 0, Hashing("a", 3)) && es == [LookPaused, Signal, Signal]
    requires t == State(Shared(map[], 2, 1, false, true), 0, 0, Hashing("a", 3))
    ensures Run(s, es) == Some(t)
  {
    ThreeSteps(s, t, es);
  }

  lemma PastCallback(s: State, t: State, es: seq<Event>)
    requires s.worker.Hashing? && s.worker.left > 0 && s.q.paused > 0 && s.q.tokens > 0 && !s.q.stop
    requires es == [Read, PauseOver, Continue]
    requires t == s.(q := s.q.(tokens := s.q.tokens - 1, paused := s.q.paused + 1),
                     worker := Hashing(s.worker.file, s.worker.left - 1))
    ensures Run(s, es) == Some(t)
  {
    ThreeSteps(s, t, es);
  }

  lemma HeldAtLast(s: State, t: State)
    requires s == State(Shared(map[], 0, 3, false, true), 0, 0, Hashing("a", 1))
    requires t == State(Shared(map[], 0, 4, false, true), 0, 0, PauseWait("a", 0))
    ensures Run(s, [Read]) == Some(t) && AtRest(t)
  {
    RunFrom(s, Read, []);
    assert [Read] + [] == [Read] && Run(t, []) == Some(t);
    HeldRest(t);
  }

  lemma OwnSteps(es: seq<Event>)
    requires es == [LookPaused, Signal, Signal] + [Read, PauseOver, Continue] + [Read, PauseOver, Continue] + [Read]
    ensures AllInternal(es)
  {}

  lemma NoLookAtAll(s: State, es: seq<Event>)
    requires LookRebuild !in es
    ensures !Begun(s, es)
  {}

  /**
   A run in which it happens: the second request comes while the first rebuild goes on; the flag is clear and the
   worker idle at its end.
  */
  lemma ForgottenRun() returns (before: seq<Event>, after: seq<Event>, at: State)
    ensures Run(Start, before) == Some(at) && at.worker == Rebuilding && AskRebuild !in after
    ensures var end := Run(at, [AskRebuild] + after);
            end.Some? && !end.value.q.rebuild && end.value.worker == Waiting
            && !Begun(Step(at, AskRebuild).value, after)
  {
    before := [AskRebuild, LookPaused, Signal, Wait, LookStop, LookRebuild];
    after := [LookPaused, Signal, RebuildDone];
    at := State(Shared(map[], 0, 0, false, true), 0, 0, Rebuilding);
    var mid := State(Shared(map[], 1, 0, false, true), 0, 0, Waiting);
    var end := State(Shared(map[], 1, 0, false, false), 0, 0, Waiting);
    ThreeSteps(Start, mid, [AskRebuild, LookPaused, Signal]);
    ThreeSteps(mid, at, [Wait, LookStop, LookRebuild]);
    RunAppend(Start, mid, [AskRebuild, LookPaused, Signal], [Wait, LookStop, LookRebuild]);
    assert before == [AskRebuild, LookPaused, Signal] + [Wait, LookStop, LookRebuild];
    RunFirst(at, AskRebuild);
    ThreeSteps(Step(at, AskRebuild).value, end, after);
    RebuildServedExactly(at, after);
  }
}
