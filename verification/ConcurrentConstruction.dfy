/**
 * Any number of threads inside the main constructor at once. Here one step is one native call of one
 * thread, or its passage through the once flag, and the threads interleave in every possible way.
 */
module ConcurrentConstruction {
  import opened Results
  import opened Native
  import opened NativeLog
  import opened CipherList
  import opened SslWorld

  type Thread = nat

  datatype Once = NotCalled | Running(runner: Thread) | Called

  /** Where a thread is in the constructor. */
  datatype Phase =
    | AtOnce
    | Initialising
    | Allocating
    | SettingVersion(ctx: Handle)
    | AskingManager(ctx: Handle)
    | SettingCiphers(ctx: Handle)
    | Raising(error: SslError)
    | Done(result: Result<Holder, SslError>)

  datatype Task = Task(code: int, names: seq<string>, phase: Phase)

  datatype State = State(once: Once, lib: Lib, tasks: map<Thread, Task>)

  const IDLE := State(NotCalled, EMPTY_LIB, map[])

  /** A thread calls the constructor, or goes on in it; `answer` is what the environment says if asked. */
  datatype Move =
    | Begin(t: Thread, code: int, names: seq<string>)
    | Advance(t: Thread, answer: bool)

  /** A thread waits at the once flag only while another one runs the initialisation. */
  predicate Ready(s: State, t: Thread) {
    t in s.tasks && !s.tasks[t].phase.Done? && !(s.tasks[t].phase.AtOnce? && s.once.Running?)
  }

  predicate Possible(s: State, move: Move) {
    match move
    case Begin(t, _, _) => t !in s.tasks
    case Advance(t, _) => Ready(s, t)
  }

  function GoOn(s: State, t: Thread, lib: Lib, phase: Phase): State
    requires t in s.tasks
  {
    s.(lib := lib, tasks := s.tasks[t := s.tasks[t].(phase := phase)])
  }

  function Next(s: State, move: Move): State
    requires Possible(s, move)
  {
    match move
    case Begin(t, code, names) => s.(tasks := s.tasks[t := Task(code, names, AtOnce)])
    case Advance(t, answer) =>
      var task := s.tasks[t];
      match task.phase
      case AtOnce =>
        if s.once == Called then GoOn(s, t, s.lib, Allocating)
        else GoOn(s, t, s.lib, Initialising).(once := Running(t))
      case Initialising => GoOn(s, t, Logged(s.lib, Init), Allocating).(once := Called)
      case Allocating =>
        (match Version(task.code)
         case None => GoOn(s, t, s.lib, Done(Err(UnsupportedVersion(task.code))))
         case Some(version) =>
           GoOn(s, t, New(s.lib, version, answer),
                if answer then SettingVersion(s.lib.next) else Raising(AllocationFailed)))
      case SettingVersion(h) =>
        GoOn(s, t, if Version(task.code).Some? then WithMinVersion(s.lib, h, Version(task.code).value) else s.lib,
             AskingManager(h))
      case AskingManager(h) => GoOn(s, t, Logged(s.lib, GetCertManager(Some(h))), SettingCiphers(h))
      case SettingCiphers(h) =>
        GoOn(s, t, WithCipherList(s.lib, h, Installed(task.names), answer),
             if answer then Done(Ok(Holder(Some(h), ManagerFor(Some(h))))) else Raising(CipherListRejected))
      case Raising(error) => GoOn(s, t, Logged(s.lib, ErrorString), Done(Err(error)))
  }

  predicate Schedule(s: State, moves: seq<Move>)
    decreases |moves|
  {
    moves == [] || (Possible(s, moves[0]) && Schedule(Next(s, moves[0]), moves[1..]))
  }

  function Interleave(s: State, moves: seq<Move>): State
    requires Schedule(s, moves)
    decreases |moves|
  {
    if moves == [] then s else Interleave(Next(s, moves[0]), moves[1..])
  }

  // ---- the invariant ----

  /** The context a thread works on or has obtained. */
  function Mine(phase: Phase): Option<Handle> {
    match phase
    case SettingVersion(h) => Some(h)
    case AskingManager(h) => Some(h)
    case SettingCiphers(h) => Some(h)
    case Done(Ok(holder)) => holder.ctx
    case _ => None
  }

  /** The settings that context has by then. */
  ghost predicate Progress(lib: Lib, task: Task) {
    match Mine(task.phase)
    case None => true
    case Some(h) =>
      && h in lib.live && Version(task.code).Some?
      && var version := Version(task.code).value;
      && lib.live[h].family == version
      && (!task.phase.SettingVersion? ==> lib.live[h].minVersion == Some(version))
      && (!task.phase.Done? ==> lib.live[h].ciphers == None)
      && (task.phase.Done? ==> lib.live[h] == Context(version, Some(version), Some(Installed(task.names)))
                               && task.phase.result == Ok(Holder(Some(h), Some(ManagerOf(h)))))
  }

  ghost predicate Separate(tasks: map<Thread, Task>) {
    forall t, u :: t in tasks && u in tasks && t != u && Mine(tasks[t].phase).Some? ==>
                     Mine(tasks[t].phase) != Mine(tasks[u].phase)
  }

  /** A result is a context, or an error. */
  predicate Honest(task: Task) {
    match task.phase
    case Done(Ok(holder)) => holder.ctx.Some?
    case _ => true
  }

  ghost predicate Inv(s: State) {
    && (s.once == Called ==> Good(s.lib))
    && (s.once != Called ==> s.lib == EMPTY_LIB)
    && (forall t :: t in s.tasks ==> (s.tasks[t].phase.Initialising? <==> s.once == Running(t)))
    && (s.once.Running? ==> s.once.runner in s.tasks)
    && (forall t :: t in s.tasks && s.once != Called ==> s.tasks[t].phase.AtOnce? || s.tasks[t].phase.Initialising?)
    && (forall t :: t in s.tasks ==> Progress(s.lib, s.tasks[t]) && Honest(s.tasks[t]))
    && Separate(s.tasks)
  }

  /** A call that leaves the contexts of the other threads alone leaves their progress alone. */
  lemma OthersKeep(s: State, t: Thread, lib: Lib, phase: Phase)
    requires Inv(s) && s.once == Called && t in s.tasks && Good(lib)
    requires forall h :: h in s.lib.live && Some(h) != Mine(s.tasks[t].phase) ==>
                           h in lib.live && lib.live[h] == s.lib.live[h]
    requires Mine(phase) == None || Mine(phase) == Mine(s.tasks[t].phase) || Mine(phase).value !in s.lib.live
    requires !phase.Initialising? && Progress(lib, s.tasks[t].(phase := phase)) && Honest(s.tasks[t].(phase := phase))
    ensures Inv(GoOn(s, t, lib, phase))
  {
  }

  lemma InitialiseKeeps(s: State, t: Thread)
    requires Inv(s) && t in s.tasks && s.tasks[t].phase.Initialising?
    ensures Inv(GoOn(s, t, Logged(s.lib, Init), Allocating).(once := Called))
  {
    InitGood();
    var after := GoOn(s, t, Logged(s.lib, Init), Allocating).(once := Called);
    forall u | u in after.tasks
      ensures Mine(after.tasks[u].phase) == None && Progress(after.lib, after.tasks[u]) && Honest(after.tasks[u])
    {
    }
  }

  lemma AllocateKeeps(s: State, t: Thread, answer: bool)
    requires Inv(s) && t in s.tasks && s.tasks[t].phase.Allocating?
    ensures Inv(Next(s, Advance(t, answer)))
  {
    var task := s.tasks[t];
    if Version(task.code) == None {
      OthersKeep(s, t, s.lib, Done(Err(UnsupportedVersion(task.code))));
    } else {
      NewGood(s.lib, Version(task.code).value, answer);
      OthersKeep(s, t, New(s.lib, Version(task.code).value, answer),
                 if answer then SettingVersion(s.lib.next) else Raising(AllocationFailed));
    }
  }

  lemma SetVersionKeeps(s: State, t: Thread, answer: bool)
    requires Inv(s) && t in s.tasks && s.tasks[t].phase.SettingVersion?
    ensures Inv(Next(s, Advance(t, answer)))
  {
    var h := s.tasks[t].phase.ctx;
    assert Progress(s.lib, s.tasks[t]);
    var version := Version(s.tasks[t].code).value;
    SettingGood(s.lib, h, version, "", true);
    OthersKeep(s, t, WithMinVersion(s.lib, h, version), AskingManager(h));
  }

  lemma AskManagerKeeps(s: State, t: Thread, answer: bool)
    requires Inv(s) && t in s.tasks && s.tasks[t].phase.AskingManager?
    ensures Inv(Next(s, Advance(t, answer)))
  {
    var h := s.tasks[t].phase.ctx;
    assert Progress(s.lib, s.tasks[t]);
    LoggedGood(s.lib, GetCertManager(Some(h)));
    OthersKeep(s, t, Logged(s.lib, GetCertManager(Some(h))), SettingCiphers(h));
  }

  lemma SetCiphersKeeps(s: State, t: Thread, answer: bool)
    requires Inv(s) && t in s.tasks && s.tasks[t].phase.SettingCiphers?
    ensures Inv(Next(s, Advance(t, answer)))
  {
    var task := s.tasks[t];
    var h := task.phase.ctx;
    assert Progress(s.lib, task);
    var lib := WithCipherList(s.lib, h, Installed(task.names), answer);
    assert Good(lib) by { SettingGood(s.lib, h, Tls13, Installed(task.names), answer); }
    if answer {
      OthersKeep(s, t, lib, Done(Ok(Holder(Some(h), ManagerFor(Some(h))))));
    } else {
      OthersKeep(s, t, lib, Raising(CipherListRejected));
    }
  }

  lemma RaiseKeeps(s: State, t: Thread, answer: bool)
    requires Inv(s) && t in s.tasks && s.tasks[t].phase.Raising?
    ensures Inv(Next(s, Advance(t, answer)))
  {
    LoggedGood(s.lib, ErrorString);
    OthersKeep(s, t, Logged(s.lib, ErrorString), Done(Err(s.tasks[t].phase.error)));
  }

  lemma EnterKeeps(s: State, t: Thread, answer: bool)
    requires Inv(s) && Ready(s, t) && s.tasks[t].phase.AtOnce?
    ensures Inv(Next(s, Advance(t, answer)))
  {
    if s.once == Called {
      OthersKeep(s, t, s.lib, Allocating);
    }
  }

  lemma AdvanceKeeps(s: State, t: Thread, answer: bool)
    requires Inv(s) && Ready(s, t)
    ensures Inv(Next(s, Advance(t, answer)))
  {
    match s.tasks[t].phase
    case AtOnce => EnterKeeps(s, t, answer);
    case Initialising => InitialiseKeeps(s, t);
    case Allocating => AllocateKeeps(s, t, answer);
    case SettingVersion(_) => SetVersionKeeps(s, t, answer);
    case AskingManager(_) => AskManagerKeeps(s, t, answer);
    case SettingCiphers(_) => SetCiphersKeeps(s, t, answer);
    case Raising(_) => RaiseKeeps(s, t, answer);
  }

  lemma {:induction false} InterleaveKeeps(s: State, moves: seq<Move>)
    requires Inv(s) && Schedule(s, moves)
    ensures Inv(Interleave(s, moves))
    decreases |moves|
  {
    if moves != [] {
      if moves[0].Advance? {
        AdvanceKeeps(s, moves[0].t, moves[0].answer);
      }
      InterleaveKeeps(Next(s, moves[0]), moves[1..]);
    }
  }

  // ---- schedules ----

  /** A schedule of two parts goes on from where the first part ends; a single move is one if it is possible. */
  lemma {:induction false} ScheduleConcat(s: State, a: seq<Move>, b: seq<Move>)
    ensures Schedule(s, a + b) <==> Schedule(s, a) && Schedule(Interleave(s, a), b)
    ensures Schedule(s, a + b) ==> Interleave(s, a + b) == Interleave(Interleave(s, a), b)
    decreases |a|
  {
    if a == [] {
      assert a + b == b;
    } else {
      assert (a + b)[1..] == a[1..] + b;
      if Possible(s, a[0]) {
        ScheduleConcat(Next(s, a[0]), a[1..], b);
      }
    }
  }

  /** A thread constructs what it was begun with, for as long as the schedule goes on. */
  lemma {:induction false} ConstructsWhatItBegan(s: State, moves: seq<Move>, t: Thread, code: int, names: seq<string>)
    requires Schedule(s, moves)
    requires Begin(t, code, names) in moves || (t in s.tasks && s.tasks[t].code == code && s.tasks[t].names == names)
    ensures var after := Interleave(s, moves).tasks; t in after && after[t].code == code && after[t].names == names
    decreases |moves|
  {
    if moves != [] {
      ConstructsWhatItBegan(Next(s, moves[0]), moves[1..], t, code, names);
    }
  }

  // ---- every interleaving ----

  /** However the threads interleave: the library is initialised before any other call and only once, and
      every call is made on a live context. */
  lemma InitialisedOnce(moves: seq<Move>)
    requires Schedule(IDLE, moves)
    ensures var log := Interleave(IDLE, moves).lib.log;
            (log == [] || InitialisedFirst(log)) && Disciplined(log)
  {
    InterleaveKeeps(IDLE, moves);
  }

  /** Constructions do not disturb each other: a thread that obtains an object holds a live context of its
      own, with the version and the ciphers that it asked for. */
  lemma ConstructionsAreSeparate(moves: seq<Move>, t: Thread)
    requires Schedule(IDLE, moves)
    requires var s := Interleave(IDLE, moves); t in s.tasks && s.tasks[t].phase.Done? && s.tasks[t].phase.result.Ok?
    ensures var s := Interleave(IDLE, moves);
            var holder := s.tasks[t].phase.result.value;
            && holder.ctx.Some? && holder.cm == ManagerFor(holder.ctx)
            && holder.ctx.value in s.lib.live && Version(s.tasks[t].code).Some?
            && s.lib.live[holder.ctx.value]
               == Context(Version(s.tasks[t].code).value, Version(s.tasks[t].code), Some(Installed(s.tasks[t].names)))
            && forall u :: u in s.tasks && u != t && s.tasks[u].phase.Done? && s.tasks[u].phase.result.Ok? ==>
                             s.tasks[u].phase.result.value.ctx != holder.ctx
  {
    InterleaveKeeps(IDLE, moves);
    var s := Interleave(IDLE, moves);
    assert Progress(s.lib, s.tasks[t]) && Honest(s.tasks[t]);
    forall u | u in s.tasks && u != t && s.tasks[u].phase.Done? && s.tasks[u].phase.result.Ok?
      ensures s.tasks[u].phase.result.value.ctx != s.tasks[t].phase.result.value.ctx
    {
      assert Honest(s.tasks[u]);
      assert Mine(s.tasks[t].phase) != Mine(s.tasks[u].phase);
    }
  }

  /** No deadlock: as long as some thread is not done, some thread can go on. */
  lemma SomeThreadIsReady(moves: seq<Move>, t: Thread)
    requires Schedule(IDLE, moves)
    requires var s := Interleave(IDLE, moves); t in s.tasks && !s.tasks[t].phase.Done?
    ensures exists u :: Ready(Interleave(IDLE, moves), u)
  {
    InterleaveKeeps(IDLE, moves);
    var s := Interleave(IDLE, moves);
    assert Ready(s, if s.once.Running? then s.once.runner else t);
  }

  /** The once flag is all that threads wait for: a thread that is not done can go on, whatever the answer and
      whatever the others do, unless it has yet to pass the flag and another one is initialising. */
  lemma WaitsOnlyForInitialisation(moves: seq<Move>, t: Thread, answer: bool)
    requires Schedule(IDLE, moves)
    requires var s := Interleave(IDLE, moves); t in s.tasks && !s.tasks[t].phase.Done?
    ensures var s := Interleave(IDLE, moves);
            Possible(s, Advance(t, answer)) <==>
            !s.tasks[t].phase.AtOnce? || forall u :: u in s.tasks && u != t ==> !s.tasks[u].phase.Initialising?
  {
    InterleaveKeeps(IDLE, moves);
    var s := Interleave(IDLE, moves);
    if s.once.Running? {
      assert s.tasks[s.once.runner].phase.Initialising?;
    }
  }

  // ---- one thread alone ----

  function Remaining(phase: Phase): nat {
    match phase
    case AtOnce => 7
    case Initialising => 6
    case Allocating => 5
    case SettingVersion(_) => 4
    case AskingManager(_) => 3
    case SettingCiphers(_) => 2
    case Raising(_) => 1
    case Done(_) => 0
  }

  /** A thread that can go on gets done in at most seven steps of its own, whatever the environment answers, and
      touches no other thread. */
  lemma {:induction false} FinishOne(s: State, t: Thread, granted: bool, accepted: bool) returns (moves: seq<Move>)
    requires Ready(s, t)
    ensures Schedule(s, moves) && |moves| <= Remaining(s.tasks[t].phase) <= 7
    ensures forall move <- moves :: move.Advance? && move.t == t
    ensures var after := Interleave(s, moves).tasks;
            && t in after && after[t].phase.Done? && after.Keys == s.tasks.Keys
            && forall u :: u in s.tasks && u != t ==> after[u] == s.tasks[u]
    decreases Remaining(s.tasks[t].phase)
  {
    var move := Advance(t, if s.tasks[t].phase.Allocating? then granted else accepted);
    var s1 := Next(s, move);
    if s1.tasks[t].phase.Done? {
      moves := [move];
      assert moves[1..] == [];
    } else {
      var later := FinishOne(s1, t, granted, accepted);
      moves := [move] + later;
      assert moves[1..] == later;
    }
  }

  /** The threads that are not done. */
  function Unfinished(s: State): set<Thread> {
    set t | t in s.tasks && !s.tasks[t].phase.Done?
  }

  /** Every schedule can be completed: from wherever the threads have got to, all of them can still get done, in at
      most seven steps each. */
  lemma {:induction false} EveryScheduleCanFinish(moves: seq<Move>, granted: bool, accepted: bool)
    returns (more: seq<Move>)
    requires Schedule(IDLE, moves)
    ensures Schedule(IDLE, moves + more)
    ensures |more| <= 7 * |Unfinished(Interleave(IDLE, moves))|
    ensures var after := Interleave(IDLE, moves + more).tasks;
            after.Keys == Interleave(IDLE, moves).tasks.Keys && forall t :: t in after ==> after[t].phase.Done?
    decreases |Unfinished(Interleave(IDLE, moves))|
  {
    var s := Interleave(IDLE, moves);
    if t :| t in s.tasks && !s.tasks[t].phase.Done? {
      SomeThreadIsReady(moves, t);
      var u :| Ready(s, u);
      var first := FinishOne(s, u, granted, accepted);
      ScheduleConcat(IDLE, moves, first);
      assert Unfinished(Interleave(IDLE, moves + first)) == Unfinished(s) - {u};
      var later := EveryScheduleCanFinish(moves + first, granted, accepted);
      more := first + later;
      assert moves + more == moves + first + later;
    } else {
      more := [];
      assert moves + more == moves;
    }
  }

  /** The thread goes on until it is done, with nobody in between. */
  function Alone(s: State, t: Thread, granted: bool, accepted: bool): State
    requires t in s.tasks && (s.once.Running? ==> !s.tasks[t].phase.AtOnce?)
    decreases if t in s.tasks then Remaining(s.tasks[t].phase) else 0
  {
    if s.tasks[t].phase.Done? then s
    else Alone(Next(s, Advance(t, if s.tasks[t].phase.Allocating? then granted else accepted)), t, granted, accepted)
  }

  lemma AloneFromVersion(s: State, t: Thread, granted: bool, accepted: bool)
    requires t in s.tasks && s.tasks[t].phase.SettingVersion? && Version(s.tasks[t].code).Some?
    ensures var task, h := s.tasks[t], s.tasks[t].phase.ctx;
            var lib := Configured(s.lib, h, Version(task.code).value, task.names, accepted);
            Alone(s, t, granted, accepted) ==
            GoOn(s, t, if accepted then lib else Logged(lib, ErrorString),
                 Done(if accepted then Ok(Holder(Some(h), Some(ManagerOf(h)))) else Err(CipherListRejected)))
  {
    var s1 := Next(s, Advance(t, accepted));
    var s2 := Next(s1, Advance(t, accepted));
    var s3 := Next(s2, Advance(t, accepted));
    assert Alone(s, t, granted, accepted) == Alone(s1, t, granted, accepted);
    assert Alone(s1, t, granted, accepted) == Alone(s2, t, granted, accepted);
    assert Alone(s2, t, granted, accepted) == Alone(s3, t, granted, accepted);
    if !accepted {
      var s4 := Next(s3, Advance(t, accepted));
      assert Alone(s3, t, granted, accepted) == Alone(s4, t, granted, accepted);
    }
  }

  lemma AloneFromAllocation(s: State, t: Thread, granted: bool, accepted: bool)
    requires t in s.tasks && s.tasks[t].phase.Allocating?
    ensures var task := s.tasks[t];
            Alone(s, t, granted, accepted) ==
            GoOn(s, t, Constructed(s.lib, task.code, task.names, granted, accepted),
                 Done(Outcome(s.lib, task.code, granted, accepted)))
  {
    var s1 := Next(s, Advance(t, granted));
    assert Alone(s, t, granted, accepted) == Alone(s1, t, granted, accepted);
    if Version(s.tasks[t].code).Some? {
      if granted {
        AloneFromVersion(s1, t, granted, accepted);
      } else {
        var s2 := Next(s1, Advance(t, accepted));
        assert Alone(s1, t, granted, accepted) == Alone(s2, t, granted, accepted);
      }
    }
  }

  /** The steps of a thread that is left alone add up to the one step of the sequential state machine. */
  lemma AloneIsSequential(s: State, t: Thread, granted: bool, accepted: bool)
    requires t in s.tasks && s.tasks[t].phase.AtOnce? && !s.once.Running?
    ensures var task := s.tasks[t];
            var lib := CallOnce(s.once == Called, s.lib);
            Alone(s, t, granted, accepted) ==
            GoOn(s, t, Constructed(lib, task.code, task.names, granted, accepted),
                 Done(Outcome(lib, task.code, granted, accepted))).(once := Called)
  {
    var s1 := Next(s, Advance(t, accepted));
    assert Alone(s, t, granted, accepted) == Alone(s1, t, granted, accepted);
    if s.once == Called {
      AloneFromAllocation(s1, t, granted, accepted);
    } else {
      var s2 := Next(s1, Advance(t, accepted));
      assert Alone(s1, t, granted, accepted) == Alone(s2, t, granted, accepted);
      AloneFromAllocation(s2, t, granted, accepted);
    }
  }
}
