/**
 * What all interleavings of concurrent constructions have in common with sequential runs: every live
 * context is accounted for, and once all threads are done the contexts and the results are those of the
 * constructions run one after the other, in the order in which they allocated.
 */
module Interleavings {
  import opened Results
  import opened Native
  import opened NativeLog
  import opened CipherList
  import opened SslWorld
  import opened ConcurrentConstruction

  // ---- conservation ----

  /** The contexts that threads work on or have obtained. */
  ghost function Held(tasks: map<Thread, Task>): set<Handle> {
    set t | t in tasks && Mine(tasks[t].phase).Some? :: Mine(tasks[t].phase).value
  }

  /** The context that a thread loses when its cipher list is rejected. */
  function LostBy(s: State, move: Move): set<Handle>
    requires Possible(s, move)
  {
    if move.Advance? && s.tasks[move.t].phase.SettingCiphers? && !move.answer then {s.tasks[move.t].phase.ctx} else {}
  }

  function Lost(s: State, moves: seq<Move>): set<Handle>
    requires Schedule(s, moves)
    decreases |moves|
  {
    if moves == [] then {} else LostBy(s, moves[0]) + Lost(Next(s, moves[0]), moves[1..])
  }

  predicate WasRejected(phase: Phase) {
    phase == Raising(CipherListRejected) || phase == Done(Err(CipherListRejected))
  }

  /** The threads whose cipher list was rejected. */
  function Rejected(tasks: map<Thread, Task>): set<Thread> {
    set t | t in tasks && WasRejected(tasks[t].phase)
  }

  ghost predicate Accounted(s: State, lost: set<Handle>) {
    && s.lib.live.Keys == Held(s.tasks) + lost
    && Held(s.tasks) !! lost
    && |lost| == |Rejected(s.tasks)|
  }

  ghost function Own(tasks: map<Thread, Task>, t: Thread): set<Handle> {
    if t in tasks && Mine(tasks[t].phase).Some? then {Mine(tasks[t].phase).value} else {}
  }

  /** When one thread goes on, its context is exchanged for the one it has then. */
  lemma HeldUpdate(tasks: map<Thread, Task>, t: Thread, task: Task)
    requires Separate(tasks)
    ensures Held(tasks[t := task]) == Held(tasks) - Own(tasks, t) + Own(tasks[t := task], t)
  {
    var after := tasks[t := task];
    forall h | h in Held(after) ensures h in Held(tasks) - Own(tasks, t) + Own(after, t) {
      var u :| u in after && Mine(after[u].phase) == Some(h);
      assert u != t ==> Mine(tasks[u].phase) == Some(h);
    }
    forall h | h in Held(tasks) - Own(tasks, t) ensures h in Held(after) {
      var u :| u in tasks && Mine(tasks[u].phase) == Some(h);
      assert Mine(after[u].phase) == Some(h);
    }
  }

  lemma RejectedUpdate(tasks: map<Thread, Task>, t: Thread, task: Task)
    ensures Rejected(tasks[t := task]) == if WasRejected(task.phase) then Rejected(tasks) + {t} else Rejected(tasks) - {t}
  {
  }

  /** The context that a move allocates. */
  function GainBy(s: State, move: Move): set<Handle>
    requires Possible(s, move)
  {
    if Allocates(s, move) && Version(s.tasks[move.t].code).Some? && move.answer then {s.lib.next} else {}
  }

  predicate Allocates(s: State, move: Move) {
    move.Advance? && move.t in s.tasks && s.tasks[move.t].phase.Allocating?
  }

  /** What a move does to the live contexts ... */
  lemma NextLive(s: State, move: Move)
    requires ConcurrentConstruction.Inv(s) && Possible(s, move)
    ensures Next(s, move).lib.live.Keys == s.lib.live.Keys + GainBy(s, move)
  {
    if move.Advance? {
      assert Progress(s.lib, s.tasks[move.t]);
    }
  }

  lemma GainIsNew(s: State, move: Move)
    requires ConcurrentConstruction.Inv(s) && Possible(s, move)
    ensures GainBy(s, move) !! s.lib.live.Keys
  {
  }

  /** ... and to the context of its thread. */
  lemma NextOwn(s: State, move: Move)
    requires Possible(s, move)
    ensures Own(Next(s, move).tasks, move.t) == Own(s.tasks, move.t) - LostBy(s, move) + GainBy(s, move)
    ensures LostBy(s, move) <= Own(s.tasks, move.t)
  {
  }

  lemma NextTasks(s: State, move: Move)
    requires Possible(s, move)
    ensures move.t in Next(s, move).tasks
    ensures Next(s, move).tasks == s.tasks[move.t := Next(s, move).tasks[move.t]]
    ensures WasRejected(Next(s, move).tasks[move.t].phase)
       <==> LostBy(s, move) != {} || (move.t in s.tasks && WasRejected(s.tasks[move.t].phase))
    ensures LostBy(s, move) != {} ==> !WasRejected(s.tasks[move.t].phase)
  {
  }

  lemma OwnIsHeld(tasks: map<Thread, Task>, t: Thread)
    ensures Own(tasks, t) <= Held(tasks)
  {
  }

  /** The bookkeeping of one move, on the sets alone: what is live, held, owned by the thread and lost. */
  lemma Balance(live: set<Handle>, held: set<Handle>, own: set<Handle>, lost: set<Handle>,
                gone: set<Handle>, gain: set<Handle>)
    requires live == held + lost && held !! lost
    requires gone <= own <= held && gain !! live
    ensures live + gain == held - own + (own - gone + gain) + (lost + gone)
    ensures held - own + (own - gone + gain) !! lost + gone
  {
  }

  lemma StepBalances(s: State, lost: set<Handle>, move: Move)
    requires ConcurrentConstruction.Inv(s) && Accounted(s, lost) && Possible(s, move)
    ensures Next(s, move).lib.live.Keys == Held(Next(s, move).tasks) + (lost + LostBy(s, move))
    ensures Held(Next(s, move).tasks) !! lost + LostBy(s, move)
  {
    var own, gone, gain := Own(s.tasks, move.t), LostBy(s, move), GainBy(s, move);
    NextLive(s, move);
    GainIsNew(s, move);
    NextOwn(s, move);
    NextTasks(s, move);
    HeldUpdate(s.tasks, move.t, Next(s, move).tasks[move.t]);
    OwnIsHeld(s.tasks, move.t);
    Balance(s.lib.live.Keys, Held(s.tasks), own, lost, gone, gain);
  }

  lemma StepCounts(s: State, lost: set<Handle>, move: Move)
    requires Accounted(s, lost) && Possible(s, move)
    ensures |lost + LostBy(s, move)| == |Rejected(Next(s, move).tasks)|
  {
    NextTasks(s, move);
    NextOwn(s, move);
    RejectedUpdate(s.tasks, move.t, Next(s, move).tasks[move.t]);
    OwnIsHeld(s.tasks, move.t);
    CountOne(lost, LostBy(s, move), Held(s.tasks), Rejected(s.tasks), Rejected(Next(s, move).tasks), move.t);
  }

  /** One more context is lost exactly when one more thread is rejected. */
  lemma CountOne(lost: set<Handle>, gone: set<Handle>, held: set<Handle>,
                 rejected: set<Thread>, after: set<Thread>, t: Thread)
    requires |lost| == |rejected| && held !! lost && gone <= held && |gone| <= 1
    requires if gone == {} then after == rejected else t !in rejected && after == rejected + {t}
    ensures |lost + gone| == |after|
  {
    if gone == {} {
      assert lost + gone == lost;
    } else {
      assert |lost + gone| == |lost| + |gone|;
    }
  }

  lemma StepAccounts(s: State, lost: set<Handle>, move: Move)
    requires ConcurrentConstruction.Inv(s) && Accounted(s, lost) && Possible(s, move)
    ensures Accounted(Next(s, move), lost + LostBy(s, move))
  {
    StepBalances(s, lost, move);
    StepCounts(s, lost, move);
  }

  lemma UnionAssoc(a: set<Handle>, b: set<Handle>, c: set<Handle>)
    ensures a + (b + c) == a + b + c && a + {} == a
  {
  }

  lemma {:induction false} RunAccounts(s: State, lost: set<Handle>, moves: seq<Move>)
    requires ConcurrentConstruction.Inv(s) && Accounted(s, lost) && Schedule(s, moves)
    ensures Accounted(Interleave(s, moves), lost + Lost(s, moves))
    decreases |moves|
  {
    if moves == [] {
      UnionAssoc(lost, {}, {});
    } else {
      var s1, gone := Next(s, moves[0]), LostBy(s, moves[0]);
      StepAccounts(s, lost, moves[0]);
      NextKeeps(s, moves[0]);
      RunAccounts(s1, lost + gone, moves[1..]);
      UnionAssoc(lost, gone, Lost(s1, moves[1..]));
    }
  }

  lemma NextKeeps(s: State, move: Move)
    requires ConcurrentConstruction.Inv(s) && Possible(s, move)
    ensures ConcurrentConstruction.Inv(Next(s, move))
  {
    if move.Advance? {
      AdvanceKeeps(s, move.t, move.answer);
    }
  }

  /** However the threads interleave, the live contexts are exactly those that threads work on or have
      obtained and those lost to a rejected cipher list, one for each thread that was rejected. */
  lemma ConcurrentConservation(moves: seq<Move>)
    requires Schedule(IDLE, moves)
    ensures Interleave(IDLE, moves).lib.live.Keys == Held(Interleave(IDLE, moves).tasks) + Lost(IDLE, moves)
    ensures Held(Interleave(IDLE, moves).tasks) !! Lost(IDLE, moves)
    ensures |Lost(IDLE, moves)| == |Rejected(Interleave(IDLE, moves).tasks)|
  {
    RunAccounts(IDLE, {}, moves);
    assert {} + Lost(IDLE, moves) == Lost(IDLE, moves);
  }

  // ---- the sequential run behind an interleaving ----

  /** The threads that obtained an object. */
  function Winners(s: State): set<Thread> {
    set t | t in s.tasks && s.tasks[t].phase.Done? && s.tasks[t].phase.result.Ok?
  }

  /** The construction of a thread as one operation of the sequential program, named by the thread. */
  function Whole(s: State, move: Move, winners: set<Thread>): Op
    requires Allocates(s, move)
  {
    Op.Construct(move.t, s.tasks[move.t].code, s.tasks[move.t].names, move.answer, move.t in winners)
  }

  /** The constructions of a schedule, in the order in which they come to allocate. */
  function Order(s: State, moves: seq<Move>, winners: set<Thread>): seq<Op>
    requires Schedule(s, moves)
    decreases |moves|
  {
    if moves == [] then []
    else
      (if Allocates(s, moves[0]) then [Whole(s, moves[0], winners)] else [])
      + Order(Next(s, moves[0]), moves[1..], winners)
  }

  predicate InFlight(phase: Phase) {
    phase.SettingVersion? || phase.AskingManager? || phase.SettingCiphers?
  }

  /** The settings that the context of a thread will have when the thread is done with it. */
  function Final(task: Task, wins: bool): Context
    requires Version(task.code).Some?
  {
    Context(Version(task.code).value, Version(task.code), if wins then Some(Installed(task.names)) else None)
  }

  /** No thread is still working on the context. */
  ghost predicate Settled(tasks: map<Thread, Task>, h: Handle) {
    forall t :: t in tasks && InFlight(tasks[t].phase) ==> tasks[t].phase.ctx != h
  }

  /** The contexts of the sequential program, which is ahead of the threads: those that threads still work on
      have their final settings already, the others are as they are. */
  ghost predicate LiveAhead(tasks: map<Thread, Task>, live: map<Handle, Context>, ahead: map<Handle, Context>,
                            winners: set<Thread>)
  {
    && ahead.Keys == live.Keys
    && (forall t :: t in tasks && InFlight(tasks[t].phase) ==>
          && Version(tasks[t].code).Some? && tasks[t].phase.ctx in ahead
          && ahead[tasks[t].phase.ctx] == Final(tasks[t], t in winners))
    && (forall h :: h in live && Settled(tasks, h) ==> ahead[h] == live[h])
  }

  /** The thread has obtained an object or is going to. */
  predicate Expected(tasks: map<Thread, Task>, t: Thread, winners: set<Thread>) {
    t in tasks && Mine(tasks[t].phase).Some? && (tasks[t].phase.Done? || t in winners)
  }

  /** The objects of the sequential program, named by the threads. */
  ghost predicate ObjectsAhead(tasks: map<Thread, Task>, objects: map<Name, Holder>, winners: set<Thread>) {
    && (forall t :: t in objects <==> Expected(tasks, t, winners))
    && (forall t :: t in objects ==> objects[t] == Holder(Mine(tasks[t].phase), ManagerFor(Mine(tasks[t].phase))))
  }

  /** The sequential program has finished the constructions that have allocated. */
  ghost predicate Ahead(s: State, w: World, winners: set<Thread>) {
    && w.lib.next == s.lib.next
    && LiveAhead(s.tasks, s.lib.live, w.lib.live, winners)
    && ObjectsAhead(s.tasks, w.objects, winners)
  }

  /** A thread that works on no context before or after its move. */
  lemma QuietLive(tasks: map<Thread, Task>, live: map<Handle, Context>, ahead: map<Handle, Context>,
                  winners: set<Thread>, t: Thread, task: Task)
    requires LiveAhead(tasks, live, ahead, winners)
    requires t in tasks ==> !InFlight(tasks[t].phase)
    requires !InFlight(task.phase)
    ensures LiveAhead(tasks[t := task], live, ahead, winners)
  {
    forall h | h in live && Settled(tasks[t := task], h) ensures Settled(tasks, h) {
      forall u | u in tasks && InFlight(tasks[u].phase) ensures tasks[u].phase.ctx != h {
        assert tasks[t := task][u] == tasks[u];
      }
    }
  }

  /** A thread that gets a new context. */
  lemma TakenLive(tasks: map<Thread, Task>, live: map<Handle, Context>, ahead: map<Handle, Context>,
                  winners: set<Thread>, t: Thread, task: Task, c: Context)
    requires LiveAhead(tasks, live, ahead, winners)
    requires t in tasks ==> !InFlight(tasks[t].phase)
    requires InFlight(task.phase) && task.phase.ctx !in live && Version(task.code).Some?
    ensures LiveAhead(tasks[t := task], live[task.phase.ctx := c],
                      ahead[task.phase.ctx := Final(task, t in winners)], winners)
  {
    forall h | h in live && Settled(tasks[t := task], h) ensures Settled(tasks, h) && h != task.phase.ctx {
      forall u | u in tasks && InFlight(tasks[u].phase) ensures tasks[u].phase.ctx != h {
        assert tasks[t := task][u] == tasks[u];
      }
    }
    assert !Settled(tasks[t := task], task.phase.ctx) by {
      assert t in tasks[t := task];
    }
  }

  /** A thread that changes the settings of the context it goes on working on. */
  lemma WorkedLive(tasks: map<Thread, Task>, live: map<Handle, Context>, ahead: map<Handle, Context>,
                   winners: set<Thread>, t: Thread, task: Task, after: map<Handle, Context>)
    requires LiveAhead(tasks, live, ahead, winners)
    requires t in tasks && InFlight(tasks[t].phase) && InFlight(task.phase)
    requires task == tasks[t].(phase := task.phase) && task.phase.ctx == tasks[t].phase.ctx
    requires after.Keys == live.Keys && forall h :: h in live && h != task.phase.ctx ==> after[h] == live[h]
    ensures LiveAhead(tasks[t := task], after, ahead, winners)
  {
    forall h | h in live && Settled(tasks[t := task], h) ensures Settled(tasks, h) && h != task.phase.ctx {
      assert t in tasks[t := task] && tasks[t := task][t].phase.ctx != h;
      forall u | u in tasks && InFlight(tasks[u].phase) ensures tasks[u].phase.ctx != h {
        assert u != t ==> tasks[t := task][u] == tasks[u];
      }
    }
  }

  /** A thread that is done with its context, which now has its final settings. */
  lemma LandedLive(tasks: map<Thread, Task>, live: map<Handle, Context>, ahead: map<Handle, Context>,
                   winners: set<Thread>, t: Thread, task: Task, after: map<Handle, Context>)
    requires LiveAhead(tasks, live, ahead, winners)
    requires t in tasks && InFlight(tasks[t].phase) && !InFlight(task.phase)
    requires after.Keys == live.Keys && forall h :: h in live && h != tasks[t].phase.ctx ==> after[h] == live[h]
    requires after[tasks[t].phase.ctx] == Final(tasks[t], t in winners)
    ensures LiveAhead(tasks[t := task], after, ahead, winners)
  {
    forall h | h in live && h != tasks[t].phase.ctx && Settled(tasks[t := task], h) ensures Settled(tasks, h) {
      forall u | u in tasks && InFlight(tasks[u].phase) ensures tasks[u].phase.ctx != h {
        assert u != t ==> tasks[t := task][u] == tasks[u];
      }
    }
  }

  lemma SameObjects(tasks: map<Thread, Task>, objects: map<Name, Holder>, winners: set<Thread>, t: Thread, task: Task)
    requires ObjectsAhead(tasks, objects, winners)
    requires Expected(tasks[t := task], t, winners) <==> Expected(tasks, t, winners)
    requires Expected(tasks, t, winners) ==> Mine(task.phase) == Mine(tasks[t].phase)
    ensures ObjectsAhead(tasks[t := task], objects, winners)
  {
  }

  lemma MoreObjects(tasks: map<Thread, Task>, objects: map<Name, Holder>, winners: set<Thread>, t: Thread, task: Task)
    requires ObjectsAhead(tasks, objects, winners)
    requires Expected(tasks[t := task], t, winners)
    ensures ObjectsAhead(tasks[t := task], objects[t := Holder(Mine(task.phase), ManagerFor(Mine(task.phase)))], winners)
  {
  }

  /** The move gives the answer that its thread ends with. */
  predicate Fits(s: State, move: Move, winners: set<Thread>) {
    move.Advance? && move.t in s.tasks && s.tasks[move.t].phase.SettingCiphers? ==> (move.answer <==> move.t in winners)
  }

  predicate AllFit(s: State, moves: seq<Move>, winners: set<Thread>)
    requires Schedule(s, moves)
    decreases |moves|
  {
    moves == [] || (Fits(s, moves[0], winners) && AllFit(Next(s, moves[0]), moves[1..], winners))
  }

  /** What a whole construction that is granted a context does to the contexts. */
  lemma WholeLive(lib: Lib, version: TlsVersion, code: int, names: seq<string>, accepted: bool)
    requires Version(code) == Some(version)
    ensures Constructed(lib, code, names, true, accepted).next == lib.next + 1
    ensures Constructed(lib, code, names, true, accepted).live
         == lib.live[lib.next := Context(version, Some(version), if accepted then Some(Installed(names)) else None)]
  {
    var lib1 := New(lib, version, true);
    var lib2 := WithMinVersion(lib1, lib.next, version);
    assert lib2.live == lib.live[lib.next := Context(version, Some(version), None)];
  }

  lemma GrantSimulates(s: State, w: World, winners: set<Thread>, move: Move)
    requires ConcurrentConstruction.Inv(s) && Ahead(s, w, winners) && Possible(s, move) && Allocates(s, move)
    requires Version(s.tasks[move.t].code).Some? && move.answer
    ensures Ahead(Next(s, move), Step(w, Whole(s, move, winners)), winners)
  {
    var t := move.t;
    var before := s.tasks[t];
    var version := Version(before.code).value;
    var task := before.(phase := SettingVersion(s.lib.next));
    assert Next(s, move) == GoOn(s, t, New(s.lib, version, true), SettingVersion(s.lib.next));
    WholeLive(CallOnce(w.initDone, w.lib), version, before.code, before.names, t in winners);
    TakenLive(s.tasks, s.lib.live, w.lib.live, winners, t, task, Context(version, None, None));
    if t in winners {
      MoreObjects(s.tasks, w.objects, winners, t, task);
    } else {
      SameObjects(s.tasks, w.objects, winners, t, task);
    }
  }

  lemma DenialSimulates(s: State, w: World, winners: set<Thread>, move: Move)
    requires Ahead(s, w, winners) && Possible(s, move) && Allocates(s, move)
    requires Version(s.tasks[move.t].code) == None || !move.answer
    ensures Ahead(Next(s, move), Step(w, Whole(s, move, winners)), winners)
  {
    var task := Next(s, move).tasks[move.t];
    NextTasks(s, move);
    QuietLive(s.tasks, s.lib.live, w.lib.live, winners, move.t, task);
    SameObjects(s.tasks, w.objects, winners, move.t, task);
  }

  /** A thread at the moment of allocation: the sequential program runs its whole construction. */
  lemma AllocationSimulates(s: State, w: World, winners: set<Thread>, move: Move)
    requires ConcurrentConstruction.Inv(s) && Ahead(s, w, winners) && Possible(s, move) && Allocates(s, move)
    ensures Enabled(w, Whole(s, move, winners))
    ensures Ahead(Next(s, move), Step(w, Whole(s, move, winners)), winners)
  {
    if Version(s.tasks[move.t].code).Some? && move.answer {
      GrantSimulates(s, w, winners, move);
    } else {
      DenialSimulates(s, w, winners, move);
    }
  }

  /** A thread that works on its context and goes on working on it: the sequential program waits. */
  lemma SettingSimulates(s: State, w: World, winners: set<Thread>, t: Thread, lib: Lib, phase: Phase)
    requires Ahead(s, w, winners) && t in s.tasks && InFlight(s.tasks[t].phase)
    requires InFlight(phase) && phase.ctx == s.tasks[t].phase.ctx && lib.next == s.lib.next
    requires lib.live.Keys == s.lib.live.Keys && forall h :: h in s.lib.live && h != phase.ctx ==> lib.live[h] == s.lib.live[h]
    ensures Ahead(GoOn(s, t, lib, phase), w, winners)
  {
    var task := s.tasks[t].(phase := phase);
    SameObjects(s.tasks, w.objects, winners, t, task);
    WorkedLive(s.tasks, s.lib.live, w.lib.live, winners, t, task, lib.live);
  }

  /** A thread that is done with its context: the sequential program knew how it would end. */
  lemma LandingSimulates(s: State, w: World, winners: set<Thread>, t: Thread, lib: Lib, phase: Phase)
    requires Ahead(s, w, winners) && t in s.tasks && InFlight(s.tasks[t].phase)
    requires lib.next == s.lib.next && lib.live.Keys == s.lib.live.Keys
    requires forall h :: h in s.lib.live && h != s.tasks[t].phase.ctx ==> lib.live[h] == s.lib.live[h]
    requires Version(s.tasks[t].code).Some? && s.tasks[t].phase.ctx in lib.live
    requires lib.live[s.tasks[t].phase.ctx] == Final(s.tasks[t], t in winners)
    requires if t in winners then phase == Done(Ok(Holder(Mine(s.tasks[t].phase), ManagerFor(Mine(s.tasks[t].phase)))))
             else phase == Raising(CipherListRejected)
    ensures Ahead(GoOn(s, t, lib, phase), w, winners)
  {
    var task := s.tasks[t].(phase := phase);
    SameObjects(s.tasks, w.objects, winners, t, task);
    LandedLive(s.tasks, s.lib.live, w.lib.live, winners, t, task, lib.live);
  }

  /** What the answer about the cipher list makes of a context that is otherwise set up. */
  lemma CiphersAreFinal(lib: Lib, task: Task, answer: bool)
    requires Progress(lib, task) && task.phase.SettingCiphers?
    ensures Version(task.code).Some? && task.phase.ctx in lib.live
    ensures var after := WithCipherList(lib, task.phase.ctx, Installed(task.names), answer);
            && after.next == lib.next && after.live.Keys == lib.live.Keys
            && after.live[task.phase.ctx] == Final(task, answer)
            && forall h :: h in lib.live && h != task.phase.ctx ==> after.live[h] == lib.live[h]
  {
  }

  lemma WorkSimulates(s: State, w: World, winners: set<Thread>, move: Move)
    requires ConcurrentConstruction.Inv(s) && Ahead(s, w, winners) && Possible(s, move)
    requires move.Advance? && InFlight(s.tasks[move.t].phase) && Fits(s, move, winners)
    ensures Ahead(Next(s, move), w, winners)
  {
    var t := move.t;
    var before := s.tasks[t];
    assert Progress(s.lib, before);
    match before.phase {
      case SettingVersion(h) =>
        SettingSimulates(s, w, winners, t, WithMinVersion(s.lib, h, Version(before.code).value), AskingManager(h));
      case AskingManager(h) =>
        SettingSimulates(s, w, winners, t, Logged(s.lib, GetCertManager(Some(h))), SettingCiphers(h));
      case SettingCiphers(h) =>
        CiphersAreFinal(s.lib, before, move.answer);
        LandingSimulates(s, w, winners, t, WithCipherList(s.lib, h, Installed(before.names), move.answer),
                         if move.answer then Done(Ok(Holder(Some(h), ManagerFor(Some(h))))) else Raising(CipherListRejected));
    }
  }

  /** Any other move: the sequential program waits. */
  lemma QuietSimulates(s: State, w: World, winners: set<Thread>, move: Move)
    requires Ahead(s, w, winners) && Possible(s, move)
    requires !Allocates(s, move) && (move.Advance? ==> !InFlight(s.tasks[move.t].phase))
    ensures Ahead(Next(s, move), w, winners)
  {
    var task := Next(s, move).tasks[move.t];
    NextTasks(s, move);
    assert Next(s, move).lib.live == s.lib.live;
    QuietLive(s.tasks, s.lib.live, w.lib.live, winners, move.t, task);
    SameObjects(s.tasks, w.objects, winners, move.t, task);
  }

  /** Behind every schedule there is a sequential run, always ahead. */
  lemma {:induction false} RunSimulates(s: State, w: World, winners: set<Thread>, moves: seq<Move>)
    requires ConcurrentConstruction.Inv(s) && Ahead(s, w, winners)
    requires Schedule(s, moves) && AllFit(s, moves, winners)
    ensures Legal(w, Order(s, moves, winners))
    ensures Ahead(Interleave(s, moves), Run(w, Order(s, moves, winners)), winners)
    decreases |moves|
  {
    if moves != [] {
      var s1, later := Next(s, moves[0]), Order(Next(s, moves[0]), moves[1..], winners);
      NextKeeps(s, moves[0]);
      if Allocates(s, moves[0]) {
        var op := Whole(s, moves[0], winners);
        AllocationSimulates(s, w, winners, moves[0]);
        RunSimulates(s1, Step(w, op), winners, moves[1..]);
        assert Order(s, moves, winners) == [op] + later && ([op] + later)[1..] == later;
      } else {
        if moves[0].Advance? && InFlight(s.tasks[moves[0].t].phase) {
          WorkSimulates(s, w, winners, moves[0]);
        } else {
          QuietSimulates(s, w, winners, moves[0]);
        }
        RunSimulates(s1, w, winners, moves[1..]);
        assert Order(s, moves, winners) == later;
      }
    }
  }

  // ---- every thread, one construction ----

  /** What a thread that is done has to show for the operation that stands for it. */
  predicate Matches(op: Op, t: Thread, task: Task) {
    && op.Construct? && op.x == t && op.version == task.code && op.names == task.names
    && task.phase.Done?
    && Raised(START, op) == if task.phase.result.Ok? then None else Some(task.phase.result.error)
  }

  /** Once a thread has allocated or failed to, its result is settled but for its cipher list. */
  predicate Settles(before: Phase, after: Phase, wins: bool) {
    match before
    case Done(result) => after == before
    case Raising(error) => after == before || after == Done(Err(error))
    case _ =>
      InFlight(before) ==>
        || InFlight(after)
        || (if wins then after.Done? && after.result.Ok? else WasRejected(after))
  }

  lemma {:induction false} PhaseSettles(s: State, moves: seq<Move>, winners: set<Thread>, t: Thread)
    requires Schedule(s, moves) && AllFit(s, moves, winners) && t in s.tasks
    ensures t in Interleave(s, moves).tasks
    ensures Settles(s.tasks[t].phase, Interleave(s, moves).tasks[t].phase, t in winners)
    ensures Interleave(s, moves).tasks[t].code == s.tasks[t].code
    ensures Interleave(s, moves).tasks[t].names == s.tasks[t].names
    decreases |moves|
  {
    if moves != [] {
      OneMoveSettles(s, moves[0], winners, t);
      PhaseSettles(Next(s, moves[0]), moves[1..], winners, t);
    }
  }

  lemma OneMoveSettles(s: State, move: Move, winners: set<Thread>, t: Thread)
    requires Possible(s, move) && Fits(s, move, winners) && t in s.tasks
    ensures t in Next(s, move).tasks
    ensures Settles(s.tasks[t].phase, Next(s, move).tasks[t].phase, t in winners)
    ensures Next(s, move).tasks[t].code == s.tasks[t].code && Next(s, move).tasks[t].names == s.tasks[t].names
  {
  }

  predicate NotPlaced(s: State, t: Thread) {
    t in s.tasks ==> s.tasks[t].phase.AtOnce? || s.tasks[t].phase.Initialising? || s.tasks[t].phase.Allocating?
  }

  /** The moment of allocation decides, with the answer about the cipher list, what the thread ends with. */
  lemma AllocationDecides(s: State, moves: seq<Move>, winners: set<Thread>)
    requires moves != [] && Schedule(s, moves) && AllFit(s, moves, winners) && Allocates(s, moves[0])
    requires var task := Interleave(s, moves).tasks; moves[0].t in task && task[moves[0].t].phase.Done?
    ensures Matches(Whole(s, moves[0], winners), moves[0].t, Interleave(s, moves).tasks[moves[0].t])
  {
    PhaseSettles(Next(s, moves[0]), moves[1..], winners, moves[0].t);
  }

  /** Every thread that is done stands in the order with an operation that has its result. */
  lemma {:induction false} DoneIsPlaced(s: State, moves: seq<Move>, winners: set<Thread>, t: Thread)
    requires Schedule(s, moves) && AllFit(s, moves, winners) && NotPlaced(s, t)
    requires t in Interleave(s, moves).tasks && Interleave(s, moves).tasks[t].phase.Done?
    ensures exists op :: op in Order(s, moves, winners) && Matches(op, t, Interleave(s, moves).tasks[t])
    decreases |moves|
  {
    if Allocates(s, moves[0]) && moves[0].t == t {
      AllocationDecides(s, moves, winners);
      assert Whole(s, moves[0], winners) in Order(s, moves, winners);
    } else {
      DoneIsPlaced(Next(s, moves[0]), moves[1..], winners, t);
    }
  }

  /** No thread stands in the order twice. */
  lemma {:induction false} PlacedOnce(s: State, moves: seq<Move>, winners: set<Thread>)
    requires Schedule(s, moves)
    ensures forall op <- Order(s, moves, winners) :: op.Construct? && NotPlaced(s, op.x)
    ensures forall i, j :: 0 <= i < j < |Order(s, moves, winners)| ==>
                             Order(s, moves, winners)[i].x != Order(s, moves, winners)[j].x
    decreases |moves|
  {
    if moves != [] {
      PlacedOnce(Next(s, moves[0]), moves[1..], winners);
      OrderKeepsNotPlaced(s, moves[0], Order(Next(s, moves[0]), moves[1..], winners));
    }
  }

  lemma OrderKeepsNotPlaced(s: State, move: Move, later: seq<Op>)
    requires Possible(s, move) && forall op <- later :: op.Construct? && NotPlaced(Next(s, move), op.x)
    ensures forall op <- later :: NotPlaced(s, op.x)
    ensures Allocates(s, move) ==> forall op <- later :: op.x != move.t
  {
  }

  /** The threads that end with an object are the ones whose cipher lists are accepted on the way. */
  lemma {:induction false} WinnersFit(s: State, moves: seq<Move>)
    requires Schedule(s, moves)
    ensures AllFit(s, moves, Winners(Interleave(s, moves)))
    decreases |moves|
  {
    if moves != [] {
      WinnersFit(Next(s, moves[0]), moves[1..]);
      var winners := Winners(Interleave(s, moves));
      PhaseSettles(Next(s, moves[0]), moves[1..], winners, moves[0].t);
    }
  }

  /** Linearisation. When every thread is done, the interleaving has left what the sequential program leaves
      that runs the same constructions one after the other in the order in which they allocated: the same
      contexts with the same settings, the same next handle, and for each thread the same object. */
  lemma InterleavingIsSequential(moves: seq<Move>)
    requires Schedule(IDLE, moves)
    requires forall t :: t in Interleave(IDLE, moves).tasks ==> Interleave(IDLE, moves).tasks[t].phase.Done?
    ensures var s := Interleave(IDLE, moves);
            var ops := Order(IDLE, moves, Winners(s));
            && Legal(START, ops)
            && var w := Run(START, ops);
            && w.lib.live == s.lib.live && w.lib.next == s.lib.next
            && w.objects.Keys == Winners(s)
            && forall t :: t in w.objects ==> s.tasks[t].phase.result == Ok(w.objects[t])
  {
    var s := Interleave(IDLE, moves);
    WinnersFit(IDLE, moves);
    RunSimulates(IDLE, START, Winners(s), moves);
    InterleaveKeeps(IDLE, moves);
    AheadIsThere(s, Run(START, Order(IDLE, moves, Winners(s))));
  }

  /** When no thread is left behind, being ahead is being there. */
  lemma AheadIsThere(s: State, w: World)
    requires ConcurrentConstruction.Inv(s) && Ahead(s, w, Winners(s))
    requires forall t :: t in s.tasks ==> s.tasks[t].phase.Done?
    ensures w.lib.live == s.lib.live && w.lib.next == s.lib.next
    ensures w.objects.Keys == Winners(s)
    ensures forall t :: t in w.objects ==> s.tasks[t].phase.result == Ok(w.objects[t])
  {
    forall h | h in s.lib.live ensures w.lib.live[h] == s.lib.live[h] {
      assert Settled(s.tasks, h);
    }
    forall t | t in s.tasks
      ensures Mine(s.tasks[t].phase).Some? <==> t in Winners(s)
      ensures Mine(s.tasks[t].phase).Some? ==>
                s.tasks[t].phase.result == Ok(Holder(Mine(s.tasks[t].phase), ManagerFor(Mine(s.tasks[t].phase))))
    {
      assert Progress(s.lib, s.tasks[t]) && Honest(s.tasks[t]);
    }
  }

  /** And each thread stands for exactly one of these constructions, with the thread's arguments and its
      exception, if it ended with one. */
  lemma EachThreadIsOneConstruction(moves: seq<Move>, t: Thread)
    requires Schedule(IDLE, moves)
    requires t in Interleave(IDLE, moves).tasks && Interleave(IDLE, moves).tasks[t].phase.Done?
    ensures var s := Interleave(IDLE, moves);
            var ops := Order(IDLE, moves, Winners(s));
            var code, names, result := s.tasks[t].code, s.tasks[t].names, s.tasks[t].phase.result;
            && (exists op :: op in ops && op.Construct? && op.x == t && op.version == code && op.names == names
                             && (result.Ok? <==> (code == 0 || code == 1) && op.granted && op.accepted)
                             && (result.Err? ==> result.error == if code != 0 && code != 1 then UnsupportedVersion(code)
                                                                 else if !op.granted then AllocationFailed
                                                                 else CipherListRejected))
            && (forall i, j :: 0 <= i < j < |ops| ==> ops[i].x != ops[j].x)
  {
    WinnersFit(IDLE, moves);
    DoneIsPlaced(IDLE, moves, Winners(Interleave(IDLE, moves)), t);
    var op :| op in Order(IDLE, moves, Winners(Interleave(IDLE, moves))) && Matches(op, t, Interleave(IDLE, moves).tasks[t]);
    PlacedOnce(IDLE, moves, Winners(Interleave(IDLE, moves)));
  }
}
