/**
 * Ownership of native contexts over whole runs: who holds a handle, what is live, what is leaked.
 */
module Ownership {
  import opened Results
  import opened Native
  import opened NativeLog
  import opened CipherList
  import opened SslWorld

  ghost predicate Holds(w: World, x: Name, h: Handle) {
    x in w.objects && w.objects[x].ctx == Some(h)
  }

  /** The handles held by objects. */
  ghost function Owned(objects: map<Name, Holder>): set<Handle> {
    set x | x in objects && objects[x].ctx.Some? :: objects[x].ctx.value
  }

  /** A construction that allocates a context and then throws because its cipher list was rejected. */
  predicate Leaky(op: Op) {
    op.Construct? && Version(op.version).Some? && op.granted && !op.accepted
  }

  /** The handle a leaky construction loses: the one the library allocates next. */
  function Leak(w: World, op: Op): set<Handle> {
    if Leaky(op) then {w.lib.next} else {}
  }

  /** The handles lost over a run. */
  function Leaked(w: World, ops: seq<Op>): set<Handle>
    requires Legal(w, ops)
    decreases |ops|
  {
    if ops == [] then {} else Leak(w, ops[0]) + Leaked(Step(w, ops[0]), ops[1..])
  }

  function LeakyCount(ops: seq<Op>): nat {
    if ops == [] then 0 else (if Leaky(ops[0]) then 1 else 0) + LeakyCount(ops[1..])
  }

  /** Non-null pointers of different objects differ. */
  ghost predicate Exclusive(w: World) {
    forall x, y, h :: Holds(w, x, h) && Holds(w, y, h) ==> x == y
  }

  /** The invariant of every run that has leaked `leaked` so far: an uninitialised library has seen no
      call and there is no object; after that, live contexts are the owned ones and the leaked ones. */
  ghost predicate Inv(w: World, leaked: set<Handle>) {
    if !w.initDone then w == START && leaked == {}
    else
      && Good(w.lib)
      && Exclusive(w)
      && Owned(w.objects) !! leaked
      && w.lib.live.Keys == Owned(w.objects) + leaked
  }

  /** `after` differs from `before` at most at `x`. */
  ghost predicate SameBut(before: map<Name, Holder>, after: map<Name, Holder>, x: Name) {
    forall y :: y != x ==> (y in after <==> y in before) && (y in after ==> after[y] == before[y])
  }

  // ---- one step ----

  lemma HeldIsLive(w: World, leaked: set<Handle>, x: Name)
    requires Inv(w, leaked) && x in w.objects && w.objects[x].ctx.Some?
    ensures w.objects[x].ctx.value in w.lib.live && w.objects[x].ctx.value !in leaked
  {
  }

  /** Binding a name that held nothing to a handle adds that handle to the owned ones. */
  lemma OwnedBind(objects: map<Name, Holder>, x: Name, holder: Holder)
    requires x !in objects || objects[x].ctx == None
    ensures Owned(objects[x := holder]) == Owned(objects) + (if holder.ctx.Some? then {holder.ctx.value} else {})
  {
    var after := objects[x := holder];
    forall h | h in Owned(objects) ensures h in Owned(after) {
      var y :| y in objects && objects[y].ctx == Some(h);
      assert after[y].ctx == Some(h);
    }
    if holder.ctx.Some? {
      assert after[x].ctx.Some?;
    }
  }

  /** Emptying or removing the only holder of a handle removes that handle from the owned ones. */
  lemma OwnedUnbind(w: World, x: Name, after: map<Name, Holder>)
    requires Exclusive(w) && x in w.objects
    requires x !in after || after[x].ctx == None
    requires SameBut(w.objects, after, x)
    ensures Owned(after) == Owned(w.objects) - (if w.objects[x].ctx.Some? then {w.objects[x].ctx.value} else {})
  {
    forall h | h in Owned(after)
      ensures h in Owned(w.objects) && w.objects[x].ctx != Some(h)
    {
      var y :| y in after && after[y].ctx == Some(h);
      assert Holds(w, y, h);
      if w.objects[x].ctx == Some(h) {
        assert Holds(w, x, h);
      }
    }
    forall h | h in Owned(w.objects) && w.objects[x].ctx != Some(h)
      ensures h in Owned(after)
    {
      var y :| y in w.objects && w.objects[y].ctx == Some(h);
      assert after[y].ctx == Some(h);
    }
  }

  lemma BindKeeps(w: World, leaked: set<Handle>, x: Name, holder: Holder, lib: Lib)
    requires Inv(w, leaked) && w.initDone
    requires x !in w.objects || w.objects[x].ctx == None
    requires Good(lib)
    requires match holder.ctx
             case None => lib.live.Keys == w.lib.live.Keys
             case Some(h) => h !in w.lib.live && lib.live.Keys == w.lib.live.Keys + {h}
    ensures Inv(World(true, lib, w.objects[x := holder]), leaked)
  {
    OwnedBind(w.objects, x, holder);
    var after := World(true, lib, w.objects[x := holder]);
    forall y, z, h | Holds(after, y, h) && Holds(after, z, h)
      ensures y == z
    {
      if y != x { assert Holds(w, y, h); HeldIsLive(w, leaked, y); }
      if z != x { assert Holds(w, z, h); HeldIsLive(w, leaked, z); }
    }
  }

  /** Freeing what an object holds, and emptying or removing the object. */
  lemma UnbindKeeps(w: World, leaked: set<Handle>, x: Name, after: map<Name, Holder>)
    requires Inv(w, leaked) && w.initDone && x in w.objects
    requires x !in after || after[x].ctx == None
    requires SameBut(w.objects, after, x)
    ensures Inv(World(true, Released(w.lib, w.objects[x].ctx), after), leaked)
  {
    OwnedUnbind(w, x, after);
    if w.objects[x].ctx.Some? {
      HeldIsLive(w, leaked, x);
      FreedGood(w.lib, w.objects[x].ctx.value);
    }
    var left := World(true, Released(w.lib, w.objects[x].ctx), after);
    forall y, z, h | Holds(left, y, h) && Holds(left, z, h)
      ensures y == z
    {
      assert Holds(w, y, h) && Holds(w, z, h);
    }
  }

  lemma ConfiguredGood(lib: Lib, h: Handle, version: TlsVersion, names: seq<string>, accepted: bool)
    requires Good(lib) && h in lib.live
    ensures Good(Configured(lib, h, version, names, accepted))
    ensures Configured(lib, h, version, names, accepted).live.Keys == lib.live.Keys
  {
    SettingGood(lib, h, version, "", true);
    var lib1 := WithMinVersion(lib, h, version);
    LoggedGood(lib1, GetCertManager(Some(h)));
    SettingGood(Logged(lib1, GetCertManager(Some(h))), h, version, Installed(names), accepted);
  }

  /** The native calls of the main constructor are disciplined. */
  lemma ConstructedGood(lib: Lib, code: int, names: seq<string>, granted: bool, accepted: bool)
    requires Good(lib)
    ensures Good(Constructed(lib, code, names, granted, accepted))
  {
    var left := Constructed(lib, code, names, granted, accepted);
    match Version(code) {
      case None => assert left == lib;
      case Some(version) =>
        var lib1 := New(lib, version, granted);
        assert Good(lib1) by { NewGood(lib, version, granted); }
        if !granted {
          assert left == Logged(lib1, ErrorString);
          LoggedGood(lib1, ErrorString);
        } else {
          AllocatedGood(lib1, lib.next, version, names, accepted);
        }
    }
  }

  lemma AllocatedGood(lib: Lib, h: Handle, version: TlsVersion, names: seq<string>, accepted: bool)
    requires Good(lib) && h in lib.live
    ensures var lib2 := Configured(lib, h, version, names, accepted);
            Good(if accepted then lib2 else Logged(lib2, ErrorString))
  {
    var lib2 := Configured(lib, h, version, names, accepted);
    assert Good(lib2) by { ConfiguredGood(lib, h, version, names, accepted); }
    if !accepted {
      LoggedGood(lib2, ErrorString);
    }
  }

  /** They leave one more live context if one was allocated, whether or not the cipher list was accepted. */
  lemma ConstructedLive(lib: Lib, code: int, names: seq<string>, granted: bool, accepted: bool)
    ensures Constructed(lib, code, names, granted, accepted).live.Keys
         == lib.live.Keys + (if Version(code).Some? && granted then {lib.next} else {})
  {
  }

  /** After the once flag the library is initialised and nothing else has changed. */
  lemma CallOnceKeeps(w: World, leaked: set<Handle>)
    requires Inv(w, leaked)
    ensures Inv(World(true, CallOnce(w.initDone, w.lib), w.objects), leaked)
    ensures CallOnce(w.initDone, w.lib).next == w.lib.next
  {
    InitGood();
  }

  /** The handle that would be allocated next is not live. */
  lemma NextIsNotLive(lib: Lib)
    requires Good(lib)
    ensures lib.next !in lib.live
  {
  }

  lemma ConstructKeeps(w: World, leaked: set<Handle>, x: Name, code: int, names: seq<string>,
                       granted: bool, accepted: bool)
    requires Inv(w, leaked) && x !in w.objects
    ensures Inv(Constructs(w, x, code, names, granted, accepted),
                leaked + if Version(code).Some? && granted && !accepted then {w.lib.next} else {})
  {
    CallOnceKeeps(w, leaked);
    var lib := CallOnce(w.initDone, w.lib);
    InitialisedConstructKeeps(World(true, lib, w.objects), leaked, x, code, names, granted, accepted);
  }

  lemma InitialisedConstructKeeps(w: World, leaked: set<Handle>, x: Name, code: int, names: seq<string>,
                                  granted: bool, accepted: bool)
    requires Inv(w, leaked) && w.initDone && x !in w.objects
    ensures Inv(Constructs(w, x, code, names, granted, accepted),
                leaked + if Version(code).Some? && granted && !accepted then {w.lib.next} else {})
  {
    if Outcome(w.lib, code, granted, accepted).Ok? {
      assert leaked + {} == leaked;
      SucceededKeeps(w, leaked, x, code, names);
    } else {
      FailedKeeps(w, leaked, x, code, names, granted, accepted);
    }
  }

  lemma SucceededKeeps(w: World, leaked: set<Handle>, x: Name, code: int, names: seq<string>)
    requires Inv(w, leaked) && w.initDone && x !in w.objects && Version(code).Some?
    ensures Inv(Constructs(w, x, code, names, true, true), leaked)
  {
    var left := Constructed(w.lib, code, names, true, true);
    assert Good(left) by { ConstructedGood(w.lib, code, names, true, true); }
    ConstructedLive(w.lib, code, names, true, true);
    NextIsNotLive(w.lib);
    ReceivedKeeps(w, leaked, x, Outcome(w.lib, code, true, true).value, left);
  }

  lemma FailedKeeps(w: World, leaked: set<Handle>, x: Name, code: int, names: seq<string>, granted: bool, accepted: bool)
    requires Inv(w, leaked) && w.initDone && Outcome(w.lib, code, granted, accepted).Err?
    ensures Inv(Constructs(w, x, code, names, granted, accepted),
                leaked + if Version(code).Some? && granted then {w.lib.next} else {})
  {
    var left := Constructed(w.lib, code, names, granted, accepted);
    assert Good(left) by { ConstructedGood(w.lib, code, names, granted, accepted); }
    ConstructedLive(w.lib, code, names, granted, accepted);
    NextIsNotLive(w.lib);
    LeakKeeps(w, leaked, left, if Version(code).Some? && granted then {w.lib.next} else {});
    assert Constructs(w, x, code, names, granted, accepted) == w.(lib := left);
  }

  /** A context that the new object receives is owned. */
  lemma ReceivedKeeps(w: World, leaked: set<Handle>, x: Name, holder: Holder, lib: Lib)
    requires Inv(w, leaked) && w.initDone && x !in w.objects
    requires Good(lib) && holder.ctx.Some?
    requires holder.ctx.value !in w.lib.live && lib.live.Keys == w.lib.live.Keys + {holder.ctx.value}
    ensures Inv(World(true, lib, w.objects[x := holder]), leaked)
  {
    BindKeeps(w, leaked, x, holder, lib);
  }

  /** A context that no object receives is leaked. */
  lemma LeakKeeps(w: World, leaked: set<Handle>, lib: Lib, lost: set<Handle>)
    requires Inv(w, leaked) && w.initDone
    requires Good(lib) && lib.live.Keys == w.lib.live.Keys + lost && lost !! w.lib.live.Keys
    ensures Inv(w.(lib := lib), leaked + lost)
  {
    var left := w.(lib := lib);
    forall x, y, h | Holds(left, x, h) && Holds(left, y, h)
      ensures x == y
    {
      assert Holds(w, x, h) && Holds(w, y, h);
    }
  }

  lemma CopyKeeps(w: World, leaked: set<Handle>, x: Name, granted: bool)
    requires Inv(w, leaked) && w.initDone && x !in w.objects
    ensures Inv(Copies(w, x, granted), leaked)
  {
    NewGood(w.lib, Tls13, granted);
    var lib, ctx := New(w.lib, Tls13, granted), Fresh(w.lib, granted);
    LoggedGood(lib, GetCertManager(ctx));
    BindKeeps(w, leaked, x, Holder(ctx, ManagerFor(ctx)), Logged(lib, GetCertManager(ctx)));
  }

  /** Moving a pointer from one object to another that holds none changes no owner set. */
  lemma RelabelKeeps(w: World, leaked: set<Handle>, x: Name, source: Name, after: map<Name, Holder>)
    requires Inv(w, leaked) && w.initDone && source in w.objects && x != source
    requires x !in w.objects || w.objects[x].ctx == None
    requires after.Keys == w.objects.Keys + {x}
    requires after[x].ctx == w.objects[source].ctx && after[source].ctx == None
    requires forall y :: y in w.objects && y != x && y != source ==> after[y] == w.objects[y]
    ensures Inv(World(true, w.lib, after), leaked)
  {
    var moved := World(true, w.lib, after);
    forall y, z, h | Holds(moved, y, h) && Holds(moved, z, h)
      ensures y == z
    {
      assert Holds(w, if y == x then source else y, h);
      assert Holds(w, if z == x then source else z, h);
    }
    forall h ensures h in Owned(after) <==> h in Owned(w.objects) {
      if h in Owned(after) {
        var y :| y in after && after[y].ctx == Some(h);
        assert w.objects[if y == x then source else y].ctx == Some(h);
      }
      if h in Owned(w.objects) {
        var y :| y in w.objects && w.objects[y].ctx == Some(h);
        assert after[if y == source then x else y].ctx == Some(h);
      }
    }
    assert Owned(after) == Owned(w.objects);
  }

  lemma EmptyTakesNew(w: World, leaked: set<Handle>, x: Name, holder: Holder, granted: bool)
    requires Inv(w, leaked) && w.initDone && x in w.objects && w.objects[x].ctx == None
    requires holder.ctx == Fresh(w.lib, granted)
    ensures Inv(World(true, New(w.lib, Tls13, granted), w.objects[x := holder]), leaked)
  {
    NewGood(w.lib, Tls13, granted);
    BindKeeps(w, leaked, x, holder, New(w.lib, Tls13, granted));
  }

  lemma CopyAssignKeeps(w: World, leaked: set<Handle>, x: Name, source: Name, granted: bool)
    requires Inv(w, leaked) && w.initDone && x in w.objects
    ensures Inv(AssignsCopy(w, x, source, granted), leaked)
  {
    if x != source {
      var emptied := w.objects[x := w.objects[x].(ctx := None)];
      var w1 := World(true, Released(w.lib, w.objects[x].ctx), emptied);
      assert Inv(w1, leaked) by { UnbindKeeps(w, leaked, x, emptied); }
      var holder := w.objects[x].(ctx := Fresh(w.lib, granted));
      EmptyTakesNew(w1, leaked, x, holder, granted);
      assert w.objects[x := holder] == emptied[x := holder];
    }
  }

  lemma MoveAssignKeeps(w: World, leaked: set<Handle>, x: Name, source: Name)
    requires Inv(w, leaked) && w.initDone && x in w.objects && source in w.objects
    ensures Inv(AssignsMove(w, x, source), leaked)
  {
    if x != source {
      var emptied := w.objects[x := w.objects[x].(ctx := None)];
      UnbindKeeps(w, leaked, x, emptied);
      RelabelKeeps(World(true, Released(w.lib, w.objects[x].ctx), emptied), leaked, x, source,
                   AssignsMove(w, x, source).objects);
    }
  }

  /** Every step keeps the invariant, and leaks exactly what a leaky construction leaks. */
  lemma StepKeepsInv(w: World, leaked: set<Handle>, op: Op)
    requires Inv(w, leaked) && Enabled(w, op)
    ensures Inv(Step(w, op), leaked + Leak(w, op))
  {
    assert !op.Construct? ==> leaked + Leak(w, op) == leaked;
    match op {
      case Construct(x, version, names, granted, accepted) => ConstructKeeps(w, leaked, x, version, names, granted, accepted);
      case CopyConstruct(x, _, granted) => CopyKeeps(w, leaked, x, granted);
      case MoveConstruct(x, source) => RelabelKeeps(w, leaked, x, source, Moves(w, x, source).objects);
      case Destroy(x) => UnbindKeeps(w, leaked, x, w.objects - {x});
      case CopyAssign(x, source, granted) => CopyAssignKeeps(w, leaked, x, source, granted);
      case MoveAssign(x, source) => MoveAssignKeeps(w, leaked, x, source);
    }
  }

  lemma {:induction false} RunKeepsInv(w: World, leaked: set<Handle>, ops: seq<Op>)
    requires Inv(w, leaked) && Legal(w, ops)
    ensures Inv(Run(w, ops), leaked + Leaked(w, ops))
    decreases |ops|
  {
    if ops == [] {
      assert leaked + Leaked(w, ops) == leaked;
    } else {
      var w1, now := Step(w, ops[0]), leaked + Leak(w, ops[0]);
      assert now + Leaked(w1, ops[1..]) == leaked + Leaked(w, ops);
      assert Inv(w1, now) by { StepKeepsInv(w, leaked, ops[0]); }
      RunKeepsInv(w1, now, ops[1..]);
    }
  }

  // ---- every run ----

  /** Over every run: the pointers of different objects differ and name live contexts; no native call is
      made on a context that was not created before, and none on one that was freed before, so that no
      context is freed twice. */
  lemma EveryRunIsSafe(ops: seq<Op>)
    requires Legal(START, ops)
    ensures var w := Run(START, ops);
            && (forall x, y, h :: Holds(w, x, h) && Holds(w, y, h) ==> x == y)
            && (forall x, h :: Holds(w, x, h) ==> h in w.lib.live)
    ensures var log := Run(START, ops).lib.log;
            && (forall j, h :: 0 <= j < |log| && h in Uses(log[j]) ==> exists i :: 0 <= i < j && h in Creates(log[i]))
            && (forall i, j, h :: 0 <= i < j < |log| && log[i] == CtxFree(h) ==>
                                    h !in Uses(log[j]) && h !in Creates(log[j]))
  {
    RunKeepsInv(START, {}, ops);
    var w := Run(START, ops);
    forall x, h | Holds(w, x, h) ensures h in w.lib.live {
      HeldIsLive(w, {} + Leaked(START, ops), x);
    }
    var log := w.lib.log;
    forall j, h | 0 <= j < |log| && h in Uses(log[j])
      ensures exists i :: 0 <= i < j && h in Creates(log[i])
    {
      UseFollowsCreation(log, j, h);
    }
    forall i, j, h | 0 <= i < j < |log| && log[i] == CtxFree(h)
      ensures h !in Uses(log[j]) && h !in Creates(log[j])
    {
      NoUseAfterFree(log, i, j, h);
    }
  }

  /** The same call by call, over every run: a call that passes a context to the library comes after the call that
      returned it and not after one that freed it. */
  lemma EveryCallIsSafe(ops: seq<Op>, j: nat, h: Handle)
    requires Legal(START, ops) && j < |Run(START, ops).lib.log|
    requires var call := Run(START, ops).lib.log[j];
             || (call.SetMinVersion? && call.ctx == h)
             || call == GetCertManager(Some(h))
             || (call.SetCipherList? && call.ctx == h)
             || call == CtxFree(h)
    ensures var log := Run(START, ops).lib.log;
            && (exists i :: 0 <= i < j && log[i].CtxNew? && log[i].result == Some(h))
            && (forall i :: 0 <= i < j ==> log[i] != CtxFree(h))
  {
    EveryRunIsSafe(ops);
    var log := Run(START, ops).lib.log;
    assert h in Uses(log[j]);
    var i :| 0 <= i < j && h in Creates(log[i]);
    assert log[i].CtxNew? && log[i].result == Some(h);
  }

  /** And no two calls of a run return the same context. */
  lemma EveryContextIsNew(ops: seq<Op>, i: nat, j: nat)
    requires Legal(START, ops) && i < j < |Run(START, ops).lib.log|
    requires var log := Run(START, ops).lib.log; log[i].CtxNew? && log[i].result.Some? && log[j].CtxNew?
    ensures Run(START, ops).lib.log[i].result != Run(START, ops).lib.log[j].result
  {
    RunKeepsInv(START, {}, ops);
    var log := Run(START, ops).lib.log;
    CreatedOnce(log, i, j, log[i].result.value);
  }

  /** The library is initialised before its first use and never again, in every run: by the time a copy or
      an assignment runs, which do not look at the once flag, some main construction has come before. */
  lemma InitialisedOnceAndFirst(ops: seq<Op>)
    requires Legal(START, ops)
    ensures var w := Run(START, ops);
            && (w.lib.log != [] ==> w.lib.log[0] == Init)
            && (forall i :: 0 < i < |w.lib.log| ==> w.lib.log[i] != Init)
            && (w.initDone <==> w.lib.log != [])
            && (w.objects != map[] ==> w.initDone)
  {
    RunKeepsInv(START, {}, ops);
  }

  /** The library is initialised in exactly the runs that construct or try to construct an object. */
  lemma {:induction false} InitialisedIff(w: World, ops: seq<Op>)
    requires Legal(w, ops)
    ensures Run(w, ops).initDone <==> w.initDone || exists i :: 0 <= i < |ops| && ops[i].Construct?
    decreases |ops|
  {
    if ops != [] {
      InitialisedIff(Step(w, ops[0]), ops[1..]);
      if i :| 0 <= i < |ops[1..]| && ops[1..][i].Construct? {
        assert ops[i + 1].Construct?;
      }
      if i :| 0 <= i < |ops| && ops[i].Construct? {
        assert i > 0 ==> ops[1..][i - 1].Construct?;
      }
    }
  }

  /** The allocator never goes back, and a leaky construction uses up a handle. */
  lemma NextGrows(w: World, op: Op)
    requires Enabled(w, op)
    ensures w.lib.next + |Leak(w, op)| <= Step(w, op).lib.next
  {
  }

  /** What leaks later is younger than what exists now. */
  lemma {:induction false} LeakedIsYounger(w: World, ops: seq<Op>)
    requires Legal(w, ops)
    ensures forall h <- Leaked(w, ops) :: w.lib.next <= h
    decreases |ops|
  {
    if ops != [] {
      NextGrows(w, ops[0]);
      LeakedIsYounger(Step(w, ops[0]), ops[1..]);
    }
  }

  /** Leaked handles of a run are distinct: there are as many as there were leaky constructions. */
  lemma {:induction false} LeakedCount(w: World, ops: seq<Op>)
    requires Legal(w, ops)
    ensures |Leaked(w, ops)| == LeakyCount(ops)
    decreases |ops|
  {
    if ops != [] {
      var later := Leaked(Step(w, ops[0]), ops[1..]);
      LeakedCount(Step(w, ops[0]), ops[1..]);
      NextGrows(w, ops[0]);
      LeakedIsYounger(Step(w, ops[0]), ops[1..]);
      assert Leaky(ops[0]) ==> w.lib.next !in later;
      assert Leaked(w, ops) == Leak(w, ops[0]) + later;
    }
  }

  /** Conservation: after any run the live contexts are exactly those held by objects and those lost by
      constructions whose cipher list was rejected, one for each such construction. */
  lemma Conservation(ops: seq<Op>)
    requires Legal(START, ops)
    ensures Run(START, ops).lib.live.Keys == Owned(Run(START, ops).objects) + Leaked(START, ops)
    ensures Owned(Run(START, ops).objects) !! Leaked(START, ops)
    ensures |Leaked(START, ops)| == LeakyCount(ops)
  {
    var w, lost := Run(START, ops), Leaked(START, ops);
    RunKeepsInv(START, {}, ops);
    LeakedCount(START, ops);
    assert {} + lost == lost;
    if !w.initDone {
      assert Owned(w.objects) == {};
    }
  }

  lemma {:induction false} NoLeakIff(ops: seq<Op>)
    ensures LeakyCount(ops) == 0 <==> forall op <- ops :: !Leaky(op)
  {
    if ops != [] {
      NoLeakIff(ops[1..]);
      assert forall op <- ops[1..] :: op in ops;
      assert forall op <- ops :: op == ops[0] || op in ops[1..];
    }
  }

  /** When every object has been destroyed, no context is left live exactly if no construction of the run
      had its cipher list rejected after its context was allocated. */
  lemma AllReclaimedIff(ops: seq<Op>)
    requires Legal(START, ops) && Run(START, ops).objects == map[]
    ensures Run(START, ops).lib.live == map[] <==> forall op <- ops :: !Leaky(op)
  {
    Conservation(ops);
    NoLeakIff(ops);
    assert Run(START, ops).lib.live == map[] <==> Run(START, ops).lib.live.Keys == {};
  }

  /** The smallest run that leaks: one construction, of a supported version and with any names, whose cipher
      list is rejected. There is no object and there is a live context. */
  lemma RejectedCipherListLeaks(code: int, names: seq<string>)
    requires Version(code).Some?
    ensures var ops := [Op.Construct(0, code, names, true, false)];
            && Legal(START, ops)
            && Run(START, ops).objects == map[]
            && Run(START, ops).lib.live.Keys == Leaked(START, ops) == {0}
  {
    var op := Op.Construct(0, code, names, true, false);
    assert [op][1..] == [];
    assert Run(START, [op]) == Step(START, op);
    assert Leaked(START, [op]) == {0};
    ConstructedLive(CallOnce(false, EMPTY_LIB), code, names, true, false);
  }

  /** Nothing that happens later frees a leaked context. */
  lemma LeaksArePermanent(before: seq<Op>, after: seq<Op>)
    requires Legal(START, before) && Legal(Run(START, before), after)
    ensures Leaked(START, before) <= Run(Run(START, before), after).lib.live.Keys
  {
    RunKeepsInv(START, {}, before);
    var w := Run(START, before);
    assert {} + Leaked(START, before) == Leaked(START, before);
    RunKeepsInv(w, Leaked(START, before), after);
  }
}
