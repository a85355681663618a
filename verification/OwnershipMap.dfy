/**
 * The same program seen from above: a partial map from objects to the handle each of them owns, the
 * handles used up so far and the handles freed so far, in order. Every run of the concrete state machine
 * is a run of this one.
 */
module OwnershipMap {
  import CipherList
  import opened Results
  import opened Native
  import opened SslWorld

  datatype Ownership = Ownership(owner: map<Name, Handle>, next: Handle, freed: seq<Handle>)

  /** A handle never used before goes to `x`. */
  function Take(s: Ownership, x: Name): Ownership {
    s.(owner := s.owner[x := s.next], next := s.next + 1)
  }

  /** A handle never used before goes to nobody. */
  function Waste(s: Ownership): Ownership {
    s.(next := s.next + 1)
  }

  /** What `x` owns, if anything, is freed. */
  function Drop(s: Ownership, x: Name): Ownership {
    if x in s.owner then s.(owner := s.owner - {x}, freed := s.freed + [s.owner[x]]) else s
  }

  /** What `source` owns, if anything, is owned by `x` from now on. */
  function Relabel(s: Ownership, source: Name, x: Name): Ownership {
    if source in s.owner then s.(owner := s.owner[x := s.owner[source]] - {source}) else s
  }

  /** A construction that throws after allocating wastes a handle. */
  function AbstractConstruct(s: Ownership, x: Name, code: int, granted: bool, accepted: bool): Ownership {
    if Version(code) == None || !granted then s else if accepted then Take(s, x) else Waste(s)
  }

  function AbstractStep(s: Ownership, op: Op): Ownership {
    match op
    case Construct(x, version, _, granted, accepted) => AbstractConstruct(s, x, version, granted, accepted)
    case CopyConstruct(x, _, granted) => if granted then Take(s, x) else s
    case MoveConstruct(x, source) => Relabel(s, source, x)
    case Destroy(x) => Drop(s, x)
    case CopyAssign(x, source, granted) =>
      if x == source then s else if granted then Take(Drop(s, x), x) else Drop(s, x)
    case MoveAssign(x, source) => if x == source then s else Relabel(Drop(s, x), source, x)
  }

  function AbstractRun(s: Ownership, ops: seq<Op>): Ownership
    decreases |ops|
  {
    if ops == [] then s else AbstractRun(AbstractStep(s, ops[0]), ops[1..])
  }

  /** The handles a log of native calls frees, in order. */
  function FreeLog(log: seq<Call>): seq<Handle> {
    if log == [] then []
    else
      FreeLog(log[..|log| - 1]) + match log[|log| - 1] { case CtxFree(h) => [h] case _ => [] }
  }

  function Owners(objects: map<Name, Holder>): map<Name, Handle> {
    map x | x in objects && objects[x].ctx.Some? :: objects[x].ctx.value
  }

  /** The abstraction: forget certificate managers, context settings and every call but the frees. */
  function Abstract(w: World): Ownership {
    Ownership(Owners(w.objects), w.lib.next, FreeLog(w.lib.log))
  }

  /** The abstraction, spelled out: an object owns what its context pointer names, and what has been freed are the
      free calls of the log, all of them and in their order: the k-th is the call at position `at[k]`. */
  lemma AbstractLiterally(w: World) returns (at: seq<nat>)
    ensures forall x, h :: (x in Abstract(w).owner && Abstract(w).owner[x] == h)
                      <==> (x in w.objects && w.objects[x].ctx == Some(h))
    ensures Abstract(w).next == w.lib.next
    ensures |at| == |Abstract(w).freed|
    ensures forall k :: 0 <= k < |at| ==> at[k] < |w.lib.log| && w.lib.log[at[k]] == CtxFree(Abstract(w).freed[k])
    ensures forall k, l :: 0 <= k < l < |at| ==> at[k] < at[l]
    ensures forall i :: 0 <= i < |w.lib.log| && w.lib.log[i].CtxFree? ==> i in at
  {
    at := FreesAt(w.lib.log);
    assert Abstract(w).owner == Owners(w.objects);
  }

  /** Where in a log the frees are. */
  lemma {:induction false} FreesAt(log: seq<Call>) returns (at: seq<nat>)
    ensures AreFrees(log, FreeLog(log), at)
    decreases |log|
  {
    if log == [] {
      at := [];
    } else {
      var n := |log| - 1;
      at := FreesAt(log[..n]);
      assert log == log[..n] + [log[n]];
      MoreFrees(log[..n], log[n], FreeLog(log[..n]), at);
      at := if log[n].CtxFree? then at + [n] else at;
    }
  }

  /** `at` are the positions of the frees of a log, and `freed` what they free. */
  ghost predicate AreFrees(log: seq<Call>, freed: seq<Handle>, at: seq<nat>) {
    && |at| == |freed|
    && (forall k :: 0 <= k < |at| ==> at[k] < |log| && log[at[k]] == CtxFree(freed[k]))
    && (forall k, l :: 0 <= k < l < |at| ==> at[k] < at[l])
    && (forall i :: 0 <= i < |log| && log[i].CtxFree? ==> i in at)
  }

  lemma MoreFrees(log: seq<Call>, call: Call, freed: seq<Handle>, at: seq<nat>)
    requires AreFrees(log, freed, at)
    ensures match call
            case CtxFree(h) => AreFrees(log + [call], freed + [h], at + [|log|])
            case _ => AreFrees(log + [call], freed, at)
  {
  }

  // ---- refinement ----

  lemma FreeLogAppend(log: seq<Call>, call: Call)
    ensures FreeLog(log + [call]) == FreeLog(log) + match call { case CtxFree(h) => [h] case _ => [] }
  {
  }

  lemma NewFrees(lib: Lib, family: TlsVersion, granted: bool)
    ensures FreeLog(New(lib, family, granted).log) == FreeLog(lib.log)
  {
  }

  lemma LoggedFrees(lib: Lib, call: Call)
    requires !call.CtxFree?
    ensures FreeLog(Logged(lib, call).log) == FreeLog(lib.log)
  {
  }

  lemma ReleasedFrees(lib: Lib, ctx: Option<Handle>)
    ensures FreeLog(Released(lib, ctx).log) == FreeLog(lib.log) + if ctx.Some? then [ctx.value] else []
  {
  }

  lemma ConfiguredFrees(lib: Lib, h: Handle, version: TlsVersion, names: seq<string>, accepted: bool)
    ensures FreeLog(Configured(lib, h, version, names, accepted).log) == FreeLog(lib.log)
    ensures Configured(lib, h, version, names, accepted).next == lib.next
  {
    var lib1 := WithMinVersion(lib, h, version);
    FreeLogAppend(lib.log, SetMinVersion(h, version));
    LoggedFrees(lib1, GetCertManager(Some(h)));
    FreeLogAppend(Logged(lib1, GetCertManager(Some(h))).log,
                  SetCipherList(h, CipherList.Installed(names), accepted));
  }

  /** The main constructor frees nothing, and uses up one handle if it allocates. */
  lemma ConstructedFrees(lib: Lib, code: int, names: seq<string>, granted: bool, accepted: bool)
    ensures var left := Constructed(lib, code, names, granted, accepted);
            && FreeLog(left.log) == FreeLog(lib.log)
            && left.next == lib.next + if Version(code).Some? && granted then 1 else 0
  {
    if Version(code).Some? {
      var version := Version(code).value;
      NewFrees(lib, version, granted);
      var lib1 := New(lib, version, granted);
      if granted {
        ConfiguredFrees(lib1, lib.next, version, names, accepted);
        LoggedFrees(Configured(lib1, lib.next, version, names, accepted), ErrorString);
      } else {
        LoggedFrees(lib1, ErrorString);
      }
    }
  }

  /** What binding a name does to the owners: it owns what its holder holds. */
  lemma OwnersBind(objects: map<Name, Holder>, x: Name, holder: Holder)
    ensures Owners(objects[x := holder])
         == if holder.ctx.Some? then Owners(objects)[x := holder.ctx.value] else Owners(objects) - {x}
  {
  }

  lemma ConstructRefines(w: World, x: Name, code: int, names: seq<string>, granted: bool, accepted: bool)
    requires x !in w.objects
    ensures Abstract(Constructs(w, x, code, names, granted, accepted))
         == AbstractConstruct(Abstract(w), x, code, granted, accepted)
  {
    var lib := CallOnce(w.initDone, w.lib);
    assert lib.next == w.lib.next && FreeLog(lib.log) == FreeLog(w.lib.log) by { LoggedFrees(w.lib, Init); }
    ConstructedFrees(lib, code, names, granted, accepted);
    var outcome := Outcome(lib, code, granted, accepted);
    var after := Constructs(w, x, code, names, granted, accepted);
    if outcome.Ok? {
      OwnersBind(w.objects, x, outcome.value);
      assert Owners(after.objects) == Owners(w.objects)[x := w.lib.next];
    } else {
      assert after.objects == w.objects;
    }
  }

  lemma CopyRefines(w: World, x: Name, granted: bool)
    requires x !in w.objects
    ensures Abstract(Copies(w, x, granted)) == if granted then Take(Abstract(w), x) else Abstract(w)
  {
    NewFrees(w.lib, Tls13, granted);
    LoggedFrees(New(w.lib, Tls13, granted), GetCertManager(Fresh(w.lib, granted)));
    OwnersBind(w.objects, x, Holder(Fresh(w.lib, granted), ManagerFor(Fresh(w.lib, granted))));
    assert Owners(w.objects) - {x} == Owners(w.objects);
  }

  lemma MoveRefines(w: World, x: Name, source: Name)
    requires x !in w.objects && source in w.objects
    ensures Abstract(Moves(w, x, source)) == Relabel(Abstract(w), source, x)
  {
  }

  lemma DestroyRefines(w: World, x: Name)
    requires x in w.objects
    ensures Abstract(Destroys(w, x)) == Drop(Abstract(w), x)
  {
    ReleasedFrees(w.lib, w.objects[x].ctx);
    assert Owners(w.objects - {x}) == Drop(Abstract(w), x).owner;
  }

  /** The library after a copy assignment: what the target held is freed, and one handle is used up. */
  lemma CopyAssignFrees(w: World, x: Name, granted: bool)
    requires x in w.objects
    ensures var lib := New(Released(w.lib, w.objects[x].ctx), Tls13, granted);
            && FreeLog(lib.log) == Drop(Abstract(w), x).freed
            && lib.next == w.lib.next + if granted then 1 else 0
  {
  }

  lemma CopyAssignRefines(w: World, x: Name, source: Name, granted: bool)
    requires x in w.objects && x != source
    ensures Abstract(AssignsCopy(w, x, source, granted))
         == if granted then Take(Drop(Abstract(w), x), x) else Drop(Abstract(w), x)
  {
    CopyAssignFrees(w, x, granted);
    var holder := w.objects[x].(ctx := Fresh(w.lib, granted));
    var dropped := Drop(Abstract(w), x);
    assert dropped.owner == Owners(w.objects) - {x};
    assert Owners(w.objects[x := holder]) == if granted then dropped.owner[x := w.lib.next] else dropped.owner by {
      OwnersBind(w.objects, x, holder);
    }
  }

  lemma MoveAssignRefines(w: World, x: Name, source: Name)
    requires x in w.objects && source in w.objects && x != source
    ensures Abstract(AssignsMove(w, x, source)) == Relabel(Drop(Abstract(w), x), source, x)
  {
    ReleasedFrees(w.lib, w.objects[x].ctx);
    assert Owners(AssignsMove(w, x, source).objects) == Relabel(Drop(Abstract(w), x), source, x).owner;
  }

  /** Every concrete step is the abstract step of the same operation. */
  lemma StepRefines(w: World, op: Op)
    requires Enabled(w, op)
    ensures Abstract(Step(w, op)) == AbstractStep(Abstract(w), op)
  {
    match op
    case Construct(x, version, names, granted, accepted) =>
      ConstructRefines(w, x, version, names, granted, accepted);
    case CopyConstruct(x, _, granted) => CopyRefines(w, x, granted);
    case MoveConstruct(x, source) => MoveRefines(w, x, source);
    case Destroy(x) => DestroyRefines(w, x);
    case CopyAssign(x, source, granted) =>
      if x != source { CopyAssignRefines(w, x, source, granted); }
    case MoveAssign(x, source) =>
      if x != source { MoveAssignRefines(w, x, source); }
  }

  /** Refinement over runs of any length. */
  lemma {:induction false} RunRefines(w: World, ops: seq<Op>)
    requires Legal(w, ops)
    ensures Abstract(Run(w, ops)) == AbstractRun(Abstract(w), ops)
    decreases |ops|
  {
    if ops != [] {
      StepRefines(w, ops[0]);
      RunRefines(Step(w, ops[0]), ops[1..]);
    }
  }

  // ---- what the abstract machine keeps ----

  ghost predicate Distinct(s: seq<Handle>) {
    forall i, j :: 0 <= i < j < |s| ==> s[i] != s[j]
  }

  /** No handle has two owners, no handle is freed twice, no owned handle has been freed, and all of them
      were handed out before. */
  ghost predicate Sound(s: Ownership) {
    && (forall x, y :: x in s.owner && y in s.owner && x != y ==> s.owner[x] != s.owner[y])
    && Distinct(s.freed)
    && (forall x :: x in s.owner ==> s.owner[x] !in s.freed && s.owner[x] < s.next)
    && (forall h <- s.freed :: h < s.next)
  }

  lemma DropSound(s: Ownership, x: Name)
    requires Sound(s)
    ensures Sound(Drop(s, x)) && x !in Drop(s, x).owner
  {
  }

  lemma RelabelSound(s: Ownership, source: Name, x: Name)
    requires Sound(s) && x !in s.owner
    ensures Sound(Relabel(s, source, x))
  {
  }

  /** The language's own rule, seen from above: a constructed object is new, and owns nothing yet. */
  ghost predicate Admissible(s: Ownership, op: Op) {
    (op.Construct? || op.CopyConstruct? || op.MoveConstruct?) ==> op.x !in s.owner
  }

  lemma StepSound(s: Ownership, op: Op)
    requires Sound(s) && Admissible(s, op)
    ensures Sound(AbstractStep(s, op))
  {
    match op
    case MoveConstruct(x, source) => RelabelSound(s, source, x);
    case Destroy(x) => DropSound(s, x);
    case CopyAssign(x, source, granted) => DropSound(s, x);
    case MoveAssign(x, source) =>
      DropSound(s, x);
      RelabelSound(Drop(s, x), source, x);
    case _ =>
  }

  lemma {:induction false} RunSound(w: World, ops: seq<Op>)
    requires Legal(w, ops) && Sound(Abstract(w))
    ensures Sound(AbstractRun(Abstract(w), ops))
    decreases |ops|
  {
    if ops != [] {
      StepSound(Abstract(w), ops[0]);
      StepRefines(w, ops[0]);
      RunSound(Step(w, ops[0]), ops[1..]);
    }
  }

  /** Every run from the start is a run of the ownership map, and what the map keeps holds of it. */
  lemma EveryRunIsAnOwnershipRun(ops: seq<Op>)
    requires Legal(START, ops)
    ensures Abstract(Run(START, ops)) == AbstractRun(Ownership(map[], 0, []), ops)
    ensures var s := Abstract(Run(START, ops));
            && (forall x, y :: x in s.owner && y in s.owner && x != y ==> s.owner[x] != s.owner[y])
            && (forall i, j :: 0 <= i < j < |s.freed| ==> s.freed[i] != s.freed[j])
            && (forall x :: x in s.owner ==> s.owner[x] !in s.freed)
  {
    assert Abstract(START) == Ownership(map[], 0, []);
    RunRefines(START, ops);
    RunSound(START, ops);
  }
}
