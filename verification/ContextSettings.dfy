/**
 * The settings of a context, its protocol version and its cipher string: who may change them, how long
 * they last, and where they go when objects are moved and copied.
 */
module ContextSettings {
  import opened Results
  import opened Native
  import opened NativeLog
  import opened CipherList
  import opened SslWorld
  import opened Ownership

  /** A context as the copy operations make it: TLS 1.3, with no minimum version and no cipher list set. */
  const DEFAULT := Context(Tls13, None, None)

  // ---- settings last until the context is freed ----

  /** A step touches the settings of no context that existed before it, and revives none. */
  lemma StepKeepsContext(w: World, op: Op, h: Handle)
    requires Enabled(w, op) && h < w.lib.next
    ensures h < Step(w, op).lib.next
    ensures h in Step(w, op).lib.live ==> h in w.lib.live && Step(w, op).lib.live[h] == w.lib.live[h]
  {
  }

  /** Nor does a whole run: a context that is live at the end has the settings it had at the beginning. */
  lemma {:induction false} RunKeepsContext(w: World, ops: seq<Op>, h: Handle)
    requires Legal(w, ops) && h < w.lib.next
    ensures h in Run(w, ops).lib.live ==> h in w.lib.live && Run(w, ops).lib.live[h] == w.lib.live[h]
    decreases |ops|
  {
    if ops != [] {
      StepKeepsContext(w, ops[0], h);
      RunKeepsContext(Step(w, ops[0]), ops[1..], h);
    }
  }

  /** A main construction that does not throw gives its object a new context of the requested version, with
      that version as its minimum and the joined cipher string installed. */
  lemma ConstructConfigures(w: World, op: Op)
    requires Enabled(w, op) && op.Construct? && Raised(w, op) == None
    ensures Version(op.version).Some?
    ensures var version, after := Version(op.version).value, Step(w, op);
            && Holds(after, op.x, w.lib.next)
            && w.lib.next in after.lib.live
            && after.lib.live[w.lib.next] == Context(version, Some(version), Some(Installed(op.names)))
  {
  }

  /** The main constructor by the numbers: which exception is raised when. Codes other than 0 and 1 are refused
      with their number, before anything is allocated. */
  lemma ConstructRaisesLiterally(w: World, x: Name, code: int, names: seq<string>, granted: bool, accepted: bool)
    ensures Raised(w, Op.Construct(x, code, names, granted, accepted)) ==
            if code != 0 && code != 1 then Some(UnsupportedVersion(code))
            else if !granted then Some(AllocationFailed)
            else if !accepted then Some(CipherListRejected)
            else None
  {
  }

  /** A granted context by the numbers: 0 makes a TLS 1.2 context and 1 a TLS 1.3 context, with that version as its
      minimum, and no other context changes. */
  lemma AllocatedLiterally(lib: Lib, code: int, names: seq<string>, accepted: bool)
    requires code == 0 || code == 1
    ensures Constructed(lib, code, names, true, accepted).live
         == lib.live[lib.next := if code == 0 then Context(Tls12, Some(Tls12), if accepted then Some(Installed(names)) else None)
                                 else Context(Tls13, Some(Tls13), if accepted then Some(Installed(names)) else None)]
  {
    var version := if code == 0 then Tls12 else Tls13;
    var lib1 := New(lib, version, true);
    var lib2 := WithMinVersion(lib1, lib.next, version);
    assert lib2.live == lib.live[lib.next := Context(version, Some(version), None)];
  }

  /** So in every reachable state: a construction that does not throw has code 0 or 1, and gives its object a new
      context of that version with the cipher string installed, which is empty if there are no names. */
  lemma ConstructLiterally(before: seq<Op>, x: Name, code: int, names: seq<string>, granted: bool, accepted: bool)
    requires Legal(START, before) && x !in Run(START, before).objects
    requires Raised(Run(START, before), Op.Construct(x, code, names, granted, accepted)) == None
    ensures code == 0 || code == 1
    ensures var w, after := Run(START, before), Step(Run(START, before), Op.Construct(x, code, names, granted, accepted));
            var h, text := w.lib.next, if names == [] then "" else Installed(names);
            && h !in w.lib.live
            && after.objects == w.objects[x := Holder(Some(h), Some(ManagerOf(h)))]
            && after.lib.live == w.lib.live[h := if code == 0 then Context(Tls12, Some(Tls12), Some(text))
                                                 else Context(Tls13, Some(Tls13), Some(text))]
  {
    var w := Run(START, before);
    assert w.lib.next !in w.lib.live by { RunKeepsInv(START, {}, before); }
    InstalledLiterally(names);
    ConstructRaisesLiterally(w, x, code, names, granted, accepted);
    AllocatedLiterally(CallOnce(w.initDone, w.lib), code, names, accepted);
  }

  /** Handles leaked from here on are new ones. */
  lemma OldIsNotLeaked(w: World, leaked: set<Handle>, ops: seq<Op>, h: Handle)
    requires Legal(w, ops) && h < w.lib.next && h !in leaked
    ensures h !in leaked + Leaked(w, ops)
  {
    LeakedIsYounger(w, ops);
  }

  /** What was created and is not live has been freed. */
  lemma {:induction false} NotLiveWasFreed(log: seq<Call>, h: Handle)
    requires h in Created(log) && h !in Live(log)
    ensures CtxFree(h) in log
    decreases |log|
  {
    var before, call := log[..|log| - 1], log[|log| - 1];
    assert log == before + [call];
    if h !in Frees(call) {
      NotLiveWasFreed(before, h);
    }
  }

  /** From the step that made it to the end of any run: the context of a main construction is live exactly
      while some object holds it; that object is the only one; the settings are the requested ones; and when
      nobody holds it any more it has been freed. */
  lemma MadeContextKeepsSettings(before: seq<Op>, op: Op, after: seq<Op>)
    requires Legal(START, before + [op] + after)
    requires Legal(START, before) && Enabled(Run(START, before), op)
    requires op.Construct? && Raised(Run(START, before), op) == None
    ensures Version(op.version).Some?
    ensures var h, w := Run(START, before).lib.next, Run(START, before + [op] + after);
            var version := Version(op.version).value;
            && (h in w.lib.live <==> exists y :: Holds(w, y, h))
            && (h in w.lib.live ==> w.lib.live[h] == Context(version, Some(version), Some(Installed(op.names))))
            && (forall y, z :: Holds(w, y, h) && Holds(w, z, h) ==> y == z)
            && (h !in w.lib.live ==> CtxFree(h) in w.lib.log)
  {
    var w0 := Run(START, before);
    var h := w0.lib.next;
    var w1 := Step(w0, op);
    RunConcat(START, before + [op], after);
    RunConcat(START, before, [op]);
    assert Run(w0, [op]) == w1 by { assert [op][1..] == []; }
    var lost := {} + Leaked(START, before);
    RunKeepsInv(START, {}, before);
    ConstructConfigures(w0, op);
    StepKeepsInv(w0, lost, op);
    assert lost + Leak(w0, op) == lost;
    HeldIsLive(w1, lost, op.x);
    RunKeepsContext(w1, after, h);
    RunKeepsInv(w1, lost, after);
    OldIsNotLeaked(w1, lost, after, h);
    var w := Run(w1, after);
    if h in w.lib.live {
      assert h in Owned(w.objects);
      var y :| y in w.objects && w.objects[y].ctx == Some(h);
      assert Holds(w, y, h);
    }
    if y :| Holds(w, y, h) {
      HeldIsLive(w, lost + Leaked(w1, after), y);
    }
    if h !in w.lib.live {
      LiveIsCreated(w1.lib.log);
      CreatedStays(w1, after, h);
      NotLiveWasFreed(w.lib.log, h);
    }
  }

  lemma {:induction false} CreatedGrows(log: seq<Call>, more: seq<Call>)
    ensures Created(log) <= Created(log + more)
    decreases |more|
  {
    if more == [] {
      assert log + more == log;
    } else {
      var but := more[..|more| - 1];
      CreatedGrows(log, but);
      assert log + more == (log + but) + [more[|more| - 1]];
      Appended(log + but, more[|more| - 1]);
    }
  }

  /** Calls are only ever added to the log. */
  lemma StepExtendsLog(w: World, op: Op)
    requires Enabled(w, op)
    ensures w.lib.log <= Step(w, op).lib.log
  {
  }

  lemma {:induction false} CreatedStays(w: World, ops: seq<Op>, h: Handle)
    requires Legal(w, ops) && h in Created(w.lib.log)
    ensures h in Created(Run(w, ops).lib.log)
    decreases |ops|
  {
    if ops != [] {
      var w1 := Step(w, ops[0]);
      StepExtendsLog(w, ops[0]);
      CreatedGrows(w.lib.log, w1.lib.log[|w.lib.log|..]);
      assert w.lib.log + w1.lib.log[|w.lib.log|..] == w1.lib.log;
      CreatedStays(w1, ops[1..], h);
    }
  }

  /** Any holder of a context made for colon-free and NUL-free names can read the names back from it. */
  lemma NamesReadBack(before: seq<Op>, op: Op, after: seq<Op>, y: Name)
    requires Legal(START, before + [op] + after)
    requires Legal(START, before) && Enabled(Run(START, before), op)
    requires op.Construct? && Raised(Run(START, before), op) == None
    requires Holds(Run(START, before + [op] + after), y, Run(START, before).lib.next)
    ensures var h, w := Run(START, before).lib.next, Run(START, before + [op] + after);
            && h in w.lib.live && w.lib.live[h].ciphers.Some?
            && (Split(w.lib.live[h].ciphers.value) == op.names
                <==> op.names != [] && ColonFree(op.names) && NulFree(op.names))
  {
    MadeContextKeepsSettings(before, op, after);
    InstalledReadsBackIff(op.names);
  }

  // ---- chains of moves ----

  /** A move of the context into a new object or into an existing one. */
  datatype Link = IntoNew(to: Name) | IntoOld(to: Name)

  function MoveOp(from: Name, link: Link): Op {
    match link
    case IntoNew(to) => MoveConstruct(to, from)
    case IntoOld(to) => MoveAssign(to, from)
  }

  function Chain(from: Name, links: seq<Link>): seq<Op>
    decreases |links|
  {
    if links == [] then [] else [MoveOp(from, links[0])] + Chain(links[0].to, links[1..])
  }

  function Last(from: Name, links: seq<Link>): Name {
    if links == [] then from else links[|links| - 1].to
  }

  /** One move: the target holds the context, with its settings, and nobody else does. Moving an object onto
      itself is such a move. */
  lemma MoveLink(w: World, leaked: set<Handle>, from: Name, link: Link, h: Handle)
    requires Inv(w, leaked) && Enabled(w, MoveOp(from, link)) && Holds(w, from, h)
    ensures var after := Step(w, MoveOp(from, link));
            && Inv(after, leaked) && Holds(after, link.to, h)
            && h in w.lib.live && h in after.lib.live && after.lib.live[h] == w.lib.live[h]
            && (from != link.to ==> after.objects[from].ctx == None)
  {
    var op := MoveOp(from, link);
    HeldIsLive(w, leaked, from);
    StepKeepsInv(w, leaked, op);
    assert leaked + Leak(w, op) == leaked;
    var after := Step(w, op);
    assert Holds(after, link.to, h);
    HeldIsLive(after, leaked, link.to);
    StepKeepsContext(w, op, h);
  }

  /** Any chain of move constructions and move assignments carries the context from the first object to the
      last one: settings unchanged, no other holder. */
  lemma {:induction false} MoveChain(w: World, leaked: set<Handle>, from: Name, links: seq<Link>, h: Handle)
    requires Inv(w, leaked) && Legal(w, Chain(from, links)) && Holds(w, from, h)
    ensures var after := Run(w, Chain(from, links));
            && Holds(after, Last(from, links), h)
            && (forall y :: Holds(after, y, h) ==> y == Last(from, links))
            && h in w.lib.live && h in after.lib.live && after.lib.live[h] == w.lib.live[h]
    decreases |links|
  {
    if links == [] {
      HeldIsLive(w, leaked, from);
    } else {
      assert Chain(from, links)[1..] == Chain(links[0].to, links[1..]);
      MoveLink(w, leaked, from, links[0], h);
      MoveChain(Step(w, MoveOp(from, links[0])), leaked, links[0].to, links[1..], h);
    }
  }

  // ---- copies ----

  /** The contexts that main constructions of a run allocated. */
  function MadeBy(w: World, op: Op): set<Handle> {
    if op.Construct? && Version(op.version).Some? && op.granted then {w.lib.next} else {}
  }

  function Made(w: World, ops: seq<Op>): set<Handle>
    requires Legal(w, ops)
    decreases |ops|
  {
    if ops == [] then {} else MadeBy(w, ops[0]) + Made(Step(w, ops[0]), ops[1..])
  }

  /** Live contexts have default settings exactly when no main construction made them. */
  ghost predicate Settled(w: World, made: set<Handle>) {
    && (forall h <- w.lib.live :: w.lib.live[h] == DEFAULT <==> h !in made)
    && (forall h <- w.lib.live :: h < w.lib.next)
    && (forall h <- made :: h < w.lib.next)
  }

  lemma StepSettled(w: World, made: set<Handle>, op: Op)
    requires Settled(w, made) && Enabled(w, op)
    ensures Settled(Step(w, op), made + MadeBy(w, op))
  {
    var after := Step(w, op);
    forall h | h in after.lib.live
      ensures h < after.lib.next && (after.lib.live[h] == DEFAULT <==> h !in made + MadeBy(w, op))
    {
      if h < w.lib.next {
        StepKeepsContext(w, op, h);
      }
    }
    assert w.lib.next <= after.lib.next;
  }

  lemma {:induction false} RunSettled(w: World, made: set<Handle>, ops: seq<Op>)
    requires Settled(w, made) && Legal(w, ops)
    ensures Settled(Run(w, ops), made + Made(w, ops))
    decreases |ops|
  {
    if ops == [] {
      assert made + Made(w, ops) == made;
    } else {
      var w1, now := Step(w, ops[0]), made + MadeBy(w, ops[0]);
      assert now + Made(w1, ops[1..]) == made + Made(w, ops);
      StepSettled(w, made, ops[0]);
      RunSettled(w1, now, ops[1..]);
    }
  }

  predicate Copying(op: Op) {
    (op.CopyConstruct? || (op.CopyAssign? && op.x != op.source)) && op.granted
  }

  /** A copy gets a context of its own with default settings. */
  lemma CopyIsDefault(w: World, op: Op)
    requires Enabled(w, op) && Copying(op)
    ensures var after := Step(w, op);
            Holds(after, op.x, w.lib.next) && w.lib.next in after.lib.live && after.lib.live[w.lib.next] == DEFAULT
  {
  }

  /** The source of a copy keeps its context. */
  lemma SourceKeepsContext(w: World, leaked: set<Handle>, op: Op, h: Handle)
    requires Inv(w, leaked) && Enabled(w, op) && Copying(op) && Holds(w, op.source, h)
    ensures var after := Step(w, op);
            && h in w.lib.live && h < w.lib.next && Holds(after, op.source, h)
            && h in after.lib.live && after.lib.live[h] == w.lib.live[h]
  {
    HeldIsLive(w, leaked, op.source);
    StepKeepsInv(w, leaked, op);
    assert Holds(Step(w, op), op.source, h);
    HeldIsLive(Step(w, op), leaked + Leak(w, op), op.source);
    StepKeepsContext(w, op, h);
  }

  /** A copy, by construction or by assignment, is a second context beside the source's, which stays as it
      is. What was explicitly set on the copy is what was explicitly set on the source only if no main
      construction made the source's context: version and cipher list of a main construction are not copied.
      The protocol family is kept exactly if the source's is TLS 1.3. */
  lemma CopyKeepsSettingsIff(ops: seq<Op>, op: Op, h: Handle)
    requires Legal(START, ops) && Enabled(Run(START, ops), op) && Copying(op)
    requires Holds(Run(START, ops), op.source, h)
    ensures var w, after := Run(START, ops), Step(Run(START, ops), op);
            var copy := w.lib.next;
            && copy != h && Holds(after, op.x, copy) && Holds(after, op.source, h)
            && copy in after.lib.live && h in after.lib.live
            && (after.lib.live[copy] == after.lib.live[h] <==> h !in Made(START, ops))
            && (after.lib.live[copy].family == after.lib.live[h].family <==> after.lib.live[h].family == Tls13)
  {
    var w := Run(START, ops);
    var lost := {} + Leaked(START, ops);
    assert Inv(w, lost) by { RunKeepsInv(START, {}, ops); }
    assert Settled(w, Made(START, ops)) by {
      RunSettled(START, {}, ops);
      assert {} + Made(START, ops) == Made(START, ops);
    }
    CopyIsDefault(w, op);
    SourceKeepsContext(w, lost, op, h);
  }

  /** A run whose copy has another protocol family and none of the ciphers: a construction for TLS 1.2, with any
      names, and a copy of its object. */
  lemma CopyLosesVersion(names: seq<string>)
    ensures var ops := [Op.Construct(0, 0, names, true, true), CopyConstruct(1, 0, true)];
            && Legal(START, ops)
            && var w := Run(START, ops);
            && Holds(w, 0, 0) && Holds(w, 1, 1) && w.lib.live.Keys == {0, 1}
            && w.lib.live[0] == Context(Tls12, Some(Tls12), Some(Installed(names)))
            && w.lib.live[1] == Context(Tls13, None, None)
  {
    var a, b := Op.Construct(0, 0, names, true, true), CopyConstruct(1, 0, true);
    assert [a, b][1..] == [b] && [b][1..] == [];
    ConstructedLive(CallOnce(false, EMPTY_LIB), 0, names, true, true);
    ConstructConfigures(START, a);
    var w1 := Step(START, a);
    assert w1.lib.next == 1 && w1.lib.live.Keys == {0};
    StepKeepsContext(w1, b, 0);
    CopyIsDefault(w1, b);
    assert Run(w1, [b]) == Step(w1, b);
  }
}
