/**
 * The certificate manager pointer beside the context pointer: when it is the manager of the object's own
 * context. Construction and destruction keep the two together. The assignment operators replace `ctx`
 * and leave `cm`, so they keep them together only where nothing is replaced.
 */
module CertManagers {
  import opened Results
  import opened Native
  import opened NativeLog
  import opened SslWorld
  import opened Ownership
  import opened ContextSettings

  /** Every object's certificate manager is that of its own context, and null exactly when that is. */
  ghost predicate Consistent(w: World) {
    forall x :: x in w.objects ==> w.objects[x].cm == ManagerFor(w.objects[x].ctx)
  }

  predicate Assignment(op: Op) {
    op.CopyAssign? || op.MoveAssign?
  }

  /** An assignment between different objects that replaces a pointer: the target holds a context, or is
      given one. The caller can tell from the two native handles (and the allocator's answer). */
  predicate Separates(w: World, op: Op)
    requires Enabled(w, op)
  {
    match op
    case CopyAssign(x, source, granted) => x != source && (w.objects[x].ctx.Some? || granted)
    case MoveAssign(x, source) => x != source && (w.objects[x].ctx.Some? || w.objects[source].ctx.Some?)
    case _ => false
  }

  /** A step from a consistent state ends in a consistent state exactly when it does not separate. */
  lemma StepConsistentIff(w: World, leaked: set<Handle>, op: Op)
    requires Inv(w, leaked) && Consistent(w) && Enabled(w, op)
    ensures Consistent(Step(w, op)) <==> !Separates(w, op)
  {
    match op {
      case CopyAssign(x, source, granted) =>
        if w.objects[x].ctx.Some? {
          HeldIsLive(w, leaked, x);
        }
        if Separates(w, op) {
          assert Step(w, op).objects[x].cm != ManagerFor(Step(w, op).objects[x].ctx);
        }
      case MoveAssign(x, source) =>
        if Separates(w, op) {
          var h := if w.objects[x].ctx.Some? then w.objects[x].ctx.value else w.objects[source].ctx.value;
          assert Holds(w, x, h) && Holds(w, source, h) ==> x == source;
          assert Step(w, op).objects[x].cm != ManagerFor(Step(w, op).objects[x].ctx);
        }
      case _ =>
    }
  }

  ghost predicate AlwaysConsistent(w: World, ops: seq<Op>)
    requires Legal(w, ops)
    decreases |ops|
  {
    Consistent(w) && (ops == [] || AlwaysConsistent(Step(w, ops[0]), ops[1..]))
  }

  predicate NeverSeparates(w: World, ops: seq<Op>)
    requires Legal(w, ops)
    decreases |ops|
  {
    ops == [] || (!Separates(w, ops[0]) && NeverSeparates(Step(w, ops[0]), ops[1..]))
  }

  /** Over any run the certificate managers stay right exactly as long as no assignment separates them. */
  lemma {:induction false} RunConsistentIff(w: World, leaked: set<Handle>, ops: seq<Op>)
    requires Inv(w, leaked) && Consistent(w) && Legal(w, ops)
    ensures AlwaysConsistent(w, ops) <==> NeverSeparates(w, ops)
    decreases |ops|
  {
    if ops != [] {
      StepConsistentIff(w, leaked, ops[0]);
      StepKeepsInv(w, leaked, ops[0]);
      if Consistent(Step(w, ops[0])) {
        RunConsistentIff(Step(w, ops[0]), leaked + Leak(w, ops[0]), ops[1..]);
      }
    }
  }

  lemma {:induction false} NoAssignmentNeverSeparates(w: World, ops: seq<Op>)
    requires Legal(w, ops) && forall op <- ops :: !Assignment(op)
    ensures NeverSeparates(w, ops)
    decreases |ops|
  {
    if ops != [] {
      assert !Assignment(ops[0]);
      NoAssignmentNeverSeparates(Step(w, ops[0]), ops[1..]);
    }
  }

  lemma {:induction false} AlwaysMeansAtTheEnd(w: World, ops: seq<Op>)
    requires Legal(w, ops) && AlwaysConsistent(w, ops)
    ensures Consistent(Run(w, ops))
    decreases |ops|
  {
    if ops != [] {
      AlwaysMeansAtTheEnd(Step(w, ops[0]), ops[1..]);
    }
  }

  /** In every run of constructions and destructions every certificate manager is right. */
  lemma ConsistentWithoutAssignment(ops: seq<Op>)
    requires Legal(START, ops) && forall op <- ops :: !Assignment(op)
    ensures Consistent(Run(START, ops))
  {
    NoAssignmentNeverSeparates(START, ops);
    RunConsistentIff(START, {}, ops);
    AlwaysMeansAtTheEnd(START, ops);
  }

  /** Where the manager pointer of each object comes from, step by step: a new context's own, the source's by move
      construction, and otherwise it stays, whatever becomes of the context. */
  lemma ManagerAfter(w: World, op: Op, y: Name)
    requires Enabled(w, op) && y in Step(w, op).objects
    ensures var after := Step(w, op).objects[y];
            after.cm ==
            if (op.Construct? || op.CopyConstruct?) && y == op.x then
              if after.ctx == None then None else Some(ManagerOf(w.lib.next))
            else if op.MoveConstruct? && y == op.x then w.objects[op.source].cm
            else if op.MoveConstruct? && y == op.source then None
            else w.objects[y].cm
  {
  }

  /** Move constructions, any number of them in a row, carry both pointers along, also where they have come apart. */
  lemma {:induction false} MovesCarryManager(w: World, from: Name, links: seq<Link>)
    requires from in w.objects && Legal(w, Chain(from, links)) && forall link <- links :: link.IntoNew?
    ensures var after := Run(w, Chain(from, links)).objects;
            && Last(from, links) in after && after[Last(from, links)] == w.objects[from]
            && (links != [] ==> from in after && after[from] == Holder(None, None))
    decreases |links|
  {
    if links != [] {
      var w1, to := Step(w, MoveOp(from, links[0])), links[0].to;
      assert Chain(from, links)[1..] == Chain(to, links[1..]);
      MovesCarryManager(w1, to, links[1..]);
      NewNamesOnly(w1, to, links[1..], from);
    }
  }

  /** An object that a chain of move constructions does not start from is left alone by it. */
  lemma {:induction false} NewNamesOnly(w: World, from: Name, links: seq<Link>, y: Name)
    requires from in w.objects && Legal(w, Chain(from, links)) && forall link <- links :: link.IntoNew?
    requires y in w.objects && y != from
    ensures y in Run(w, Chain(from, links)).objects && Run(w, Chain(from, links)).objects[y] == w.objects[y]
    decreases |links|
  {
    if links != [] {
      assert Chain(from, links)[1..] == Chain(links[0].to, links[1..]);
      NewNamesOnly(Step(w, MoveOp(from, links[0])), links[0].to, links[1..], y);
    }
  }

  /** Two constructions that succeed, whatever versions and ciphers they ask for. */
  lemma TwoObjects(code: int, names: seq<string>, code': int, names': seq<string>)
    requires Version(code).Some? && Version(code').Some?
    ensures var ops := [Op.Construct(0, code, names, true, true), Op.Construct(1, code', names', true, true)];
            && Legal(START, ops)
            && var w := Run(START, ops);
            && w.objects == map[0 := Holder(Some(0), Some(ManagerOf(0))), 1 := Holder(Some(1), Some(ManagerOf(1)))]
            && w.lib.next == 2 && w.lib.live.Keys == {0, 1}
  {
    var a, b := Op.Construct(0, code, names, true, true), Op.Construct(1, code', names', true, true);
    assert [a, b][1..] == [b] && [b][1..] == [];
    ConstructedLive(CallOnce(false, EMPTY_LIB), code, names, true, true);
    var w1 := Step(START, a);
    assert w1.objects == map[0 := Holder(Some(0), Some(ManagerOf(0)))];
    assert w1.lib.next == 1 && w1.initDone;
    ConstructedLive(w1.lib, code', names', true, true);
    var w2 := Step(w1, b);
    assert Run(w1, [b]) == w2;
  }

  /** Runs that end with a dangling manager. Two objects are constructed and the second is copied onto the
      first: the manager of the first is still that of the context which the assignment has freed. */
  lemma CopyAssignmentDangles(code: int, names: seq<string>, code': int, names': seq<string>)
    requires Version(code).Some? && Version(code').Some?
    ensures var ops := [Op.Construct(0, code, names, true, true), Op.Construct(1, code', names', true, true)]
                       + [CopyAssign(0, 1, true)];
            && Legal(START, ops)
            && var w := Run(START, ops);
            && 0 in w.objects && w.objects[0] == Holder(Some(2), Some(ManagerOf(0)))
            && 0 !in w.lib.live && 2 in w.lib.live
            && !Consistent(w)
  {
    TwoObjects(code, names, code', names');
    var made := [Op.Construct(0, code, names, true, true), Op.Construct(1, code', names', true, true)];
    RunThenStep(made, CopyAssign(0, 1, true));
    var w := Run(START, made + [CopyAssign(0, 1, true)]);
    assert w.objects[0].cm != ManagerFor(w.objects[0].ctx);
  }

  /** The same with a move: the first object's manager dangles, and the second object, which holds no context
      any more, still has the manager of the context it gave away. */
  lemma MoveAssignmentDangles(code: int, names: seq<string>, code': int, names': seq<string>)
    requires Version(code).Some? && Version(code').Some?
    ensures var ops := [Op.Construct(0, code, names, true, true), Op.Construct(1, code', names', true, true)]
                       + [MoveAssign(0, 1)];
            && Legal(START, ops)
            && var w := Run(START, ops);
            && 0 in w.objects && w.objects[0] == Holder(Some(1), Some(ManagerOf(0)))
            && 1 in w.objects && w.objects[1] == Holder(None, Some(ManagerOf(1)))
            && 0 !in w.lib.live && 1 in w.lib.live
            && !Consistent(w)
  {
    TwoObjects(code, names, code', names');
    var made := [Op.Construct(0, code, names, true, true), Op.Construct(1, code', names', true, true)];
    RunThenStep(made, MoveAssign(0, 1));
    var w := Run(START, made + [MoveAssign(0, 1)]);
    assert w.objects[0].cm != ManagerFor(w.objects[0].ctx);
  }

  lemma RunThenStep(ops: seq<Op>, op: Op)
    requires Legal(START, ops) && Enabled(Run(START, ops), op)
    ensures Legal(START, ops + [op]) && Run(START, ops + [op]) == Step(Run(START, ops), op)
  {
    assert [op][1..] == [];
    RunConcat(START, ops, [op]);
  }
}
