/**
 * The state machine of a program that uses SSL contexts: which context objects exist, what each of them
 * holds, and the native library they share. One step is one construction, assignment or destruction of
 * an object; a run is a sequence of any number of steps on any number of objects.
 */
module SslWorld {
  import opened Results
  import opened Native
  import opened CipherList

  /** The identity of an object. Two names for one object are one identity, so that assigning an object
      to itself through an alias is a step whose source and target are the same identity. */
  type Name = nat

  /** The two raw pointers of a context object. */
  datatype Holder = Holder(ctx: Option<Handle>, cm: Option<Manager>)

  const EMPTIED := Holder(None, None)

  datatype SslError =
    | UnsupportedVersion(code: int)
    | AllocationFailed
    | CipherListRejected

  /** `initDone` is the once flag that all context objects share. */
  datatype World = World(initDone: bool, lib: Lib, objects: map<Name, Holder>)

  const START := World(false, EMPTY_LIB, map[])

  /** `granted` and `accepted` are the answers of the environment. The version is the numeric value of
      the enumeration, which may be any integer. */
  datatype Op =
    | Construct(x: Name, version: int, names: seq<string>, granted: bool, accepted: bool)
    | CopyConstruct(x: Name, source: Name, granted: bool)
    | MoveConstruct(x: Name, source: Name)
    | Destroy(x: Name)
    | CopyAssign(x: Name, source: Name, granted: bool)
    | MoveAssign(x: Name, source: Name)

  /** What the language demands: an object is constructed once, and used while it exists. */
  predicate Enabled(w: World, op: Op) {
    match op
    case Construct(x, _, _, _, _) => x !in w.objects
    case CopyConstruct(x, source, _) => x !in w.objects && source in w.objects
    case MoveConstruct(x, source) => x !in w.objects && source in w.objects
    case Destroy(x) => x in w.objects
    case CopyAssign(x, source, _) => x in w.objects && source in w.objects
    case MoveAssign(x, source) => x in w.objects && source in w.objects
  }

  function Version(code: int): Option<TlsVersion> {
    if code == 0 then Some(Tls12) else if code == 1 then Some(Tls13) else None
  }

  /** The part of the main constructor that runs once in the life of the process. */
  function CallOnce(initDone: bool, lib: Lib): Lib {
    if initDone then lib else Logged(lib, Init)
  }

  /** The calls that set up a context once it is allocated. */
  function Configured(lib: Lib, h: Handle, version: TlsVersion, names: seq<string>, accepted: bool): Lib {
    WithCipherList(Logged(WithMinVersion(lib, h, version), GetCertManager(Some(h))), h, Installed(names), accepted)
  }

  /** What the main constructor leaves to its caller: an object, or an exception and no object. */
  function Outcome(lib: Lib, code: int, granted: bool, accepted: bool): Result<Holder, SslError> {
    if Version(code) == None then Err(UnsupportedVersion(code))
    else if !granted then Err(AllocationFailed)
    else if !accepted then Err(CipherListRejected)
    else Ok(Holder(Some(lib.next), Some(ManagerOf(lib.next))))
  }

  /** What the main constructor, after the once flag, leaves of the library. A rejected cipher list leaves
      the context allocated, and there is no object to free it. */
  function Constructed(lib: Lib, code: int, names: seq<string>, granted: bool, accepted: bool): Lib {
    match Version(code)
    case None => lib
    case Some(version) =>
      var lib1 := New(lib, version, granted);
      if !granted then Logged(lib1, ErrorString)
      else
        var lib2 := Configured(lib1, lib.next, version, names, accepted);
        if accepted then lib2 else Logged(lib2, ErrorString)
  }

  /** A main construction: the object exists unless the constructor threw. */
  function Constructs(w: World, x: Name, code: int, names: seq<string>, granted: bool, accepted: bool): World {
    var lib := CallOnce(w.initDone, w.lib);
    World(true, Constructed(lib, code, names, granted, accepted),
          match Outcome(lib, code, granted, accepted)
          case Ok(holder) => w.objects[x := holder]
          case Err(_) => w.objects)
  }

  /** Destruction and assignment free what the object holds, if it holds anything. */
  function Released(lib: Lib, ctx: Option<Handle>): Lib {
    match ctx
    case None => lib
    case Some(h) => Freed(lib, h)
  }

  /** A copy does not copy the context: it gets a new TLS 1.3 context, or none if allocation fails. */
  function Copies(w: World, x: Name, granted: bool): World {
    var ctx := Fresh(w.lib, granted);
    w.(lib := Logged(New(w.lib, Tls13, granted), GetCertManager(ctx)),
       objects := w.objects[x := Holder(ctx, ManagerFor(ctx))])
  }

  function Moves(w: World, x: Name, source: Name): World
    requires source in w.objects
  {
    w.(objects := w.objects[x := w.objects[source]][source := EMPTIED])
  }

  function Destroys(w: World, x: Name): World
    requires x in w.objects
  {
    w.(lib := Released(w.lib, w.objects[x].ctx), objects := w.objects - {x})
  }

  function AssignsCopy(w: World, x: Name, source: Name, granted: bool): World
    requires x in w.objects
  {
    if x == source then w
    else
      w.(lib := New(Released(w.lib, w.objects[x].ctx), Tls13, granted),
         objects := w.objects[x := w.objects[x].(ctx := Fresh(w.lib, granted))])
  }

  function AssignsMove(w: World, x: Name, source: Name): World
    requires x in w.objects && source in w.objects
  {
    if x == source then w
    else
      w.(lib := Released(w.lib, w.objects[x].ctx),
         objects := w.objects[x := w.objects[x].(ctx := w.objects[source].ctx)]
                             [source := w.objects[source].(ctx := None)])
  }

  function Step(w: World, op: Op): World
    requires Enabled(w, op)
  {
    match op
    case Construct(x, version, names, granted, accepted) => Constructs(w, x, version, names, granted, accepted)
    case CopyConstruct(x, source, granted) => Copies(w, x, granted)
    case MoveConstruct(x, source) => Moves(w, x, source)
    case Destroy(x) => Destroys(w, x)
    case CopyAssign(x, source, granted) => AssignsCopy(w, x, source, granted)
    case MoveAssign(x, source) => AssignsMove(w, x, source)
  }

  /** The exception a step raises, if any. Only the main constructor raises any. */
  function Raised(w: World, op: Op): Option<SslError> {
    match op
    case Construct(_, version, _, granted, accepted) =>
      var outcome := Outcome(CallOnce(w.initDone, w.lib), version, granted, accepted);
      if outcome.Ok? then None else Some(outcome.error)
    case _ => None
  }

  predicate Legal(w: World, ops: seq<Op>)
    decreases |ops|
  {
    ops == [] || (Enabled(w, ops[0]) && Legal(Step(w, ops[0]), ops[1..]))
  }

  function Run(w: World, ops: seq<Op>): World
    requires Legal(w, ops)
    decreases |ops|
  {
    if ops == [] then w else Run(Step(w, ops[0]), ops[1..])
  }

  /** A run of two parts is the run of the second part from where the first one ends. */
  lemma {:induction false} RunConcat(w: World, a: seq<Op>, b: seq<Op>)
    ensures Legal(w, a + b) <==> Legal(w, a) && Legal(Run(w, a), b)
    ensures Legal(w, a + b) ==> Run(w, a + b) == Run(Run(w, a), b)
    decreases |a|
  {
    if a == [] {
      assert a + b == b;
    } else {
      assert (a + b)[1..] == a[1..] + b;
      if Enabled(w, a[0]) {
        RunConcat(Step(w, a[0]), a[1..], b);
      }
    }
  }
}
