/**
 * The context class and a program that holds any number of its objects, both updated in place. Each
 * method is tied to the state machine of `SslWorld`, where the properties of runs are proved.
 */
module Contexts {
  import opened Results
  import opened Native
  import opened CipherList
  import opened SslWorld

  /** The once flag shared by all contexts. */
  class OnceFlag {
    var called: bool

    constructor ()
      ensures !called
    {
      called := false;
    }

    method CallOnce(lib: Library)
      modifies this, lib
      ensures called
      ensures lib.State() == SslWorld.CallOnce(old(called), old(lib.State()))
    {
      if !called {
        lib.Initialise();
        called := true;
      }
    }
  }

  /** The options the main constructor reads. They stay with their owner, who may change them later. */
  class SslOptions {
    var minimumSupportedProtocolVersion: int
    var ciphers: seq<string>

    constructor (minimumSupportedProtocolVersion: int, ciphers: seq<string>)
      ensures this.minimumSupportedProtocolVersion == minimumSupportedProtocolVersion && this.ciphers == ciphers
    {
      this.minimumSupportedProtocolVersion := minimumSupportedProtocolVersion;
      this.ciphers := ciphers;
    }
  }

  class SslContext {
    const options: SslOptions
    var ctx: Option<Handle>
    var cm: Option<Manager>

    ghost function State(): Holder
      reads this
    {
      Holder(ctx, cm)
    }

    /** The storage of an object whose constructor has bound its references and not yet run its body. */
    constructor Storage(options: SslOptions)
      ensures this.options == options && State() == EMPTIED
    {
      this.options := options;
      ctx, cm := None, None;
    }

    /** The main constructor. When it throws there is no object, and no destructor will run. */
    static method Construct(lib: Library, once: OnceFlag, options: SslOptions, granted: bool, accepted: bool)
      returns (made: Result<SslContext, SslError>)
      modifies lib, once
      ensures once.called
      ensures made.Ok? ==> fresh(made.value) && made.value.options == options
      ensures var lib0 := SslWorld.CallOnce(old(once.called), old(lib.State()));
              var code := options.minimumSupportedProtocolVersion;
              && lib.State() == Constructed(lib0, code, options.ciphers, granted, accepted)
              && match made
                 case Ok(self) => Outcome(lib0, code, granted, accepted) == Ok(self.State())
                 case Err(error) => Outcome(lib0, code, granted, accepted) == Err(error)
    {
      once.CallOnce(lib);
      var self := new SslContext.Storage(options);
      if options.minimumSupportedProtocolVersion == 0 {
        self.ctx := lib.Allocate(Tls12, granted);
        if self.ctx == None {
          lib.LastError();
          return Err(AllocationFailed);
        }
        lib.SetMinimumVersion(self.ctx.value, Tls12);
      } else if options.minimumSupportedProtocolVersion == 1 {
        self.ctx := lib.Allocate(Tls13, granted);
        if self.ctx == None {
          lib.LastError();
          return Err(AllocationFailed);
        }
        lib.SetMinimumVersion(self.ctx.value, Tls13);
      } else {
        return Err(UnsupportedVersion(options.minimumSupportedProtocolVersion));
      }
      self.cm := lib.CertManager(self.ctx);
      lib.SetCiphers(self.ctx.value, Installed(options.ciphers), accepted);
      if !accepted {
        lib.LastError();
        return Err(CipherListRejected);
      }
      made := Ok(self);
    }

    constructor Copy(lib: Library, other: SslContext, granted: bool)
      modifies lib
      ensures options == other.options
      ensures var handle := Fresh(old(lib.State()), granted);
              && lib.State() == Logged(New(old(lib.State()), Tls13, granted), GetCertManager(handle))
              && State() == Holder(handle, ManagerFor(handle))
    {
      options := other.options;
      new;
      ctx := lib.Allocate(Tls13, granted);
      cm := lib.CertManager(ctx);
    }

    constructor Move(other: SslContext)
      modifies other
      ensures options == other.options
      ensures State() == old(other.State()) && other.State() == EMPTIED
    {
      options := other.options;
      ctx := other.ctx;
      cm := other.cm;
      new;
      other.ctx := None;
      other.cm := None;
    }

    method Destruct(lib: Library)
      modifies lib
      ensures lib.State() == Released(old(lib.State()), ctx)
    {
      if ctx != None {
        lib.Free(ctx.value);
      }
    }

    /** Copy assignment: a new context takes the place of the old one; the certificate manager stays. */
    method AssignCopy(lib: Library, other: SslContext, granted: bool)
      modifies this, lib
      ensures this == other ==> State() == old(State()) && lib.State() == old(lib.State())
      ensures this != other ==>
                && lib.State() == New(Released(old(lib.State()), old(ctx)), Tls13, granted)
                && State() == Holder(Fresh(old(lib.State()), granted), old(cm))
    {
      if this != other {
        if ctx != None {
          lib.Free(ctx.value);
        }
        ctx := lib.Allocate(Tls13, granted);
      }
    }

    /** Move assignment: the context moves; both certificate managers stay. */
    method AssignMove(lib: Library, other: SslContext)
      modifies this, other, lib
      ensures this == other ==> State() == old(State()) && lib.State() == old(lib.State())
      ensures this != other ==>
                && lib.State() == Released(old(lib.State()), old(ctx))
                && State() == Holder(old(other.ctx), old(cm))
                && other.State() == Holder(None, old(other.cm))
    {
      if this != other {
        if ctx != None {
          lib.Free(ctx.value);
        }
        ctx := other.ctx;
        other.ctx := None;
      }
    }
  }

  /** A program: the objects that exist, the once flag and the library. */
  class Program {
    const lib: Library
    const once: OnceFlag
    var objects: map<Name, SslContext>

    /** Different identities are different objects. */
    ghost predicate Valid()
      reads this
    {
      forall x, y :: x in objects && y in objects && x != y ==> objects[x] != objects[y]
    }

    ghost function State(): World
      reads this, lib, once, objects.Values
    {
      World(once.called, lib.State(), Holders())
    }

    ghost function Holders(): map<Name, Holder>
      reads this, objects.Values
    {
      map x | x in objects :: objects[x].State()
    }

    constructor ()
      ensures Valid() && State() == START
      ensures fresh(lib) && fresh(once) && objects == map[]
    {
      lib := new Library();
      once := new OnceFlag();
      objects := map[];
    }

    /** A constructed object gets its identity. */
    method Bind(x: Name, self: SslContext)
      requires Valid() && x !in objects && self !in objects.Values
      modifies this
      ensures Valid() && objects == old(objects)[x := self]
      ensures Holders() == old(Holders())[x := self.State()]
    {
      objects := objects[x := self];
    }

    method Construct(x: Name, options: SslOptions, granted: bool, accepted: bool) returns (raised: Option<SslError>)
      requires Valid() && x !in objects
      modifies this, lib, once, objects.Values
      ensures Valid() && fresh(objects.Values - old(objects.Values))
      ensures State() == Constructs(old(State()), x, options.minimumSupportedProtocolVersion,
                                    options.ciphers, granted, accepted)
      ensures raised == Raised(old(State()), Op.Construct(x, options.minimumSupportedProtocolVersion,
                                                          options.ciphers, granted, accepted))
    {
      var made := SslContext.Construct(lib, once, options, granted, accepted);
      assert Holders() == old(Holders());
      raised := None;
      if made.Ok? {
        Bind(x, made.value);
      } else {
        raised := Some(made.error);
      }
    }

    method Copy(x: Name, source: Name, granted: bool)
      requires Valid() && x !in objects && source in objects
      modifies this, lib, once, objects.Values
      ensures Valid() && fresh(objects.Values - old(objects.Values))
      ensures State() == Copies(old(State()), x, granted)
    {
      var copy := new SslContext.Copy(lib, objects[source], granted);
      assert Holders() == old(Holders());
      Bind(x, copy);
    }

    method Move(x: Name, source: Name)
      requires Valid() && x !in objects && source in objects
      modifies this, lib, once, objects.Values
      ensures Valid() && fresh(objects.Values - old(objects.Values))
      ensures State() == Moves(old(State()), x, source)
    {
      var from := objects[source];
      var moved := new SslContext.Move(from);
      assert Holders() == old(Holders())[source := EMPTIED];
      Bind(x, moved);
      assert Holders() == old(Holders())[x := moved.State()][source := EMPTIED];
    }

    method Destruct(x: Name)
      requires Valid() && x in objects
      modifies this, lib, once, objects.Values
      ensures Valid() && fresh(objects.Values - old(objects.Values))
      ensures State() == Destroys(old(State()), x)
    {
      objects[x].Destruct(lib);
      objects := objects - {x};
    }

    method AssignCopy(x: Name, source: Name, granted: bool)
      requires Valid() && x in objects && source in objects
      modifies this, lib, once, objects.Values
      ensures Valid() && fresh(objects.Values - old(objects.Values))
      ensures State() == AssignsCopy(old(State()), x, source, granted)
    {
      objects[x].AssignCopy(lib, objects[source], granted);
    }

    method AssignMove(x: Name, source: Name)
      requires Valid() && x in objects && source in objects
      modifies this, lib, once, objects.Values
      ensures Valid() && fresh(objects.Values - old(objects.Values))
      ensures State() == AssignsMove(old(State()), x, source)
    {
      objects[x].AssignMove(lib, objects[source]);
    }

    /** One step of a run: what the objects hold afterwards is what the state machine says, and an
        exception is raised exactly when it says so. */
    method Execute(op: Op) returns (raised: Option<SslError>)
      requires Valid() && Enabled(State(), op)
      modifies this, lib, once, objects.Values
      ensures Valid() && fresh(objects.Values - old(objects.Values))
      ensures State() == Step(old(State()), op)
      ensures raised == Raised(old(State()), op)
    {
      raised := None;
      if op.Construct? {
        var options := new SslOptions(op.version, op.names);
        raised := Construct(op.x, options, op.granted, op.accepted);
      } else if op.CopyConstruct? {
        Copy(op.x, op.source, op.granted);
      } else if op.MoveConstruct? {
        Move(op.x, op.source);
      } else if op.Destroy? {
        Destruct(op.x);
      } else if op.CopyAssign? {
        AssignCopy(op.x, op.source, op.granted);
      } else {
        AssignMove(op.x, op.source);
      }
    }

    /** A whole run on real objects ends where the run of the state machine ends. */
    method Perform(ops: seq<Op>)
      requires Valid() && Legal(State(), ops)
      modifies this, lib, once, objects.Values
      ensures Valid() && fresh(objects.Values - old(objects.Values))
      ensures State() == Run(old(State()), ops)
    {
      var i := 0;
      while i < |ops|
        invariant 0 <= i <= |ops|
        invariant Valid() && fresh(objects.Values - old(objects.Values))
        invariant Legal(State(), ops[i..])
        invariant Run(State(), ops[i..]) == Run(old(State()), ops)
      {
        assert ops[i..][1..] == ops[i + 1..];
        var _ := Execute(ops[i]);
        i := i + 1;
      }
    }
  }
}
