/**
 * The native TLS library, as far as the wrapper drives it: an initialisation call, an allocator of
 * contexts that may return null, two settings on a context, its certificate manager, and free.
 *
 * A handle is an allocation identity: the address together with the allocation that produced it. An
 * address that the native allocator hands out again is a new handle, so a pointer kept across a free
 * never names the new allocation.
 *
 * `Lib` is the state as a value, with one transition per native call. `Library` is the object that the
 * program shares and that the calls update. Nothing here forbids a wrong call: a free of a handle that
 * is not live leaves the contexts alone and is written to the log like any other call.
 */
module Native {
  import opened Results

  type Handle = nat

  datatype TlsVersion = Tls12 | Tls13

  /** A certificate manager belongs to the context it was created with. */
  datatype Manager = ManagerOf(owner: Handle)

  /** A context: the client method it was made for and what was set on it since. */
  datatype Context = Context(family: TlsVersion, minVersion: Option<TlsVersion>, ciphers: Option<string>)

  /** Every native call, with its result where it has one. */
  datatype Call =
    | Init
    | CtxNew(family: TlsVersion, result: Option<Handle>)
    | SetMinVersion(ctx: Handle, version: TlsVersion)
    | GetCertManager(of: Option<Handle>)
    | SetCipherList(ctx: Handle, text: string, accepted: bool)
    | ErrorString
    | CtxFree(ctx: Handle)

  datatype Lib = Lib(next: Handle, live: map<Handle, Context>, log: seq<Call>)

  const EMPTY_LIB := Lib(0, map[], [])

  function Logged(lib: Lib, call: Call): Lib {
    lib.(log := lib.log + [call])
  }

  /** The result of an allocation: a handle never seen before, or null. */
  function Fresh(lib: Lib, granted: bool): Option<Handle> {
    if granted then Some(lib.next) else None
  }

  function New(lib: Lib, family: TlsVersion, granted: bool): Lib {
    Logged(if granted then Lib(lib.next + 1, lib.live[lib.next := Context(family, None, None)], lib.log) else lib,
           CtxNew(family, Fresh(lib, granted)))
  }

  function WithMinVersion(lib: Lib, h: Handle, version: TlsVersion): Lib {
    Logged(if h in lib.live then lib.(live := lib.live[h := lib.live[h].(minVersion := Some(version))]) else lib,
           SetMinVersion(h, version))
  }

  function WithCipherList(lib: Lib, h: Handle, text: string, accepted: bool): Lib {
    Logged(if accepted && h in lib.live then lib.(live := lib.live[h := lib.live[h].(ciphers := Some(text))]) else lib,
           SetCipherList(h, text, accepted))
  }

  /** The manager of a context; a null context has none. */
  function ManagerFor(ctx: Option<Handle>): Option<Manager> {
    match ctx
    case None => None
    case Some(h) => Some(ManagerOf(h))
  }

  function Freed(lib: Lib, h: Handle): Lib {
    Logged(lib.(live := lib.live - {h}), CtxFree(h))
  }

  /** The library as the program sees it. What the environment decides, whether an allocation succeeds
      and whether a cipher list is accepted, comes in as a parameter. */
  class Library {
    var next: Handle
    var live: map<Handle, Context>
    var log: seq<Call>

    ghost function State(): Lib
      reads this
    {
      Lib(next, live, log)
    }

    constructor ()
      ensures State() == EMPTY_LIB
    {
      next, live, log := 0, map[], [];
    }

    method Initialise()
      modifies this
      ensures State() == Logged(old(State()), Init)
    {
      log := log + [Init];
    }

    method Allocate(family: TlsVersion, granted: bool) returns (ctx: Option<Handle>)
      modifies this
      ensures State() == New(old(State()), family, granted)
      ensures ctx == Fresh(old(State()), granted)
    {
      if granted {
        ctx := Some(next);
        live := live[next := Context(family, None, None)];
        next := next + 1;
      } else {
        ctx := None;
      }
      log := log + [CtxNew(family, ctx)];
    }

    method SetMinimumVersion(h: Handle, version: TlsVersion)
      modifies this
      ensures State() == WithMinVersion(old(State()), h, version)
    {
      if h in live {
        live := live[h := live[h].(minVersion := Some(version))];
      }
      log := log + [SetMinVersion(h, version)];
    }

    method CertManager(ctx: Option<Handle>) returns (cm: Option<Manager>)
      modifies this
      ensures State() == Logged(old(State()), GetCertManager(ctx))
      ensures cm == ManagerFor(ctx)
    {
      log := log + [GetCertManager(ctx)];
      cm := ManagerFor(ctx);
    }

    method SetCiphers(h: Handle, text: string, accepted: bool)
      modifies this
      ensures State() == WithCipherList(old(State()), h, text, accepted)
    {
      if accepted && h in live {
        live := live[h := live[h].(ciphers := Some(text))];
      }
      log := log + [SetCipherList(h, text, accepted)];
    }

    method LastError()
      modifies this
      ensures State() == Logged(old(State()), ErrorString)
    {
      log := log + [ErrorString];
    }

    method Free(h: Handle)
      modifies this
      ensures State() == Freed(old(State()), h)
    {
      live := live - {h};
      log := log + [CtxFree(h)];
    }
  }
}
