/**
 * What a disciplined sequence of native calls is: the library is initialised first and once, a context
 * is used only while it is live, and no handle is created twice. All of it is read off the log of calls;
 * the allocator's own bookkeeping is tied to it by `Good`.
 */
module NativeLog {
  import opened Results
  import opened Native

  /** The handles a call passes to the library. */
  function Uses(call: Call): set<Handle> {
    match call
    case SetMinVersion(h, _) => {h}
    case GetCertManager(Some(h)) => {h}
    case SetCipherList(h, _, _) => {h}
    case CtxFree(h) => {h}
    case _ => {}
  }

  /** The handle a call creates, if any. */
  function Creates(call: Call): set<Handle> {
    match call
    case CtxNew(_, Some(h)) => {h}
    case _ => {}
  }

  function Frees(call: Call): set<Handle> {
    match call
    case CtxFree(h) => {h}
    case _ => {}
  }

  function Created(log: seq<Call>): set<Handle> {
    if log == [] then {} else Created(log[..|log| - 1]) + Creates(log[|log| - 1])
  }

  /** The contexts created and not yet freed. */
  function Live(log: seq<Call>): set<Handle> {
    if log == [] then {}
    else Live(log[..|log| - 1]) + Creates(log[|log| - 1]) - Frees(log[|log| - 1])
  }

  ghost predicate Disciplined(log: seq<Call>) {
    log == [] ||
    (var before, call := log[..|log| - 1], log[|log| - 1];
     && Disciplined(before)
     && Uses(call) <= Live(before)
     && Creates(call) !! Created(before))
  }

  /** Initialised exactly once, before every other call. */
  ghost predicate InitialisedFirst(log: seq<Call>) {
    && log != []
    && log[0] == Init
    && forall i :: 0 < i < |log| ==> log[i] != Init
  }

  /** A library on which only disciplined calls were made, and whose bookkeeping says so. */
  ghost predicate Good(lib: Lib) {
    && InitialisedFirst(lib.log)
    && Disciplined(lib.log)
    && Live(lib.log) == lib.live.Keys
    && (forall h <- Created(lib.log) :: h < lib.next)
    && (forall h <- lib.live :: h < lib.next)
  }

  lemma Appended(log: seq<Call>, call: Call)
    ensures Created(log + [call]) == Created(log) + Creates(call)
    ensures Live(log + [call]) == Live(log) + Creates(call) - Frees(call)
    ensures Disciplined(log + [call]) <==>
              Disciplined(log) && Uses(call) <= Live(log) && Creates(call) !! Created(log)
  {
  }

  lemma InitGood()
    ensures Good(Logged(EMPTY_LIB, Init))
  {
  }

  lemma LoggedGood(lib: Lib, call: Call)
    requires Good(lib)
    requires call != Init && Uses(call) <= lib.live.Keys && Creates(call) == Frees(call) == {}
    ensures Good(Logged(lib, call))
  {
  }

  lemma SettingGood(lib: Lib, h: Handle, version: TlsVersion, text: string, accepted: bool)
    requires Good(lib) && h in lib.live
    ensures Good(WithMinVersion(lib, h, version))
    ensures Good(WithCipherList(lib, h, text, accepted))
  {
    Appended(lib.log, SetMinVersion(h, version));
    Appended(lib.log, SetCipherList(h, text, accepted));
  }

  lemma NewGood(lib: Lib, family: TlsVersion, granted: bool)
    requires Good(lib)
    ensures Good(New(lib, family, granted))
  {
    Appended(lib.log, CtxNew(family, Fresh(lib, granted)));
  }

  lemma FreedGood(lib: Lib, h: Handle)
    requires Good(lib) && h in lib.live
    ensures Good(Freed(lib, h))
  {
  }

  /** Every prefix of a disciplined log is disciplined, and its last call was made on live contexts. */
  lemma {:induction false} CallAt(log: seq<Call>, i: nat)
    requires Disciplined(log) && i < |log|
    ensures Disciplined(log[..i])
    ensures Uses(log[i]) <= Live(log[..i])
    ensures Creates(log[i]) !! Created(log[..i])
    decreases |log|
  {
    if i < |log| - 1 {
      var before := log[..|log| - 1];
      CallAt(before, i);
      assert before[..i] == log[..i];
    }
  }

  /** What is live was created by an earlier call. */
  lemma {:induction false} LiveWasCreated(log: seq<Call>, h: Handle) returns (i: nat)
    requires h in Live(log)
    ensures i < |log| && h in Creates(log[i])
    decreases |log|
  {
    if h in Creates(log[|log| - 1]) {
      i := |log| - 1;
    } else {
      i := LiveWasCreated(log[..|log| - 1], h);
    }
  }

  lemma {:induction false} LiveIsCreated(log: seq<Call>)
    ensures Live(log) <= Created(log)
  {
    if log != [] {
      LiveIsCreated(log[..|log| - 1]);
    }
  }

  /** A freed handle stays dead. */
  lemma {:induction false} DeadAfterFree(log: seq<Call>, i: nat, j: nat, h: Handle)
    requires Disciplined(log) && i < j <= |log|
    requires log[i] == CtxFree(h)
    ensures h !in Live(log[..j]) && h in Created(log[..j])
    decreases j
  {
    var k := j - 1;
    assert log[..j][..k] == log[..k];
    CallAt(log, k);
    if k == i {
      LiveIsCreated(log[..k]);
    } else {
      DeadAfterFree(log, i, k, h);
    }
  }

  lemma {:induction false} CreatesIsCreated(log: seq<Call>, i: nat)
    requires i < |log|
    ensures Creates(log[i]) <= Created(log)
    decreases |log|
  {
    if i < |log| - 1 {
      CreatesIsCreated(log[..|log| - 1], i);
    }
  }

  /** No handle is created twice. */
  lemma CreatedOnce(log: seq<Call>, i: nat, j: nat, h: Handle)
    requires Disciplined(log) && i < j < |log| && h in Creates(log[i])
    ensures h !in Creates(log[j])
  {
    CallAt(log, j);
    CreatesIsCreated(log[..j], i);
  }

  /** Every handle passed to the library was created before: no call on a null or foreign context. */
  lemma UseFollowsCreation(log: seq<Call>, j: nat, h: Handle)
    requires Disciplined(log) && j < |log| && h in Uses(log[j])
    ensures exists i :: 0 <= i < j && h in Creates(log[i])
  {
    CallAt(log, j);
    var i := LiveWasCreated(log[..j], h);
  }

  /** No use after free, and so no second free. */
  lemma NoUseAfterFree(log: seq<Call>, i: nat, j: nat, h: Handle)
    requires Disciplined(log) && i < j < |log| && log[i] == CtxFree(h)
    ensures h !in Uses(log[j]) && h !in Creates(log[j])
  {
    DeadAfterFree(log, i, j, h);
    CallAt(log, j);
  }
}
