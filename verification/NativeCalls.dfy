/**
 * Every native call of every operation, in order. The log says what a program asks of the library; here it is
 * spelled out, operation by operation, what each of them adds to it.
 */
module NativeCalls {
  import opened Results
  import opened Native
  import opened CipherList
  import opened SslWorld

  /** Main construction: initialisation if it is the first one; no further call for a version that is refused; a
      null context is asked about once; otherwise version, manager and ciphers are seen to, and a rejection is
      asked about. */
  lemma ConstructCalls(w: World, x: Name, code: int, names: seq<string>, granted: bool, accepted: bool)
    requires x !in w.objects
    ensures var op := Op.Construct(x, code, names, granted, accepted);
            var once := if w.initDone then [] else [Init];
            var h, version := w.lib.next, if code == 0 then Tls12 else Tls13;
            Step(w, op).lib.log == w.lib.log + once +
            if code != 0 && code != 1 then []
            else if !granted then [CtxNew(version, None), ErrorString]
            else [CtxNew(version, Some(h)), SetMinVersion(h, version), GetCertManager(Some(h)),
                  SetCipherList(h, Installed(names), accepted)] + if accepted then [] else [ErrorString]
  {
  }

  /** Copy construction: a new TLS 1.3 context, and the manager of what was obtained. */
  lemma CopyCalls(w: World, x: Name, source: Name, granted: bool)
    requires x !in w.objects && source in w.objects
    ensures var ctx := if granted then Some(w.lib.next) else None;
            Step(w, CopyConstruct(x, source, granted)).lib.log == w.lib.log + [CtxNew(Tls13, ctx), GetCertManager(ctx)]
  {
  }

  /** Moving into a new object asks nothing. */
  lemma MoveCalls(w: World, x: Name, source: Name)
    requires x !in w.objects && source in w.objects
    ensures Step(w, MoveConstruct(x, source)).lib == w.lib
  {
  }

  /** Destruction frees what is held. */
  lemma DestroyCalls(w: World, x: Name)
    requires x in w.objects
    ensures Step(w, Destroy(x)).lib.log
         == w.lib.log + if w.objects[x].ctx.Some? then [CtxFree(w.objects[x].ctx.value)] else []
  {
  }

  /** Copy assignment frees what is held first, then asks for a new TLS 1.3 context; onto itself, nothing. */
  lemma CopyAssignCalls(w: World, x: Name, source: Name, granted: bool)
    requires x in w.objects && source in w.objects
    ensures var freed := if w.objects[x].ctx.Some? then [CtxFree(w.objects[x].ctx.value)] else [];
            var ctx := if granted then Some(w.lib.next) else None;
            Step(w, CopyAssign(x, source, granted)).lib.log ==
            w.lib.log + if x == source then [] else freed + [CtxNew(Tls13, ctx)]
  {
  }

  /** Move assignment frees what is held; onto itself, nothing. */
  lemma MoveAssignCalls(w: World, x: Name, source: Name)
    requires x in w.objects && source in w.objects
    ensures Step(w, MoveAssign(x, source)).lib.log
         == w.lib.log + if x != source && w.objects[x].ctx.Some? then [CtxFree(w.objects[x].ctx.value)] else []
  {
  }
}
