/**
 * The protocol provider: a list of definitions and the map that its constructor builds over it.
 */
module Provider {
  import opened Results
  import opened Protocol

  /** The last definition of a list that has the given name. */
  function LastNamed(defs: seq<ProtocolDefinition>, name: string): Option<ProtocolDefinition> {
    if defs == [] then None
    else if defs[|defs| - 1].name == name then Some(defs[|defs| - 1])
    else LastNamed(defs[..|defs| - 1], name)
  }

  /** `lookup` answers every name as a linear scan of the list does. */
  ghost predicate IsIndex(lookup: map<string, ProtocolDefinition>, defs: seq<ProtocolDefinition>) {
    && (forall name :: name in lookup <==> LastNamed(defs, name).Some?)
    && (forall name :: name in lookup ==> LastNamed(defs, name) == Some(lookup[name]))
  }

  /** What a lookup of a name as the caller spells it finds in a list of definitions. */
  function Find(defs: seq<ProtocolDefinition>, protocol: string): Result<ProtocolDefinition, NetError> {
    match Normalized(protocol)
    case Err(error) => Err(error)
    case Ok(name) =>
      match LastNamed(defs, name)
      case Some(def) => Ok(def)
      case None => Err(UnsupportedProtocol(protocol))
  }

  class IggyProtocolProvider {
    const supportedProtocols: seq<ProtocolDefinition>
    var supportedProtocolLookup: map<string, ProtocolDefinition>

    ghost predicate Valid()
      reads this
    {
      IsIndex(supportedProtocolLookup, supportedProtocols)
    }

    /** Enters the definitions of the list one after the other under their names. */
    constructor (protocols: seq<ProtocolDefinition>)
      ensures Valid() && supportedProtocols == protocols
    {
      supportedProtocols := protocols;
      supportedProtocolLookup := map[];
      new;
      for i := 0 to |protocols|
        invariant supportedProtocols == protocols
        invariant IsIndex(supportedProtocolLookup, protocols[..i])
      {
        assert protocols[..i + 1][..i] == protocols[..i];
        supportedProtocolLookup := supportedProtocolLookup[protocols[i].name := protocols[i]];
      }
      assert protocols[..|protocols|] == protocols;
    }

    method GetProtocolDefinition(protocol: string) returns (r: Result<ProtocolDefinition, NetError>)
      requires Valid()
      ensures r == Find(supportedProtocols, protocol)
    {
      var normalized := NormalizeProtocolName(protocol);
      if normalized.Err? {
        return Err(normalized.error);
      }
      if normalized.value in supportedProtocolLookup {
        return Ok(supportedProtocolLookup[normalized.value]);
      } else {
        return Err(UnsupportedProtocol(protocol));
      }
    }

    /** A blank name is an error here too; otherwise the answer says whether a lookup would succeed. */
    method IsSupported(protocol: string) returns (r: Result<bool, NetError>)
      requires Valid()
      ensures Blank(protocol) ==> r == Err(EmptyName)
      ensures !Blank(protocol) ==> r == Ok(Find(supportedProtocols, protocol).Ok?)
    {
      var normalized := NormalizeProtocolName(protocol);
      if normalized.Err? {
        return Err(normalized.error);
      }
      r := Ok(normalized.value in supportedProtocolLookup);
    }
  }

  // ---- the list and the names ----

  ghost predicate DistinctNames(defs: seq<ProtocolDefinition>) {
    forall i, j :: 0 <= i < j < |defs| ==> defs[i].name != defs[j].name
  }

  /** The scan finds a definition exactly when it has the name and no later one does. */
  lemma {:induction false} LastNamedIff(defs: seq<ProtocolDefinition>, name: string, def: ProtocolDefinition)
    ensures LastNamed(defs, name) == Some(def)
       <==> exists i :: 0 <= i < |defs| && defs[i] == def && def.name == name
                        && forall j :: i < j < |defs| ==> defs[j].name != name
    decreases |defs|
  {
    if defs != [] {
      var n := |defs| - 1;
      LastNamedIff(defs[..n], name, def);
      if i :| 0 <= i < n && defs[..n][i] == def && def.name == name && forall j :: i < j < n ==> defs[..n][j].name != name {
        if defs[n].name != name {
          assert forall j :: i < j < |defs| ==> j == n || defs[..n][j] == defs[j];
        }
      }
      if i :| 0 <= i < |defs| && defs[i] == def && def.name == name && forall j :: i < j < |defs| ==> defs[j].name != name {
        if i < n {
          assert defs[..n][i] == def;
        }
      }
    }
  }

  /** With distinct names the map holds every definition of the list under its own name, and no other entry. */
  lemma IndexOfDistinct(lookup: map<string, ProtocolDefinition>, defs: seq<ProtocolDefinition>)
    requires IsIndex(lookup, defs) && DistinctNames(defs)
    ensures forall name, def :: (name in lookup && lookup[name] == def) <==> (def in defs && def.name == name)
  {
    forall name, def
      ensures LastNamed(defs, name) == Some(def) <==> (def in defs && def.name == name)
    {
      LastNamedIff(defs, name, def);
      if def in defs && def.name == name {
        var i :| 0 <= i < |defs| && defs[i] == def;
        assert forall j :: i < j < |defs| ==> defs[j].name != name;
      }
    }
  }

  /** Every entry of the map, whatever the list, is stored under its own name and comes from the list. */
  lemma KeysAreNames(lookup: map<string, ProtocolDefinition>, defs: seq<ProtocolDefinition>, name: string)
    requires IsIndex(lookup, defs) && name in lookup
    ensures lookup[name].name == name && lookup[name] in defs
  {
    LastNamedIff(defs, name, lookup[name]);
  }

  /** A lookup finds a definition of the list exactly when it asks for the definition's name, in any letter
      case and with any padding. */
  lemma FindIff(defs: seq<ProtocolDefinition>, i: nat, protocol: string)
    requires DistinctNames(defs) && i < |defs| && WellMade(defs[i])
    ensures Find(defs, protocol) == Ok(defs[i]) <==> !Blank(protocol) && SameName(protocol, defs[i].name)
  {
    var name := defs[i].name;
    if !Blank(protocol) {
      SameNameIff(protocol, name);
      LastNamedIff(defs, Normalized(protocol).value, defs[i]);
      if Normalized(protocol) == Ok(name) {
        assert forall j :: i < j < |defs| ==> defs[j].name != name;
      }
    }
  }

  /** For a name that is not blank a lookup succeeds exactly when some definition of the list has that name;
      it then returns one that does. */
  lemma FindSucceedsIff(defs: seq<ProtocolDefinition>, protocol: string)
    requires !Blank(protocol) && forall def <- defs :: WellMade(def)
    ensures Find(defs, protocol).Ok? <==> exists i :: 0 <= i < |defs| && SameName(protocol, defs[i].name)
    ensures Find(defs, protocol).Ok? ==>
              Find(defs, protocol).value in defs && SameName(protocol, Find(defs, protocol).value.name)
  {
    var name := Normalized(protocol).value;
    if Find(defs, protocol).Ok? {
      var def := Find(defs, protocol).value;
      LastNamedIff(defs, name, def);
      assert def in defs && WellMade(def);
      SameNameIff(protocol, def.name);
    }
    if i :| 0 <= i < |defs| && SameName(protocol, defs[i].name) {
      assert WellMade(defs[i]);
      SameNameIff(protocol, defs[i].name);
      SomeNamed(defs, i);
    }
  }

  /** A failed lookup raises the blank-name error for exactly the blank names, and for exactly the names that
      spell no listed one the error that carries the name as it was spelled. */
  lemma FindErrors(defs: seq<ProtocolDefinition>, protocol: string)
    requires forall def <- defs :: WellMade(def)
    ensures Find(defs, protocol) == Err(EmptyName) <==> forall c <- protocol :: 9 <= c as int <= 13 || c as int == 32
    ensures Find(defs, protocol) == Err(UnsupportedProtocol(protocol))
       <==> && (exists c :: c in protocol && !(9 <= c as int <= 13 || c as int == 32))
            && !exists i :: 0 <= i < |defs| && SameName(protocol, defs[i].name)
  {
    EmptyNameLiterally(protocol);
    if !Blank(protocol) {
      FindSucceedsIff(defs, protocol);
    }
  }

  /** If a definition has a name, the scan for that name finds one. */
  lemma {:induction false} SomeNamed(defs: seq<ProtocolDefinition>, i: nat)
    requires i < |defs|
    ensures LastNamed(defs, defs[i].name).Some?
    decreases |defs|
  {
    var n := |defs| - 1;
    if i < n && defs[n].name != defs[i].name {
      SomeNamed(defs[..n], i);
    }
  }

  // ---- lists built from declarations ----

  /** No declared name is blank, and no two declare the same name. */
  ghost predicate Declarable(ds: seq<Declaration>) {
    && (forall i :: 0 <= i < |ds| ==> !Blank(ds[i].name))
    && (forall i, j :: 0 <= i < j < |ds| ==> !SameName(ds[i].name, ds[j].name))
  }

  lemma DeclaredNames(ds: seq<Declaration>)
    requires Declarable(ds)
    ensures DefineAll(ds).Ok? && |DefineAll(ds).value| == |ds|
    ensures DistinctNames(DefineAll(ds).value)
    ensures forall def <- DefineAll(ds).value :: WellMade(def)
  {
    DefineAllIff(ds);
    var defs := DefineAll(ds).value;
    forall i, j | 0 <= i < j < |defs| ensures defs[i].name != defs[j].name {
      assert Define(ds[i]) == Ok(defs[i]) && Define(ds[j]) == Ok(defs[j]);
      assert !SameName(ds[i].name, ds[j].name);
      SameNameIff(ds[i].name, ds[j].name);
    }
  }

  /** From declaration to lookup: of definitions constructed from such declarations, a lookup finds the i-th
      exactly for the spellings of the i-th name as it was declared. */
  lemma DeclaredIsFoundIff(ds: seq<Declaration>, i: nat, protocol: string)
    requires Declarable(ds) && i < |ds|
    ensures DefineAll(ds).Ok? && |DefineAll(ds).value| == |ds|
    ensures Find(DefineAll(ds).value, protocol) == Ok(DefineAll(ds).value[i])
       <==> !Blank(protocol) && SameName(protocol, ds[i].name)
    ensures !Blank(protocol) && SameName(protocol, ds[i].name) ==>
              Find(DefineAll(ds).value, protocol) ==
              Ok(ProtocolDefinition(Normalized(ds[i].name).value, ds[i].defaultPort, ds[i].transport,
                                    ds[i].tlsSupported, ds[i].messageEncoding))
  {
    DeclaredNames(ds);
    DefineAllIff(ds);
    var defs := DefineAll(ds).value;
    assert Define(ds[i]) == Ok(defs[i]) && WellMade(defs[i]);
    FindIff(defs, i, protocol);
    if !Blank(protocol) {
      SameNameIff(protocol, defs[i].name);
      SameNameIff(protocol, ds[i].name);
    }
  }

  // ---- the table of this library ----

  const HTTP_PORT: Port := 3000
  const TCP_PORT: Port := 8090
  const QUIC_PORT: Port := 8080

  const IGGY_DECLARATIONS: seq<Declaration> := [
    Declaration("quic", QUIC_PORT, Quic, true, Binary),
    Declaration("tcp", TCP_PORT, Tcp, false, Binary),
    Declaration("tcp+tls", TCP_PORT, Tcp, true, Binary),
    Declaration("http", HTTP_PORT, Http, false, Text),
    Declaration("http+tls", HTTP_PORT, Http, true, Text)
  ]

  /** A name of small letters and plus signs is canonical. */
  lemma PlainIsCanonical(name: string)
    requires name != [] && forall i :: 0 <= i < |name| ==> 'a' <= name[i] <= 'z' || name[i] == '+'
    ensures Normalized(name) == Ok(name)
  {
    CanonicalIff(name);
  }

  /** Its names are canonical ... */
  lemma IggyCanonical(i: nat)
    requires i < |IGGY_DECLARATIONS|
    ensures Normalized(IGGY_DECLARATIONS[i].name) == Ok(IGGY_DECLARATIONS[i].name)
  {
    PlainIsCanonical(IGGY_DECLARATIONS[i].name);
  }

  /** ... and different. */
  lemma IggyDifferent(i: nat, j: nat)
    requires i < j < |IGGY_DECLARATIONS|
    ensures IGGY_DECLARATIONS[i].name != IGGY_DECLARATIONS[j].name
  {
  }

  lemma IggyDeclarable()
    ensures Declarable(IGGY_DECLARATIONS)
  {
    forall i | 0 <= i < |IGGY_DECLARATIONS| ensures !Blank(IGGY_DECLARATIONS[i].name) {
      IggyCanonical(i);
    }
    forall i, j | 0 <= i < j < |IGGY_DECLARATIONS|
      ensures !SameName(IGGY_DECLARATIONS[i].name, IGGY_DECLARATIONS[j].name)
    {
      IggyCanonical(i);
      IggyCanonical(j);
      IggyDifferent(i, j);
      SameNameIff(IGGY_DECLARATIONS[i].name, IGGY_DECLARATIONS[j].name);
    }
  }

  /** The supported protocols: the five definitions, constructed. */
  function IggyProtocols(): (defs: seq<ProtocolDefinition>)
    ensures DistinctNames(defs) && forall def <- defs :: WellMade(def)
    ensures |defs| == |IGGY_DECLARATIONS|
  {
    IggyDeclarable();
    DeclaredNames(IGGY_DECLARATIONS);
    DefineAll(IGGY_DECLARATIONS).value
  }

  /** Each of the five carries what is declared for it, and is found by exactly the spellings of its name. */
  lemma IggyTable(i: nat, protocol: string)
    requires i < |IGGY_DECLARATIONS|
    ensures IggyProtocols()[i].name == IGGY_DECLARATIONS[i].name
    ensures IggyProtocols()[i].defaultPort == IGGY_DECLARATIONS[i].defaultPort
    ensures Find(IggyProtocols(), protocol) == Ok(IggyProtocols()[i])
       <==> !Blank(protocol) && SameName(protocol, IGGY_DECLARATIONS[i].name)
  {
    IggyCanonical(i);
    IggyDeclarable();
    DefineAllIff(IGGY_DECLARATIONS);
    assert Define(IGGY_DECLARATIONS[i]) == Ok(IggyProtocols()[i]);
    DeclaredIsFoundIff(IGGY_DECLARATIONS, i, protocol);
  }

  lemma IggySpelled(i: nat, protocol: string)
    requires i < |IGGY_DECLARATIONS| && !Blank(protocol) && SameName(protocol, IGGY_DECLARATIONS[i].name)
    ensures Find(IggyProtocols(), protocol)
         == Ok(ProtocolDefinition(IGGY_DECLARATIONS[i].name, IGGY_DECLARATIONS[i].defaultPort, IGGY_DECLARATIONS[i].transport,
                                  IGGY_DECLARATIONS[i].tlsSupported, IGGY_DECLARATIONS[i].messageEncoding))
  {
    IggyCanonical(i);
    IggyDeclarable();
    DeclaredIsFoundIff(IGGY_DECLARATIONS, i, protocol);
  }

  /** The table, spelled out: what any spelling of the five names is answered with, and that nothing else is
      answered. */
  lemma IggyLiterally(protocol: string)
    requires !Blank(protocol)
    ensures SameName(protocol, "quic") ==>
              Find(IggyProtocols(), protocol) == Ok(ProtocolDefinition("quic", 8080, Quic, true, Binary))
    ensures SameName(protocol, "tcp") ==>
              Find(IggyProtocols(), protocol) == Ok(ProtocolDefinition("tcp", 8090, Tcp, false, Binary))
    ensures SameName(protocol, "tcp+tls") ==>
              Find(IggyProtocols(), protocol) == Ok(ProtocolDefinition("tcp+tls", 8090, Tcp, true, Binary))
    ensures SameName(protocol, "http") ==>
              Find(IggyProtocols(), protocol) == Ok(ProtocolDefinition("http", 3000, Http, false, Text))
    ensures SameName(protocol, "http+tls") ==>
              Find(IggyProtocols(), protocol) == Ok(ProtocolDefinition("http+tls", 3000, Http, true, Text))
    ensures (forall name <- ["quic", "tcp", "tcp+tls", "http", "http+tls"] :: !SameName(protocol, name)) ==>
              Find(IggyProtocols(), protocol) == Err(UnsupportedProtocol(protocol))
  {
    if SameName(protocol, "quic") { IggySpelled(0, protocol); }
    if SameName(protocol, "tcp") { IggySpelled(1, protocol); }
    if SameName(protocol, "tcp+tls") { IggySpelled(2, protocol); }
    if SameName(protocol, "http") { IggySpelled(3, protocol); }
    if SameName(protocol, "http+tls") { IggySpelled(4, protocol); }
    if forall name <- ["quic", "tcp", "tcp+tls", "http", "http+tls"] :: !SameName(protocol, name) {
      IggyUnknown(protocol);
    }
  }

  lemma IggyUnknown(protocol: string)
    requires !Blank(protocol)
    requires forall name <- ["quic", "tcp", "tcp+tls", "http", "http+tls"] :: !SameName(protocol, name)
    ensures Find(IggyProtocols(), protocol) == Err(UnsupportedProtocol(protocol))
  {
    forall i | 0 <= i < |IggyProtocols()| ensures !SameName(protocol, IggyProtocols()[i].name) {
      IggyTable(i, protocol);
      assert IGGY_DECLARATIONS[i].name in ["quic", "tcp", "tcp+tls", "http", "http+tls"];
    }
    FindSucceedsIff(IggyProtocols(), protocol);
  }
}
