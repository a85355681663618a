/**
 * Logical addresses: a parsed URL in the context of a protocol provider, and the port it resolves to.
 */
module Address {
  import opened Results
  import opened Numbers
  import opened Protocol
  import opened Provider

  // ---- the parsed URL ----

  /** What the URL parser delivers: the scheme with its colon, the host name, and the port, which is the
      empty string if none is given or if it is the scheme's own. */
  datatype Url = Url(protocol: string, hostname: string, port: string)

  /** `substr(0, length - 1)`: for an empty string the length wraps around and the string is taken whole. */
  function WithoutLast(s: string): string {
    if s == [] then s else s[..|s| - 1]
  }

  function ProtocolOf(url: Url): string {
    WithoutLast(url.protocol)
  }

  /** The default ports of the special schemes, section 4.2 of the WHATWG URL Standard. */
  function OwnPort(scheme: string): Option<Port> {
    if scheme == "ftp" then Some(21)
    else if scheme == "http" || scheme == "ws" then Some(80)
    else if scheme == "https" || scheme == "wss" then Some(443)
    else None
  }

  /** The port state of section 4.4: digits in the URL become the port text, or None for a failure. A number
      above 65535 is a failure, and the scheme's own default port is dropped. */
  function PortState(scheme: string, digits: string): Option<string>
    requires AllDigits(digits)
  {
    if digits == [] then Some("")
    else if Value(digits) > 65535 then None
    else if OwnPort(scheme) == Some(Value(digits)) then Some("")
    else Some(Print(Value(digits)))
  }

  /** The special schemes and their ports, spelled out: what the parser drops. */
  lemma DroppedPorts(scheme: string, digits: string)
    requires AllDigits(digits)
    ensures PortState(scheme, digits) == Some("")
       <==> || digits == []
            || (scheme, Value(digits)) in {("ftp", 21), ("http", 80), ("https", 443), ("ws", 80), ("wss", 443)}
    ensures PortState(scheme, digits) == None <==> Value(digits) >= 65536
  {
  }

  /** The scheme states of section 4.4: an ASCII letter, then letters, digits, "+", "-" and ".", all lowercased. */
  predicate SchemeForm(s: string) {
    && s != [] && 'a' <= s[0] <= 'z'
    && forall c <- s :: 'a' <= c <= 'z' || IsDigit(c) || c == '+' || c == '-' || c == '.'
  }

  /** Those states at work on the scheme as it is written in a URL: None is a failure. */
  function SchemeState(written: string): Option<string> {
    if written != [] && IsLetter(written[0])
       && forall c <- written :: IsLetter(c) || IsDigit(c) || c == '+' || c == '-' || c == '.'
    then Some(Lower(written)) else None
  }

  predicate IsLetter(c: char) {
    65 <= c as int <= 90 || 97 <= c as int <= 122
  }

  /** What they deliver has the form, and whatever has the form is delivered. The scheme as written is the protocol's
      name in another spelling: normalising it does what the parser does. */
  lemma SchemeStateIff(scheme: string)
    ensures SchemeForm(scheme) <==> SchemeState(scheme) == Some(scheme)
    ensures SchemeForm(scheme) <==> exists written :: SchemeState(written) == Some(scheme)
    ensures forall written :: SchemeState(written) == Some(scheme) ==> Normalized(written) == Ok(scheme)
  {
    forall written | SchemeState(written) == Some(scheme)
      ensures SchemeForm(scheme) && Normalized(written) == Ok(scheme)
    {
      WrittenIsLowered(written);
    }
    if SchemeForm(scheme) {
      assert forall c <- scheme :: 'a' <= c <= 'z' ==> IsLetter(c);
      LowerIsIdentityIff(scheme);
    }
  }

  lemma WrittenIsLowered(written: string)
    requires SchemeState(written).Some?
    ensures SchemeForm(Lower(written)) && Normalized(written) == Ok(Lower(written))
  {
    var scheme := Lower(written);
    forall c <- scheme ensures 'a' <= c <= 'z' || IsDigit(c) || c == '+' || c == '-' || c == '.' {
      var i :| 0 <= i < |scheme| && scheme[i] == c;
      assert written[i] in written;
    }
    assert scheme[|scheme| - 1] in scheme;
    CanonicalIff(scheme);
    LowerKeepsSpace(written);
    TrimIsIdentityIff(scheme);
  }

  /** What section 4.4 says of a parsed URL: a scheme with its colon, and no port or one printed in decimal. */
  ghost predicate Parsed(url: Url) {
    && url.protocol != [] && url.protocol[|url.protocol| - 1] == ':'
    && SchemeForm(ProtocolOf(url))
    && (url.port == [] || exists port: Port :: url.port == Print(port))
  }

  /** Of a parsed scheme exactly the colon is dropped, and what is left is in canonical form. */
  lemma ProtocolOfParsed(url: Url)
    requires Parsed(url)
    ensures ProtocolOf(url) + ":" == url.protocol
    ensures Normalized(ProtocolOf(url)) == Ok(ProtocolOf(url))
  {
    var scheme := ProtocolOf(url);
    assert scheme[|scheme| - 1] in scheme;
    CanonicalIff(scheme);
  }

  /** The same of any text that is not empty: one character goes, whatever it is. */
  lemma LastIsDropped(scheme: string, last: char, hostname: string, port: string)
    ensures ProtocolOf(Url(scheme + [last], hostname, port)) == scheme
  {
  }

  /** What the port state delivers makes a parsed URL. */
  lemma PortStateIsParsed(scheme: string, hostname: string, digits: string)
    requires SchemeForm(scheme) && AllDigits(digits) && PortState(scheme, digits).Some?
    ensures Parsed(Url(scheme + ":", hostname, PortState(scheme, digits).value))
  {
    assert (scheme + ":")[..|scheme|] == scheme;
    if digits != [] && OwnPort(scheme) != Some(Value(digits)) {
      var port: Port := Value(digits);
      assert PortState(scheme, digits).value == Print(port);
    }
  }

  // ---- addresses ----

  /** Whether an address can be made of what the parser returned, and the error if not. */
  function Creation(parsed: Option<Url>, defs: seq<ProtocolDefinition>): Result<Url, NetError> {
    match parsed
    case None => Err(InvalidUrl)
    case Some(url) =>
      if Blank(ProtocolOf(url)) then Err(EmptyName)
      else if Find(defs, ProtocolOf(url)).Ok? then Ok(url)
      else Err(UnsupportedProtocol(ProtocolOf(url)))
  }

  /** The port of an address: the protocol's if the URL gives none, otherwise the URL's if it is one. The
      result is narrowed to 16 bits. */
  function PortOf(url: Url, defs: seq<ProtocolDefinition>): Result<Port, NetError> {
    if url.port == [] then
      match Find(defs, ProtocolOf(url))
      case Ok(def) => Ok(def.defaultPort)
      case Err(error) => Err(error)
    else
      match Stoi(url.port)
      case Ok(port) => if port < 0 || port > 65535 then Err(OutOfRange) else Ok(port % 0x1_0000)
      case Err(error) => Err(error)
  }

  class LogicalAddress {
    const url: Url
    const protocolProvider: IggyProtocolProvider

    /** The provider is intact, and knows the protocol. */
    ghost predicate Valid()
      reads protocolProvider
    {
      protocolProvider.Valid() && Find(protocolProvider.supportedProtocols, GetProtocol()).Ok?
    }

    constructor Bind(url: Url, protocolProvider: IggyProtocolProvider)
      ensures this.url == url && this.protocolProvider == protocolProvider
    {
      this.url := url;
      this.protocolProvider := protocolProvider;
    }

    /** The constructor, which throws for an unparsable URL and for a protocol the provider does not know. */
    static method Create(parsed: Option<Url>, provider: IggyProtocolProvider)
      returns (made: Result<LogicalAddress, NetError>)
      requires provider.Valid()
      ensures match made
              case Ok(address) =>
                && fresh(address) && address.Valid() && address.protocolProvider == provider
                && Creation(parsed, provider.supportedProtocols) == Ok(address.url)
              case Err(error) => Creation(parsed, provider.supportedProtocols) == Err(error)
    {
      if parsed == None {
        return Err(InvalidUrl);
      }
      var protocol := ProtocolOf(parsed.value);
      var supported := provider.IsSupported(protocol);
      if supported.Err? {
        return Err(supported.error);
      }
      if !supported.value {
        return Err(UnsupportedProtocol(protocol));
      }
      var address := new LogicalAddress.Bind(parsed.value, provider);
      made := Ok(address);
    }

    function GetProtocol(): string {
      ProtocolOf(url)
    }

    method GetProtocolDefinition() returns (r: Result<ProtocolDefinition, NetError>)
      requires protocolProvider.Valid()
      ensures r == Find(protocolProvider.supportedProtocols, GetProtocol())
    {
      r := protocolProvider.GetProtocolDefinition(GetProtocol());
    }

    /** No valid address fails for its protocol: if there is an error it is in a port text. */
    method GetPort() returns (r: Result<Port, NetError>)
      requires protocolProvider.Valid()
      ensures r == PortOf(url, protocolProvider.supportedProtocols)
      ensures Valid() && r.Err? ==> url.port != [] && (r.error == OutOfRange || r.error == InvalidNumber)
      ensures Valid() && Parsed(url) ==> r.Ok?
    {
      ParsedPortResolves(url, protocolProvider.supportedProtocols);
      if url.port == [] {
        var def := GetProtocolDefinition();
        if def.Err? {
          return Err(def.error);
        }
        r := Ok(def.value.defaultPort);
      } else {
        var port := Stoi(url.port);
        if port.Err? {
          return Err(port.error);
        }
        if port.value < 0 || port.value > 65535 {
          return Err(OutOfRange);
        }
        r := Ok(port.value % 0x1_0000);
      }
    }
  }

  // ---- what an address promises ----

  /** An address can be made exactly of a parsed URL whose scheme is a spelling of some listed name, and such
      an address is bound to that URL. What fails otherwise is the parsing, the blank name or the protocol. */
  lemma CreationIff(parsed: Option<Url>, defs: seq<ProtocolDefinition>)
    requires forall def <- defs :: WellMade(def)
    ensures Creation(parsed, defs).Ok?
       <==> && parsed.Some? && !Blank(ProtocolOf(parsed.value))
            && exists i :: 0 <= i < |defs| && SameName(ProtocolOf(parsed.value), defs[i].name)
    ensures Creation(parsed, defs).Ok? ==> parsed == Some(Creation(parsed, defs).value)
    ensures Creation(parsed, defs) == Err(InvalidUrl) <==> parsed == None
    ensures Creation(parsed, defs) == Err(EmptyName) <==> parsed.Some? && Blank(ProtocolOf(parsed.value))
    ensures parsed.Some? && !Blank(ProtocolOf(parsed.value)) && Creation(parsed, defs).Err? ==>
              Creation(parsed, defs) == Err(UnsupportedProtocol(ProtocolOf(parsed.value)))
  {
    if parsed.Some? && !Blank(ProtocolOf(parsed.value)) {
      FindSucceedsIff(defs, ProtocolOf(parsed.value));
    }
  }

  /** A port that the URL parser delivers is read back whole. */
  lemma ParsedPortResolves(url: Url, defs: seq<ProtocolDefinition>)
    ensures Parsed(url) && (url.port == [] ==> Find(defs, ProtocolOf(url)).Ok?) ==> PortOf(url, defs).Ok?
  {
    if Parsed(url) && url.port != [] {
      var port: Port :| url.port == Print(port);
      PortInvertsPrinting(url, defs, port);
    }
  }

  /** Once an address exists, asking it for its port cannot fail for its protocol, whatever its port text is;
      the only failures left are those of the port text. With a URL from the parser there are none. */
  lemma PortOfAddress(parsed: Option<Url>, defs: seq<ProtocolDefinition>)
    requires Creation(parsed, defs).Ok?
    ensures var url := Creation(parsed, defs).value;
            match PortOf(url, defs)
            case Ok(port) => true
            case Err(error) => url.port != [] && (error == OutOfRange || error == InvalidNumber)
    ensures Parsed(Creation(parsed, defs).value) ==> PortOf(Creation(parsed, defs).value, defs).Ok?
  {
    ParsedPortResolves(Creation(parsed, defs).value, defs);
  }

  /** Without a port in the URL it is the default port of the definition whose name the scheme spells. */
  lemma DefaultPort(url: Url, defs: seq<ProtocolDefinition>, i: nat)
    requires url.port == [] && !Blank(ProtocolOf(url))
    requires DistinctNames(defs) && i < |defs| && WellMade(defs[i])
    requires SameName(ProtocolOf(url), defs[i].name)
    ensures PortOf(url, defs) == Ok(defs[i].defaultPort)
  {
    FindIff(defs, i, ProtocolOf(url));
  }

  /** Any port text, also one that the URL parser never delivers: the port is `p` exactly if the text can be
      read as padding, sign, digits of the value `p`, and a rest. So narrowing to 16 bits changes no port. */
  lemma PortIsExact(url: Url, defs: seq<ProtocolDefinition>, p: Port)
    requires url.port != []
    ensures PortOf(url, defs) == Ok(p)
       <==> exists pad, sign, digits, rest ::
              Reads(url.port, pad, sign, digits, rest) && p == if sign == "-" then -1 * Value(digits) else Value(digits)
  {
    if PortOf(url, defs) == Ok(p) {
      var pad, sign, digits, rest := ReadingOf(url.port);
      PortReads(url, defs, pad, sign, digits, rest);
    }
    if pad, sign, digits, rest :|
      Reads(url.port, pad, sign, digits, rest) && p == if sign == "-" then -1 * Value(digits) else Value(digits)
    {
      PortReads(url, defs, pad, sign, digits, rest);
    }
  }

  lemma PortReads(url: Url, defs: seq<ProtocolDefinition>, pad: string, sign: string, digits: string, rest: string)
    requires Reads(url.port, pad, sign, digits, rest)
    ensures var value := if sign == "-" then -1 * Value(digits) else Value(digits);
            PortOf(url, defs) == if 0 <= value <= 65535 then Ok(value) else Err(OutOfRange)
  {
    assert url.port != [];
    StoiReads(pad, sign, digits, rest);
  }

  /** And the errors, for any text and whether or not an address was made of it: an invalid number exactly if there
      is nothing to read, out of range exactly if what is read is no port; and without a port text the errors of
      the lookup. */
  lemma PortErrors(url: Url, defs: seq<ProtocolDefinition>)
    requires forall def <- defs :: WellMade(def)
    ensures PortOf(url, defs) == Err(InvalidNumber)
       <==> url.port != [] && !exists pad, sign, digits, rest :: Reads(url.port, pad, sign, digits, rest)
    ensures PortOf(url, defs) == Err(OutOfRange)
       <==> && url.port != []
            && exists pad, sign, digits, rest ::
                 && Reads(url.port, pad, sign, digits, rest)
                 && !(0 <= (if sign == "-" then -1 * Value(digits) else Value(digits)) <= 65535)
    ensures PortOf(url, defs) == Err(EmptyName)
       <==> url.port == [] && forall c <- ProtocolOf(url) :: 9 <= c as int <= 13 || c as int == 32
    ensures PortOf(url, defs) == Err(UnsupportedProtocol(ProtocolOf(url)))
       <==> url.port == [] && Find(defs, ProtocolOf(url)) == Err(UnsupportedProtocol(ProtocolOf(url)))
    ensures PortOf(url, defs) != Err(InvalidUrl)
  {
    if url.port == [] {
      FindErrors(defs, ProtocolOf(url));
    } else {
      StoiReadsIff(url.port);
      if Stoi(url.port) != Err(InvalidNumber) {
        var pad, sign, digits, rest := ReadingOf(url.port);
        PortReads(url, defs, pad, sign, digits, rest);
      }
      forall pad, sign, digits, rest | Reads(url.port, pad, sign, digits, rest)
        ensures var value := if sign == "-" then -1 * Value(digits) else Value(digits);
                PortOf(url, defs) == if 0 <= value <= 65535 then Ok(value) else Err(OutOfRange)
      {
        PortReads(url, defs, pad, sign, digits, rest);
      }
    }
  }

  /** With a port text of digits, of any length, it is their exact value if that is at most 65535, and
      otherwise out of range: narrowing to 16 bits never changes a port. */
  lemma GivenPort(url: Url, defs: seq<ProtocolDefinition>)
    requires url.port != [] && AllDigits(url.port)
    ensures PortOf(url, defs) == if Value(url.port) <= 65535 then Ok(Value(url.port)) else Err(OutOfRange)
  {
    StoiDigits(url.port);
  }

  /** With digits or nothing for a port text an address resolves to a port exactly up to 65535. */
  lemma PortResolvesIff(parsed: Option<Url>, defs: seq<ProtocolDefinition>)
    requires Creation(parsed, defs).Ok? && AllDigits(Creation(parsed, defs).value.port)
    ensures PortOf(Creation(parsed, defs).value, defs).Ok?
       <==> Value(Creation(parsed, defs).value.port) <= 65535
  {
    var url := Creation(parsed, defs).value;
    if url.port != [] {
      GivenPort(url, defs);
    }
  }

  /** Reading a port inverts printing it. */
  lemma PortInvertsPrinting(url: Url, defs: seq<ProtocolDefinition>, port: Port)
    requires url.port == Print(port)
    ensures PortOf(url, defs) == Ok(port)
  {
    PrintValue(port);
    GivenPort(url, defs);
  }

  // ---- from the URL as written to the port ----

  /** The parser's result for a scheme and the port digits of a URL as written; None if it fails on the port. */
  function ParsedFrom(scheme: string, hostname: string, digits: string): Option<Url>
    requires AllDigits(digits)
  {
    match PortState(scheme, digits)
    case None => None
    case Some(port) => Some(Url(scheme + ":", hostname, port))
  }

  /** The default port is substituted where the URL has no port, but also where it has the scheme's own, which
      the parser drops: a port that is given comes back exactly unless it is the scheme's own and the
      definition's default is another one. */
  lemma GivenPortComesBackIff(scheme: string, hostname: string, digits: string, defs: seq<ProtocolDefinition>)
    requires AllDigits(digits) && digits != []
    requires Creation(ParsedFrom(scheme, hostname, digits), defs).Ok?
    ensures Find(defs, scheme).Ok?
    ensures PortOf(ParsedFrom(scheme, hostname, digits).value, defs) == Ok(Value(digits))
       <==> OwnPort(scheme) != Some(Value(digits)) || Find(defs, scheme).value.defaultPort == Value(digits)
  {
    var url := ParsedFrom(scheme, hostname, digits).value;
    assert ProtocolOf(url) == scheme;
    if OwnPort(scheme) != Some(Value(digits)) {
      PortInvertsPrinting(url, defs, Value(digits));
    }
  }

  /** Without digits in the URL it is the definition's default, as the header says. */
  lemma MissingPortIsDefault(scheme: string, hostname: string, defs: seq<ProtocolDefinition>)
    requires Creation(ParsedFrom(scheme, hostname, ""), defs).Ok?
    ensures Find(defs, scheme).Ok?
    ensures PortOf(ParsedFrom(scheme, hostname, "").value, defs) == Ok(Find(defs, scheme).value.defaultPort)
  {
    assert ProtocolOf(ParsedFrom(scheme, hostname, "").value) == scheme;
  }

  /** Of the five protocols only "http" is a scheme with a default port of its own, and it is another one. */
  lemma IggyOwnPort(i: nat)
    requires i < |IGGY_DECLARATIONS|
    ensures OwnPort(IGGY_DECLARATIONS[i].name) == if i == 3 then Some(80) else None
    ensures i == 3 ==> IGGY_DECLARATIONS[i].name == "http" && IGGY_DECLARATIONS[i].defaultPort == 3000
    ensures i != 3 ==> IGGY_DECLARATIONS[i].name != "http"
  {
    var name := IGGY_DECLARATIONS[i].name;
    if i == 0 {
      assert name[0] == 'q';
    } else if i == 1 || i == 2 {
      assert name[0] == 't';
    } else if i == 4 {
      assert |name| == 8;
    }
  }

  /** In the table of this library that concerns one protocol and one port: "http" with port 80, in any way of
      writing 80, resolves to 3000; every other given port of the five protocols comes back. */
  lemma IggyPorts(i: nat, hostname: string, digits: string)
    requires i < |IGGY_DECLARATIONS| && AllDigits(digits) && digits != [] && Value(digits) <= 65535
    ensures var parsed := ParsedFrom(IGGY_DECLARATIONS[i].name, hostname, digits);
            && Creation(parsed, IggyProtocols()).Ok?
            && PortOf(parsed.value, IggyProtocols())
            == Ok(if IGGY_DECLARATIONS[i].name == "http" && Value(digits) == 80 then 3000 else Value(digits))
  {
    var scheme := IGGY_DECLARATIONS[i].name;
    IggyFound(i);
    IggyOwnPort(i);
    var url := ParsedFrom(scheme, hostname, digits).value;
    assert ProtocolOf(url) == scheme;
    GivenPortComesBackIff(scheme, hostname, digits, IggyProtocols());
  }

  /** Without a port: the addresses of the five protocols as they are written, on any host. */
  lemma IggyDefaultPorts(hostname: string)
    ensures Creation(Some(Url("quic:", hostname, "")), IggyProtocols()).Ok?
    ensures PortOf(Url("quic:", hostname, ""), IggyProtocols()) == Ok(8080)
    ensures Creation(Some(Url("tcp:", hostname, "")), IggyProtocols()).Ok?
    ensures PortOf(Url("tcp:", hostname, ""), IggyProtocols()) == Ok(8090)
    ensures Creation(Some(Url("tcp+tls:", hostname, "")), IggyProtocols()).Ok?
    ensures PortOf(Url("tcp+tls:", hostname, ""), IggyProtocols()) == Ok(8090)
    ensures Creation(Some(Url("http:", hostname, "")), IggyProtocols()).Ok?
    ensures PortOf(Url("http:", hostname, ""), IggyProtocols()) == Ok(3000)
    ensures Creation(Some(Url("http+tls:", hostname, "")), IggyProtocols()).Ok?
    ensures PortOf(Url("http+tls:", hostname, ""), IggyProtocols()) == Ok(3000)
  {
    DefaultPortOf("quic", hostname);
    DefaultPortOf("tcp", hostname);
    DefaultPortOf("tcp+tls", hostname);
    DefaultPortOf("http", hostname);
    DefaultPortOf("http+tls", hostname);
    assert "quic" + ":" == "quic:" && "tcp" + ":" == "tcp:" && "tcp+tls" + ":" == "tcp+tls:";
    assert "http" + ":" == "http:" && "http+tls" + ":" == "http+tls:";
  }

  lemma DefaultPortOf(scheme: string, hostname: string)
    requires scheme in ["quic", "tcp", "tcp+tls", "http", "http+tls"]
    ensures Creation(Some(Url(scheme + ":", hostname, "")), IggyProtocols()).Ok?
    ensures PortOf(Url(scheme + ":", hostname, ""), IggyProtocols())
         == Ok(if scheme == "quic" then 8080 else if scheme == "tcp" || scheme == "tcp+tls" then 8090 else 3000)
  {
    var url := Url(scheme + ":", hostname, "");
    assert ProtocolOf(url) == scheme;
    assert !Blank(scheme) && SameName(scheme, scheme) by {
      PlainIsCanonical(scheme);
      SameNameIff(scheme, scheme);
    }
    var port := if scheme == "quic" then 8080 else if scheme == "tcp" || scheme == "tcp+tls" then 8090 else 3000;
    var def := Find(IggyProtocols(), scheme);
    assert def.Ok? && def.value.defaultPort == port by { IggyLiterally(scheme); }
  }

  lemma IggyFound(i: nat)
    requires i < |IGGY_DECLARATIONS|
    ensures !Blank(IGGY_DECLARATIONS[i].name)
    ensures Find(IggyProtocols(), IGGY_DECLARATIONS[i].name) == Ok(IggyProtocols()[i])
    ensures IggyProtocols()[i].defaultPort == IGGY_DECLARATIONS[i].defaultPort
  {
    IggyCanonical(i);
    IggyTable(i, IGGY_DECLARATIONS[i].name);
    SameNameIff(IGGY_DECLARATIONS[i].name, IGGY_DECLARATIONS[i].name);
  }

  // ---- the protocol of an address ----

  /** The protocol of an address is supported. It is letter for letter the name of a listed definition exactly
      when the scheme is in canonical form. */
  lemma ProtocolIsListedIff(parsed: Option<Url>, defs: seq<ProtocolDefinition>)
    requires Creation(parsed, defs).Ok? && forall def <- defs :: WellMade(def)
    ensures var protocol := ProtocolOf(Creation(parsed, defs).value);
            && Find(defs, protocol).Ok?
            && ((exists def :: def in defs && def.name == protocol) <==> Normalized(protocol) == Ok(protocol))
  {
    var protocol := ProtocolOf(Creation(parsed, defs).value);
    var name := Normalized(protocol).value;
    LastNamedIff(defs, name, Find(defs, protocol).value);
    assert Find(defs, protocol).value in defs;
  }

  /** The guarantee of the header, for every URL that the parser delivers: an address can be made exactly if
      the protocol is, letter for letter, the name of a listed definition. So the protocol of an address always
      is one of the supported ones; and a parsed URL is never refused for a blank name. */
  lemma ProtocolIsListed(url: Url, defs: seq<ProtocolDefinition>)
    requires Parsed(url) && forall def <- defs :: WellMade(def)
    ensures Creation(Some(url), defs) == Ok(url) <==> exists def :: def in defs && def.name == ProtocolOf(url)
    ensures Creation(Some(url), defs) != Ok(url) ==> Creation(Some(url), defs) == Err(UnsupportedProtocol(ProtocolOf(url)))
  {
    var protocol := ProtocolOf(url);
    ProtocolOfParsed(url);
    assert !Blank(protocol) by { assert protocol[0] in protocol; }
    if Creation(Some(url), defs).Ok? {
      ProtocolIsListedIff(Some(url), defs);
    }
    if def :| def in defs && def.name == protocol {
      var i :| 0 <= i < |defs| && defs[i] == def;
      SomeNamed(defs, i);
    }
  }
}
