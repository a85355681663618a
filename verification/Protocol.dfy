/**
 * Protocol names and definitions: `normalizeProtocolName` and the records that are named by it.
 */
module Protocol {
  import opened Results

  datatype NetError =
    | EmptyName
    | UnsupportedProtocol(name: string)
    | InvalidUrl
    | InvalidNumber
    | OutOfRange

  const FORM_FEED := '\U{C}'
  const VERTICAL_TAB := '\U{B}'

  /** The characters that are trimmed. */
  predicate IsSpace(c: char) {
    c == ' ' || c == '\t' || c == '\n' || c == '\r' || c == FORM_FEED || c == VERTICAL_TAB
  }

  predicate IsUpper(c: char) {
    'A' <= c <= 'Z'
  }

  /** `tolower` in the "C" locale. */
  function ToLower(c: char): char {
    if IsUpper(c) then (c as int + 32) as char else c
  }

  function Lower(s: string): (r: string)
    ensures |r| == |s| && forall i :: 0 <= i < |s| ==> r[i] == ToLower(s[i])
  {
    seq(|s|, i requires 0 <= i < |s| => ToLower(s[i]))
  }

  predicate Blank(s: string) {
    forall c <- s :: IsSpace(c)
  }

  function TrimLeft(s: string): string {
    if s != [] && IsSpace(s[0]) then TrimLeft(s[1..]) else s
  }

  function TrimRight(s: string): string {
    if s != [] && IsSpace(s[|s| - 1]) then TrimRight(s[..|s| - 1]) else s
  }

  function Trim(s: string): string {
    TrimRight(TrimLeft(s))
  }

  /** The canonical form of a protocol name; a blank name has none. */
  function Normalized(s: string): Result<string, NetError> {
    if Blank(s) then Err(EmptyName) else Ok(Trim(Lower(s)))
  }

  // ---- trimming ----

  /** No white space at either end. */
  predicate Trimmed(s: string) {
    s != [] ==> !IsSpace(s[0]) && !IsSpace(s[|s| - 1])
  }

  lemma {:induction false} TrimLeftOf(pad: string, s: string)
    requires Blank(pad)
    ensures TrimLeft(pad + s) == TrimLeft(s)
    decreases |pad|
  {
    if pad == [] {
      assert pad + s == s;
    } else {
      assert (pad + s)[1..] == pad[1..] + s;
      TrimLeftOf(pad[1..], s);
    }
  }

  lemma {:induction false} TrimRightOf(s: string, pad: string)
    requires Blank(pad)
    ensures TrimRight(s + pad) == TrimRight(s)
    decreases |pad|
  {
    if pad == [] {
      assert s + pad == s;
    } else {
      assert (s + pad)[..|s + pad| - 1] == s + pad[..|pad| - 1];
      TrimRightOf(s, pad[..|pad| - 1]);
    }
  }

  /** Trimming finds the core of a padded string: a core that is trimmed comes back whole. */
  lemma TrimCore(p: string, core: string, q: string)
    requires Blank(p) && Blank(q) && Trimmed(core) && core != []
    ensures Trim(p + core + q) == core
  {
    assert p + core + q == p + (core + q);
    TrimLeftOf(p, core + q);
    assert TrimLeft(core + q) == core + q;
    TrimRightOf(core, q);
  }

  /** Every string that is not blank is a trimmed core between paddings. */
  lemma {:induction false} Core(s: string) returns (p: string, core: string, q: string)
    requires !Blank(s)
    ensures s == p + core + q && Blank(p) && Blank(q) && Trimmed(core) && core != []
    decreases |s|
  {
    if IsSpace(s[0]) {
      p, core, q := Core(s[1..]);
      p := [s[0]] + p;
    } else if IsSpace(s[|s| - 1]) {
      p, core, q := Core(s[..|s| - 1]);
      q := q + [s[|s| - 1]];
    } else {
      p, core, q := [], s, [];
    }
  }

  lemma LowerConcat(a: string, b: string)
    ensures Lower(a + b) == Lower(a) + Lower(b)
  {
  }

  /** Lower case changes no white space. */
  lemma LowerKeepsSpace(s: string)
    ensures Blank(Lower(s)) <==> Blank(s)
    ensures Trimmed(Lower(s)) <==> Trimmed(s)
  {
    if Blank(Lower(s)) {
      forall c <- s ensures IsSpace(c) {
        var i :| 0 <= i < |s| && s[i] == c;
        assert Lower(s)[i] in Lower(s);
      }
    }
    if Blank(s) {
      forall c <- Lower(s) ensures IsSpace(c) {
        var i :| 0 <= i < |s| && Lower(s)[i] == c;
        assert s[i] in s;
      }
    }
  }

  /** Lowering and trimming commute. */
  lemma LowerTrim(s: string)
    ensures Trim(Lower(s)) == Lower(Trim(s))
  {
    LowerKeepsSpace(s);
    if Blank(s) {
      TrimLeftOf(s, []);
      TrimLeftOf(Lower(s), []);
      assert s + [] == s && Lower(s) + [] == Lower(s);
    } else {
      var p, core, q := Core(s);
      TrimCore(p, core, q);
      LowerConcat(p + core, q);
      LowerConcat(p, core);
      LowerKeepsSpace(p);
      LowerKeepsSpace(core);
      LowerKeepsSpace(q);
      TrimCore(Lower(p), Lower(core), Lower(q));
    }
  }

  // ---- normalisation ----

  lemma LowerIsIdentityIff(s: string)
    ensures Lower(s) == s <==> forall c <- s :: !IsUpper(c)
  {
  }

  lemma TrimIsIdentityIff(s: string)
    requires !Blank(s)
    ensures Trim(s) == s <==> Trimmed(s)
  {
    var p, core, q := Core(s);
    TrimCore(p, core, q);
    if Trimmed(s) {
      assert s == [] + s + [];
      TrimCore([], s, []);
    }
  }

  /** A name is its own canonical form exactly when it is not empty, starts and ends with something other
      than white space, and holds no capital letter. */
  lemma CanonicalIff(s: string)
    ensures Normalized(s) == Ok(s) <==> s != [] && Trimmed(s) && forall c <- s :: !IsUpper(c)
  {
    LowerIsIdentityIff(s);
    if !Blank(s) {
      LowerTrim(s);
      TrimIsIdentityIff(s);
      LowerKeepsSpace(s);
      TrimIsIdentityIff(Lower(s));
      var p, core, q := Core(s);
      TrimCore(p, core, q);
    } else if s != [] {
      assert s[0] in s;
    }
  }

  /** Normalising gives a canonical name, so doing it again changes nothing. */
  lemma NormalizedIsCanonical(s: string)
    requires Normalized(s).Ok?
    ensures Normalized(Normalized(s).value) == Normalized(s)
  {
    var p, core, q := Core(s);
    LowerTrim(s);
    TrimCore(p, core, q);
    LowerKeepsSpace(core);
    CanonicalIff(Lower(core));
  }

  /** Two characters are the same letter, case aside. */
  predicate SameLetter(c: char, d: char) {
    || c == d
    || (IsUpper(c) && d as int == c as int + 32)
    || (IsUpper(d) && c as int == d as int + 32)
  }

  predicate SameLetters(a: string, b: string) {
    |a| == |b| && forall i :: 0 <= i < |a| ==> SameLetter(a[i], b[i])
  }

  /** Two strings are the same name: after taking some white space off both ends of each, the same letters. */
  ghost predicate SameName(a: string, b: string) {
    exists p, q, p', q', core, core' ::
      Variant(a, p, core, q) && Variant(b, p', core', q') && SameLetters(core, core')
  }

  /** `s` is `core` with padding. */
  ghost predicate Variant(s: string, p: string, core: string, q: string) {
    Blank(p) && Blank(q) && s == p + core + q
  }

  lemma SameLettersIff(a: string, b: string)
    ensures SameLetters(a, b) <==> Lower(a) == Lower(b)
  {
  }

  /** Padding of any kind is trimmed off, whatever it surrounds. */
  lemma TrimPadded(p: string, s: string, q: string)
    requires Blank(p) && Blank(q) && !Blank(s)
    ensures Trim(p + s + q) == Trim(s)
  {
    var p', core, q' := Core(s);
    TrimCore(p', core, q');
    BlankConcat(p, p');
    BlankConcat(q', q);
    TrimCore(p + p', core, q' + q);
    assert p + s + q == (p + p') + core + (q' + q);
  }

  lemma BlankConcat(a: string, b: string)
    ensures Blank(a + b) <==> Blank(a) && Blank(b)
  {
  }

  /** Normalisation is a complete test for being the same name: of two names that are not blank, the
      canonical forms are equal exactly when the names are equal up to letter case and padding. */
  lemma SameNameIff(a: string, b: string)
    requires !Blank(a) && !Blank(b)
    ensures Normalized(a) == Normalized(b) <==> SameName(a, b)
  {
    LowerTrim(a);
    LowerTrim(b);
    if Normalized(a) == Normalized(b) {
      var p, core, q := Core(a);
      var p', core', q' := Core(b);
      TrimCore(p, core, q);
      TrimCore(p', core', q');
      SameLettersIff(core, core');
      assert Variant(a, p, core, q) && Variant(b, p', core', q');
    }
    if SameName(a, b) {
      var p, q, p', q', core, core' :|
        Variant(a, p, core, q) && Variant(b, p', core', q') && SameLetters(core, core');
      SameLettersIff(core, core');
      BlankConcat(p + core, q);
      BlankConcat(p, core);
      BlankConcat(p' + core', q');
      BlankConcat(p', core');
      TrimPadded(p, core, q);
      TrimPadded(p', core', q');
      LowerTrim(core);
      LowerTrim(core');
    }
  }

  // ---- normalisation by code points ----

  /** White space by its code points, and letters by theirs: a core that neither starts nor ends with one of 9 to
      13 and 32 comes out of any padding with these, 65 to 90 moved up by 32 and nothing else changed. */
  lemma NormalizedLiterally(pad: string, core: string, pad': string)
    requires forall c <- pad + pad' :: 9 <= c as int <= 13 || c as int == 32
    requires core != []
    requires !(9 <= core[0] as int <= 13 || core[0] as int == 32)
    requires !(9 <= core[|core| - 1] as int <= 13 || core[|core| - 1] as int == 32)
    ensures Normalized(pad + core + pad').Ok?
    ensures |Normalized(pad + core + pad').value| == |core|
    ensures forall i :: 0 <= i < |core| && 65 <= core[i] as int <= 90 ==>
              Normalized(pad + core + pad').value[i] as int == core[i] as int + 32
    ensures forall i :: 0 <= i < |core| && !(65 <= core[i] as int <= 90) ==>
              Normalized(pad + core + pad').value[i] == core[i]
  {
    assert Blank(pad) && Blank(pad') by {
      forall c <- pad ensures IsSpace(c) { assert c in pad + pad'; }
      forall c <- pad' ensures IsSpace(c) { assert c in pad + pad'; }
    }
    assert Trimmed(core);
    BlankConcat(pad + core, pad');
    BlankConcat(pad, core);
    assert core[0] in core;
    LowerTrim(pad + core + pad');
    TrimCore(pad, core, pad');
  }

  /** The error is for exactly the strings of white space, the empty one included. */
  lemma EmptyNameLiterally(s: string)
    ensures Normalized(s) == Err(EmptyName) <==> forall c <- s :: 9 <= c as int <= 13 || c as int == 32
    ensures Normalized(s) != Err(EmptyName) ==> Normalized(s).Ok?
  {
    assert forall c :: IsSpace(c) <==> 9 <= c as int <= 13 || c as int == 32;
  }

  // ---- the code ----

  /** `std::transform` with `tolower`, in place. */
  method LowerInPlace(text: array<char>)
    modifies text
    ensures text[..] == Lower(old(text[..]))
  {
    for i := 0 to text.Length
      invariant forall j :: 0 <= j < i ==> text[j] == ToLower(old(text[j]))
      invariant forall j :: i <= j < text.Length ==> text[j] == old(text[j])
    {
      text[i] := ToLower(text[i]);
    }
  }

  /** `find_first_not_of` the white space characters; None stands for `npos`. */
  method FindFirstNotSpace(s: string) returns (first: Option<nat>)
    ensures first == None <==> Blank(s)
    ensures first.Some? ==> first.value < |s| && !IsSpace(s[first.value]) && Blank(s[..first.value])
  {
    var i := 0;
    while i < |s| && IsSpace(s[i])
      invariant 0 <= i <= |s|
      invariant Blank(s[..i])
    {
      assert s[..i + 1] == s[..i] + [s[i]];
      i := i + 1;
    }
    if i == |s| {
      assert s[..i] == s;
      return None;
    }
    assert s[i] in s;
    return Some(i);
  }

  /** `find_last_not_of` the white space characters. */
  method FindLastNotSpace(s: string) returns (last: Option<nat>)
    ensures last == None <==> Blank(s)
    ensures last.Some? ==> last.value < |s| && !IsSpace(s[last.value]) && Blank(s[last.value + 1..])
  {
    var i := |s|;
    while i > 0 && IsSpace(s[i - 1])
      invariant 0 <= i <= |s|
      invariant Blank(s[i..])
    {
      assert s[i - 1..] == [s[i - 1]] + s[i..];
      i := i - 1;
    }
    if i == 0 {
      assert s[0..] == s;
      return None;
    }
    assert s[i - 1] in s;
    return Some(i - 1);
  }

  /** Everything up to the first and everything after the last character that is not white space is padding. */
  lemma Between(s: string, first: nat, last: nat)
    requires first < |s| && last < |s| && !IsSpace(s[first]) && !IsSpace(s[last])
    requires Blank(s[..first]) && Blank(s[last + 1..])
    ensures first <= last && Trim(s) == s[first..last + 1]
  {
    assert forall i :: 0 <= i < first ==> s[..first][i] == s[i] && s[i] in s[..first];
    var core := s[first..last + 1];
    assert s == s[..first] + core + s[last + 1..];
    TrimCore(s[..first], core, s[last + 1..]);
  }

  /** Lower case in place, then the part between the first and the last character that is not white space. */
  method NormalizeProtocolName(protocol: string) returns (r: Result<string, NetError>)
    ensures r == Normalized(protocol)
  {
    var text := new char[|protocol|](i requires 0 <= i < |protocol| => protocol[i]);
    assert text[..] == protocol;
    LowerInPlace(text);
    var lower := text[..];
    LowerKeepsSpace(protocol);
    var start := FindFirstNotSpace(lower);
    if start == None {
      return Err(EmptyName);
    }
    var end := FindLastNotSpace(lower);
    Between(lower, start.value, end.value);
    r := Ok(lower[start.value..end.value + 1]);
  }

  // ---- definitions ----

  type Port = p: int | 0 <= p <= 65535

  datatype Transport = Quic | Tcp | Http

  datatype MessageEncoding = Binary | Text

  datatype ProtocolDefinition = ProtocolDefinition(
    name: string, defaultPort: Port, transport: Transport, tlsSupported: bool, messageEncoding: MessageEncoding)

  /** What a definition is constructed from: the name as written, and the rest. */
  datatype Declaration = Declaration(
    name: string, defaultPort: Port, transport: Transport, tlsSupported: bool, messageEncoding: MessageEncoding)

  /** The constructor of definitions, which normalises the name or throws. */
  function Define(d: Declaration): Result<ProtocolDefinition, NetError> {
    match Normalized(d.name)
    case Ok(name) => Ok(ProtocolDefinition(name, d.defaultPort, d.transport, d.tlsSupported, d.messageEncoding))
    case Err(error) => Err(error)
  }

  /** A list of definitions, constructed one after the other. */
  function DefineAll(ds: seq<Declaration>): Result<seq<ProtocolDefinition>, NetError> {
    if ds == [] then Ok([])
    else
      match Define(ds[0])
      case Err(error) => Err(error)
      case Ok(def) =>
        match DefineAll(ds[1..])
        case Err(error) => Err(error)
        case Ok(defs) => Ok([def] + defs)
  }

  /** What a constructed definition can be relied on for. */
  predicate WellMade(d: ProtocolDefinition) {
    Normalized(d.name) == Ok(d.name)
  }

  lemma DefinedIsWellMade(d: Declaration)
    requires Define(d).Ok?
    ensures WellMade(Define(d).value)
  {
    NormalizedIsCanonical(d.name);
  }

  /** A list can be constructed exactly if no name in it is blank; it then has one well-made definition for
      each declaration, with everything but the name as declared, and the name in canonical form. */
  lemma {:induction false} DefineAllIff(ds: seq<Declaration>)
    ensures DefineAll(ds).Ok? <==> forall i :: 0 <= i < |ds| ==> !Blank(ds[i].name)
    ensures DefineAll(ds).Err? ==> DefineAll(ds).error == EmptyName
    ensures DefineAll(ds).Ok? ==>
              && |DefineAll(ds).value| == |ds|
              && forall i :: 0 <= i < |ds| ==> Define(ds[i]) == Ok(DefineAll(ds).value[i]) && WellMade(DefineAll(ds).value[i])
    ensures DefineAll(ds).Ok? ==>
              forall i :: 0 <= i < |ds| ==>
                && Normalized(ds[i].name) == Ok(DefineAll(ds).value[i].name)
                && DefineAll(ds).value[i].defaultPort == ds[i].defaultPort
                && DefineAll(ds).value[i].transport == ds[i].transport
                && DefineAll(ds).value[i].tlsSupported == ds[i].tlsSupported
                && DefineAll(ds).value[i].messageEncoding == ds[i].messageEncoding
    decreases |ds|
  {
    if ds != [] {
      DefineAllIff(ds[1..]);
      if Define(ds[0]).Ok? {
        DefinedIsWellMade(ds[0]);
      }
      assert forall i :: 0 < i < |ds| ==> ds[i] == ds[1..][i - 1];
    }
  }
}
