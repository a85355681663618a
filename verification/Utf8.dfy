/**
 * Well-formed UTF-8: the byte sequences of section 4 of RFC 3629, the code points of its section 3 that
 * they encode, and the left-to-right scan that decides well-formedness.
 */
module Utf8 {

  type Byte = b: int | 0 <= b < 256

  // Sequence algebra, stated once so that the proofs below need not search for it.

  lemma Assoc(a: seq<Byte>, b: seq<Byte>, c: seq<Byte>)
    ensures (a + b) + c == a + (b + c)
  {
  }

  lemma TakeDrop(s: seq<Byte>, k: nat)
    requires k <= |s|
    ensures s == s[..k] + s[k..]
  {
  }

  lemma ConcatParts(a: seq<Byte>, b: seq<Byte>)
    ensures (a + b)[..|a|] == a && (a + b)[|a|..] == b
  {
  }

  predicate IsTail(b: Byte) {
    0x80 <= b <= 0xBF
  }

  predicate Is1(a: Byte) {
    a <= 0x7F
  }

  predicate Is2(a: Byte, b: Byte) {
    0xC2 <= a <= 0xDF && IsTail(b)
  }

  predicate Is3(a: Byte, b: Byte, c: Byte) {
    && IsTail(b) && IsTail(c)
    && ( || (a == 0xE0 && 0xA0 <= b)
         || 0xE1 <= a <= 0xEC
         || (a == 0xED && b <= 0x9F)
         || 0xEE <= a <= 0xEF)
  }

  predicate Is4(a: Byte, b: Byte, c: Byte, d: Byte) {
    && IsTail(b) && IsTail(c) && IsTail(d)
    && ( || (a == 0xF0 && 0x90 <= b)
         || 0xF1 <= a <= 0xF3
         || (a == 0xF4 && b <= 0x8F))
  }

  /** One encoded character: a production of the syntax of UTF-8 byte sequences in section 4. */
  predicate IsChar(s: seq<Byte>) {
    if |s| == 1 then Is1(s[0])
    else if |s| == 2 then Is2(s[0], s[1])
    else if |s| == 3 then Is3(s[0], s[1], s[2])
    else if |s| == 4 then Is4(s[0], s[1], s[2], s[3])
    else false
  }

  function Concat(parts: seq<seq<Byte>>): seq<Byte> {
    if parts == [] then [] else parts[0] + Concat(parts[1..])
  }

  ghost predicate AllChars(parts: seq<seq<Byte>>) {
    forall part <- parts :: IsChar(part)
  }

  /** A string is well formed if it is a concatenation of characters. */
  ghost predicate WellFormed(s: seq<Byte>) {
    exists parts :: AllChars(parts) && Concat(parts) == s
  }

  /** The length of the character at the head of `s`, or 0 if none starts there. */
  function HeadLen(s: seq<Byte>): (k: nat)
    ensures k <= |s|
  {
    if |s| >= 1 && Is1(s[0]) then 1
    else if |s| >= 2 && Is2(s[0], s[1]) then 2
    else if |s| >= 3 && Is3(s[0], s[1], s[2]) then 3
    else if |s| >= 4 && Is4(s[0], s[1], s[2], s[3]) then 4
    else 0
  }

  /** It finds a character whenever one is there. */
  lemma HeadIsChar(s: seq<Byte>)
    ensures HeadLen(s) > 0 ==> IsChar(s[..HeadLen(s)])
    ensures HeadLen(s) == 0 ==> forall i :: 0 <= i <= |s| ==> !IsChar(s[..i])
  {
  }

  /** The scan: character after character from the left, up to the end. */
  predicate Scans(s: seq<Byte>) {
    s == [] || (HeadLen(s) > 0 && Scans(s[HeadLen(s)..]))
  }

  /** No character is a proper prefix of another, so the one in front of a string is the one that the scan
      finds. */
  lemma HeadOf(c: seq<Byte>, rest: seq<Byte>)
    requires IsChar(c)
    ensures HeadLen(c + rest) == |c|
  {
  }

  lemma ScanChar(c: seq<Byte>, rest: seq<Byte>)
    requires IsChar(c)
    ensures Scans(c + rest) <==> Scans(rest)
  {
  }

  lemma {:induction false} ScanParts(parts: seq<seq<Byte>>)
    requires AllChars(parts)
    ensures Scans(Concat(parts))
  {
    if parts != [] {
      ScanParts(parts[1..]);
      ScanChar(parts[0], Concat(parts[1..]));
    }
  }

  /** The characters that the scan finds. */
  function Parts(s: seq<Byte>): (parts: seq<seq<Byte>>)
    requires Scans(s)
    ensures AllChars(parts) && Concat(parts) == s
  {
    HeadIsChar(s);
    if s == [] then [] else [s[..HeadLen(s)]] + Parts(s[HeadLen(s)..])
  }

  /** The scan never has to go back: it reaches the end of exactly the well-formed strings. */
  lemma ScanDecides(s: seq<Byte>)
    ensures Scans(s) <==> WellFormed(s)
  {
    if Scans(s) {
      assert AllChars(Parts(s));
    }
    if WellFormed(s) {
      var parts :| AllChars(parts) && Concat(parts) == s;
      ScanParts(parts);
    }
  }

  /** Well-formedness passes through a character in front. */
  lemma WellFormedCons(c: seq<Byte>, rest: seq<Byte>)
    requires IsChar(c)
    ensures WellFormed(c + rest) <==> WellFormed(rest)
  {
    ScanDecides(c + rest);
    ScanDecides(rest);
    ScanChar(c, rest);
  }

  lemma EmptyIsWellFormed()
    ensures WellFormed([])
  {
    ScanDecides([]);
  }

  /** ... and through any well-formed prefix. */
  lemma {:induction false} WellFormedAppend(a: seq<Byte>, b: seq<Byte>)
    requires WellFormed(a)
    ensures WellFormed(a + b) <==> WellFormed(b)
    decreases |a|
  {
    ScanDecides(a);
    if a == [] {
      assert a + b == b;
    } else {
      var k := HeadLen(a);
      HeadIsChar(a);
      TakeDrop(a, k);
      WellFormedCons(a[..k], a[k..]);
      WellFormedAppend(a[k..], b);
      WellFormedCons(a[..k], a[k..] + b);
      Assoc(a[..k], a[k..], b);
    }
  }

  // ---- code points ----

  /** The code points that UTF-8 encodes: no surrogates, nothing above U+10FFFF. */
  predicate IsScalar(v: int) {
    0 <= v <= 0x10FFFF && !(0xD800 <= v <= 0xDFFF)
  }

  /** The table of section 3: fill the bits into the shortest form that has room for them. */
  function Encode(v: int): (s: seq<Byte>)
    requires IsScalar(v)
  {
    if v <= 0x7F then [v]
    else if v <= 0x7FF then [0xC0 + v / 64, 0x80 + v % 64]
    else if v <= 0xFFFF then [0xE0 + v / 4096, 0x80 + v / 64 % 64, 0x80 + v % 64]
    else [0xF0 + v / 262144, 0x80 + v / 4096 % 64, 0x80 + v / 64 % 64, 0x80 + v % 64]
  }

  /** The bits that a byte carries beside its marker. */
  function Bits(b: Byte, marker: int): int {
    b - marker
  }

  function Decode(c: seq<Byte>): int
    requires IsChar(c)
  {
    if |c| == 1 then c[0]
    else if |c| == 2 then Bits(c[0], 0xC0) * 64 + Bits(c[1], 0x80)
    else if |c| == 3 then Bits(c[0], 0xE0) * 4096 + Bits(c[1], 0x80) * 64 + Bits(c[2], 0x80)
    else Bits(c[0], 0xF0) * 262144 + Bits(c[1], 0x80) * 4096 + Bits(c[2], 0x80) * 64 + Bits(c[3], 0x80)
  }

  /** Every encoded code point is a character of the syntax, and decodes to the code point. */
  lemma EncodeIsChar(v: int)
    requires IsScalar(v)
    ensures IsChar(Encode(v)) && Decode(Encode(v)) == v
  {
    var a, b := v / 64, v / 4096;
    assert a / 64 == b && v == 64 * a + v % 64 && a == 64 * b + a % 64 && b == 64 * (v / 262144) + b % 64;
  }

  lemma DigitsOf(high: int, low: int)
    requires 0 <= low < 64
    ensures (high * 64 + low) / 64 == high && (high * 64 + low) % 64 == low
  {
  }

  lemma ThreeIsEncoded(c: seq<Byte>)
    requires IsChar(c) && |c| == 3
    ensures IsScalar(Decode(c)) && Encode(Decode(c)) == c
  {
    var z, y, x := Bits(c[0], 0xE0), Bits(c[1], 0x80), Bits(c[2], 0x80);
    var v := Decode(c);
    assert v == (z * 64 + y) * 64 + x && 0x800 <= v <= 0xFFFF;
    DigitsOf(z * 64 + y, x);
    DigitsOf(z, y);
    assert v / 4096 == v / 64 / 64;
  }

  lemma FourIsEncoded(c: seq<Byte>)
    requires IsChar(c) && |c| == 4
    ensures IsScalar(Decode(c)) && Encode(Decode(c)) == c
  {
    var u, z, y, x := Bits(c[0], 0xF0), Bits(c[1], 0x80), Bits(c[2], 0x80), Bits(c[3], 0x80);
    var v := Decode(c);
    assert v == ((u * 64 + z) * 64 + y) * 64 + x && 0x10000 <= v <= 0x10FFFF;
    DigitsOf((u * 64 + z) * 64 + y, x);
    DigitsOf(u * 64 + z, y);
    DigitsOf(u, z);
    assert v / 4096 == v / 64 / 64 && v / 262144 == v / 64 / 64 / 64;
  }

  /** Every character of the syntax encodes a code point: the syntax admits no surrogate, nothing above
      U+10FFFF and no longer form than needed. */
  lemma CharIsEncoded(c: seq<Byte>)
    requires IsChar(c)
    ensures IsScalar(Decode(c)) && Encode(Decode(c)) == c
  {
    if |c| == 2 {
      DigitsOf(Bits(c[0], 0xC0), Bits(c[1], 0x80));
    } else if |c| == 3 {
      ThreeIsEncoded(c);
    } else if |c| == 4 {
      FourIsEncoded(c);
    }
  }

  /** By the numbers: in each of the four forms exactly the code points that need it, without the surrogates. */
  lemma FormsLiterally(v: int)
    ensures 0 <= v <= 0xFF ==> (WellFormed([v]) <==> v <= 0x7F)
    ensures 0 <= v <= 0x7FF ==> (WellFormed([0xC0 + v / 64, 0x80 + v % 64]) <==> 0x80 <= v)
    ensures 0 <= v <= 0xFFFF ==>
              (WellFormed([0xE0 + v / 4096, 0x80 + v / 64 % 64, 0x80 + v % 64])
               <==> 0x800 <= v <= 0xD7FF || 0xE000 <= v)
    ensures 0 <= v <= 0x1FFFFF ==>
              (WellFormed([0xF0 + v / 262144, 0x80 + v / 4096 % 64, 0x80 + v / 64 % 64, 0x80 + v % 64])
               <==> 0x10000 <= v <= 0x10FFFF)
  {
    if 0 <= v <= 0xFF { OneForm([v]); }
    if 0 <= v <= 0x7FF { OneForm([0xC0 + v / 64, 0x80 + v % 64]); }
    if 0 <= v <= 0xFFFF { ThreeForm(v, v / 64, v / 4096); }
    if 0 <= v <= 0x1FFFFF { FourForm(v, v / 64, v / 4096, v / 262144); }
  }

  lemma ThreeForm(v: int, a: int, b: int)
    requires 0 <= v <= 0xFFFF && a == v / 64 && b == v / 4096
    ensures WellFormed([0xE0 + b, 0x80 + a % 64, 0x80 + v % 64]) <==> 0x800 <= v <= 0xD7FF || 0xE000 <= v
  {
    assert b == a / 64;
    OneForm([0xE0 + b, 0x80 + a % 64, 0x80 + v % 64]);
  }

  lemma FourForm(v: int, a: int, b: int, c: int)
    requires 0 <= v <= 0x1FFFFF && a == v / 64 && b == v / 4096 && c == v / 262144
    ensures WellFormed([0xF0 + c, 0x80 + b % 64, 0x80 + a % 64, 0x80 + v % 64]) <==> 0x10000 <= v <= 0x10FFFF
  {
    assert b == a / 64 && c == b / 64;
    OneForm([0xF0 + c, 0x80 + b % 64, 0x80 + a % 64, 0x80 + v % 64]);
  }

  /** Bytes of which the first one leads and the others do not: well formed only as one character. */
  lemma OneForm(s: seq<Byte>)
    requires s != [] && (|s| == 1 || 0xC0 <= s[0])
    requires |s| <= 4 && (|s| == 2 ==> s[0] <= 0xDF) && (|s| == 3 ==> 0xE0 <= s[0] <= 0xEF) && (|s| == 4 ==> 0xF0 <= s[0])
    ensures WellFormed(s) <==> IsChar(s)
  {
    ScanDecides(s);
    if HeadLen(s) > 0 {
      assert HeadLen(s) == |s| && s[|s|..] == [];
    }
  }

  function EncodeAll(vs: seq<int>): seq<Byte>
    requires forall v <- vs :: IsScalar(v)
  {
    if vs == [] then [] else Encode(vs[0]) + EncodeAll(vs[1..])
  }

  /** The code points of a string that scans. */
  function DecodeAll(s: seq<Byte>): seq<int>
    requires Scans(s)
  {
    HeadIsChar(s);
    if s == [] then [] else [Decode(s[..HeadLen(s)])] + DecodeAll(s[HeadLen(s)..])
  }

  lemma DecodeCons(c: seq<Byte>, rest: seq<Byte>)
    requires IsChar(c) && Scans(rest)
    ensures Scans(c + rest) && DecodeAll(c + rest) == [Decode(c)] + DecodeAll(rest)
  {
    HeadOf(c, rest);
    ConcatParts(c, rest);
  }

  /** Decoding undoes encoding on every sequence of code points. */
  lemma {:induction false} DecodeEncode(vs: seq<int>)
    requires forall v <- vs :: IsScalar(v)
    ensures Scans(EncodeAll(vs)) && DecodeAll(EncodeAll(vs)) == vs
  {
    if vs != [] {
      EncodeIsChar(vs[0]);
      DecodeEncode(vs[1..]);
      DecodeCons(Encode(vs[0]), EncodeAll(vs[1..]));
    }
  }

  /** Encoding undoes decoding on every string that scans. */
  lemma {:induction false} EncodeDecode(s: seq<Byte>)
    requires Scans(s)
    ensures (forall v <- DecodeAll(s) :: IsScalar(v)) && EncodeAll(DecodeAll(s)) == s
    decreases |s|
  {
    if s != [] {
      var k := HeadLen(s);
      HeadIsChar(s);
      CharIsEncoded(s[..k]);
      EncodeDecode(s[k..]);
      TakeDrop(s, k);
      assert DecodeAll(s)[1..] == DecodeAll(s[k..]);
    }
  }

  ghost predicate Encodes(s: seq<Byte>, vs: seq<int>) {
    (forall v <- vs :: IsScalar(v)) && EncodeAll(vs) == s
  }

  /** The syntax of section 4 and the encoding of section 3 describe the same strings: a string is well
      formed exactly when it encodes some sequence of code points, and then only one. */
  lemma WellFormedIffEncodes(s: seq<Byte>)
    ensures WellFormed(s) <==> exists vs :: Encodes(s, vs)
    ensures forall vs, us :: Encodes(s, vs) && Encodes(s, us) ==> vs == us
  {
    ScanDecides(s);
    if WellFormed(s) {
      EncodeDecode(s);
      assert Encodes(s, DecodeAll(s));
    }
    forall vs | Encodes(s, vs)
      ensures Scans(s) && vs == DecodeAll(s)
    {
      DecodeEncode(vs);
    }
  }
}
