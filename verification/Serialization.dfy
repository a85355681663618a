/**
 * `convertToUTF8`: text that is well formed comes back as it is; anything else is refused, or repaired in
 * a buffer of its own.
 */
module Serialization {
  import opened Results
  import opened CStrings
  import opened Utf8
  import opened Utf8Library

  datatype ConversionError = NotUtf8(source: seq<Byte>)

  /** The text that the library gets to see. */
  function Seen(source: seq<Byte>): seq<Byte> {
    CString(source, NUL)
  }

  /** The result of a conversion. Library calls see the source only up to its first NUL, while the branch
      that accepts returns all of it. */
  ghost function Converted(source: seq<Byte>, strict: bool, skip: Skip): Result<seq<Byte>, ConversionError>
    requires Sound(skip)
  {
    if WellFormed(Seen(source)) then Ok(source)
    else if strict then Err(NotUtf8(source))
    else Ok(Repair(Seen(source), skip))
  }

  method ConvertToUtf8(source: seq<Byte>, strict: bool, skip: Skip)
    returns (result: Result<seq<Byte>, ConversionError>)
    requires Sound(skip)
    ensures result == Converted(source, strict, skip)
  {
    CStringIsUnique(source + [NUL], NUL, Seen(source));
    var bad := Validate(source + [NUL]);
    if bad == None {
      return Ok(source);
    } else if strict {
      return Err(NotUtf8(source));
    } else {
      var data := new Byte[|source| + 1];
      PrintInto(data, source);
      MakeValid(data, skip);
      return Ok(CString(data[..], NUL));
    }
  }

  /** Formatting with "%s" into a buffer with room for every character and the terminator. */
  method PrintInto(data: array<Byte>, source: seq<Byte>)
    requires data.Length == |source| + 1
    modifies data
    ensures NUL in data[..] && CString(data[..], NUL) == Seen(source)
  {
    var i := 0;
    while i < |source| && source[i] != NUL
      invariant 0 <= i <= |Seen(source)|
      invariant data[..i] == Seen(source)[..i]
      decreases |source| - i
    {
      data[i] := source[i];
      i := i + 1;
    }
    data[i] := NUL;
    assert data[..i] == Seen(source);
    CStringIsUnique(data[..], NUL, data[..i]);
  }

  // ---- what the conversion promises ----

  /** What is seen of a string ends before its first byte 0, and is all of it if there is none. */
  lemma SeenLiterally(a: seq<Byte>, b: seq<Byte>)
    requires 0 !in a
    ensures Seen(a) == a
    ensures Seen(a + [0] + b) == a
  {
    CStringIsWholeIff(a, NUL);
    CStringIsUnique(a + [0] + b, NUL, a);
  }

  /** Where it repairs, the conversion writes the characters of what is seen, and 0x3F for everything else. */
  lemma ConvertedByPieces(source: seq<Byte>, skip: Skip) returns (pieces: seq<Piece>)
    requires Sound(skip) && !WellFormed(Seen(source))
    ensures Faithful(pieces) && Read(pieces) == Seen(source)
    ensures Converted(source, false, skip) == Ok(Written(pieces))
  {
    pieces := RepairByPieces(Seen(source), skip);
  }

  /** What is seen of a well-formed string is well formed: NUL is a character of its own. */
  lemma {:induction false} SeenIsWellFormed(source: seq<Byte>)
    requires WellFormed(source)
    ensures WellFormed(Seen(source))
    decreases |source|
  {
    ScanDecides(source);
    if source == [] || source[0] == NUL {
      EmptyIsWellFormed();
    } else {
      var k := HeadLen(source);
      HeadIsChar(source);
      var c, rest := source[..k], source[k..];
      assert source == c + rest && NUL !in c;
      WellFormedCons(c, rest);
      SeenIsWellFormed(rest);
      WellFormedCons(c, Seen(rest));
      CStringIsUnique(source, NUL, c + Seen(rest));
    }
  }

  /** Strict conversion accepts exactly the strings whose seen part is well formed; for a string without NUL,
      exactly the well-formed ones. It then changes nothing, and non-strict conversion agrees. */
  lemma StrictSucceedsIff(source: seq<Byte>, skip: Skip)
    requires Sound(skip)
    ensures Converted(source, true, skip).Ok? <==> WellFormed(Seen(source))
    ensures NUL !in source ==> (Converted(source, true, skip).Ok? <==> WellFormed(source))
    ensures WellFormed(source) ==> Converted(source, true, skip).Ok?
    ensures Converted(source, true, skip).Ok? ==>
              Converted(source, true, skip) == Converted(source, false, skip) == Ok(source)
    ensures Converted(source, true, skip).Err? ==> Converted(source, true, skip) == Err(NotUtf8(source))
  {
    CStringIsWholeIff(source, NUL);
    if WellFormed(source) {
      SeenIsWellFormed(source);
    }
  }

  /** The conversion returns well-formed text unless what is seen is well formed and what lies behind it, from
      the first NUL on, is not. */
  lemma ResultWellFormedIff(source: seq<Byte>, strict: bool, skip: Skip)
    requires Sound(skip) && Converted(source, strict, skip).Ok?
    ensures WellFormed(Converted(source, strict, skip).value)
       <==> !WellFormed(Seen(source)) || WellFormed(source[|Seen(source)|..])
  {
    var seen, behind := Seen(source), source[|Seen(source)|..];
    assert seen + behind == source;
    if WellFormed(seen) {
      assert Converted(source, strict, skip) == Ok(source);
      assert WellFormed(source) <==> WellFormed(behind) by { WellFormedAppend(seen, behind); }
    } else {
      assert WellFormed(Repair(seen, skip)) by { RepairWellFormed(seen, skip); }
    }
  }

  /** For a source without NUL it always does. */
  lemma NulFreeResultWellFormed(source: seq<Byte>, strict: bool, skip: Skip)
    requires Sound(skip) && NUL !in source && Converted(source, strict, skip).Ok?
    ensures WellFormed(Converted(source, strict, skip).value)
  {
    CStringIsWholeIff(source, NUL);
    EmptyIsWellFormed();
    ResultWellFormedIff(source, strict, skip);
  }

  /** A source that passes strict conversion and is not well formed: a NUL and then a byte that starts nothing. */
  lemma StrictAcceptsIllFormed(skip: Skip)
    requires Sound(skip)
    ensures Converted([0, 0x80], true, skip) == Ok([0, 0x80]) && !WellFormed([0, 0x80])
  {
    var source: seq<Byte> := [0, 0x80];
    EmptyIsWellFormed();
    ScanDecides(source);
    assert HeadLen(source) == 1 && source[1..] == [0x80];
    assert HeadLen(source[1..]) == 0;
  }

  /** Converting a result again changes nothing and cannot fail, strictly or not, and whatever the library
      groups under one replacement. */
  lemma ConvertingAgain(source: seq<Byte>, strict: bool, again: bool, skip: Skip, skip': Skip)
    requires Sound(skip) && Sound(skip') && Converted(source, strict, skip).Ok?
    ensures Converted(Converted(source, strict, skip).value, again, skip') == Converted(source, strict, skip)
  {
    if !WellFormed(Seen(source)) {
      var repaired := Repair(Seen(source), skip);
      RepairWellFormed(Seen(source), skip);
      CStringIsWholeIff(repaired, NUL);
    }
  }

  lemma SeenBehind(a: seq<Byte>, b: seq<Byte>)
    ensures NUL !in a ==> Seen(a + b) == a + Seen(b)
    ensures NUL in a ==> Seen(a + b) == Seen(a)
  {
    if NUL in a {
      TextEndsBefore(a, NUL);
      CStringIsUnique(a + b, NUL, Seen(a));
    } else {
      CStringIsUnique(a + b, NUL, a + Seen(b));
    }
  }

  /** Non-strict conversion keeps a well-formed beginning, byte for byte, and treats what follows as if it stood
      alone; if the beginning holds a NUL, it keeps all of it and all that follows. */
  lemma ConversionKeepsPrefix(a: seq<Byte>, b: seq<Byte>, skip: Skip)
    requires Sound(skip) && WellFormed(a)
    ensures NUL !in a ==> Converted(a + b, false, skip) == Ok(a + Converted(b, false, skip).value)
    ensures NUL in a ==> Converted(a + b, false, skip) == Ok(a + b)
  {
    SeenBehind(a, b);
    SeenIsWellFormed(a);
    WellFormedAppend(a, Seen(b));
    RepairKeepsPrefix(a, Seen(b), skip);
  }

  /** Non-strict conversion never fails, never lengthens a text, and keeps what can be read of what is seen. */
  lemma NonStrictKeepsText(source: seq<Byte>, skip: Skip)
    requires Sound(skip)
    ensures Converted(source, false, skip).Ok?
    ensures |Converted(source, false, skip).value| <= |source|
    ensures Readable(Seen(Converted(source, false, skip).value)) == Readable(Seen(source))
  {
    RepairKeepsReadable(Seen(source), skip);
    CStringIsWholeIff(Repair(Seen(source), skip), NUL);
  }

  /** The library is free in one thing only, and that shows in the number of question marks alone. */
  lemma GroupingDoesNotMatter(source: seq<Byte>, skip: Skip, skip': Skip)
    requires Sound(skip) && Sound(skip')
    ensures Readable(Seen(Converted(source, false, skip).value)) == Readable(Seen(Converted(source, false, skip').value))
  {
    NonStrictKeepsText(source, skip);
    NonStrictKeepsText(source, skip');
  }

  /** "hello \x80 world" becomes "hello ? world", for every way of grouping unreadable bytes, and for any
      well-formed text around the byte. */
  lemma LoneContinuationByte(hello: seq<Byte>, world: seq<Byte>, skip: Skip)
    requires Sound(skip) && WellFormed(hello) && 0 !in hello && WellFormed(Seen(world))
    ensures Converted(hello + [0x80] + world, false, skip) == Ok(hello + [0x3F] + Seen(world))
    ensures Converted(hello + [0x80] + world, true, skip) == Err(NotUtf8(hello + [0x80] + world))
  {
    Assoc(hello, [0x80], world);
    SeenBehind(hello, [0x80] + world);
    SeenBehind([0x80], world);
    var bad: seq<Byte> := [0x80] + Seen(world);
    BadHead(Seen(world), skip);
    WellFormedAppend(hello, bad);
    RepairKeepsPrefix(hello, bad, skip);
    Assoc(hello, [0x3F], Seen(world));
  }

  lemma BadHead(world: seq<Byte>, skip: Skip)
    requires Sound(skip) && WellFormed(world)
    ensures !WellFormed([0x80] + world)
    ensures Repair([0x80] + world, skip) == [0x3F] + world
  {
    var bad: seq<Byte> := [0x80] + world;
    ScanDecides(bad);
    ScanDecides(world);
    assert HeadLen(bad) == 0 && bad[1..] == world;
    assert Skippable(bad, skip(bad)) && skip(bad) == 1;
    RepairIsIdentityIff(world, skip);
  }

  /** The same for any byte at which no character starts, whatever follows it: a lone unreadable byte between
      well-formed texts becomes 0x3F. */
  lemma LoneUnreadableByte(before: seq<Byte>, b: Byte, after: seq<Byte>, skip: Skip)
    requires Sound(skip) && WellFormed(before) && WellFormed(after)
    requires 0 !in before && 0 !in after && HeadLen([b] + after) == 0
    ensures Converted(before + [b] + after, false, skip) == Ok(before + [0x3F] + after)
  {
    var bad := [b] + after;
    Assoc(before, [b], after);
    assert 0 !in before + bad by {
      assert b != 0 by { assert bad[0] == b; }
    }
    SeenLiterally(before + bad, []);
    ScanDecides(bad);
    ScanDecides(after);
    WellFormedAppend(before, bad);
    RepairKeepsPrefix(before, bad, skip);
    assert bad[1..] == after;
    assert Skippable(bad, skip(bad)) && skip(bad) == 1;
    RepairIsIdentityIff(after, skip);
    Assoc(before, [0x3F], after);
  }
}
