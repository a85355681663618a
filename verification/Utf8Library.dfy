/**
 * The two calls into the UTF-8 library: a scanner and an in-place repairer for NUL-terminated strings.
 *
 * The library's source is not part of the modelled repository. What is written here is the contract that
 * the conversion relies on: the scanner accepts the well-formed strings of RFC 3629, section 4; the
 * repairer keeps every character it reads and puts one replacement where it cannot read one. How many
 * unreadable bytes one replacement stands for is left open: it is a parameter, `skip`, bound only to take
 * at least one byte and no byte at which a character starts.
 */
module Utf8Library {
  import opened Results
  import opened CStrings
  import opened Utf8

  const NUL: Byte := 0
  const REPLACEMENT: Byte := 0x3F

  type Skip = seq<Byte> -> nat

  /** `k` bytes that one replacement may stand for. */
  ghost predicate Skippable(s: seq<Byte>, k: nat) {
    1 <= k <= |s| && forall i {:trigger HeadLen(s[i..])} :: 0 <= i < k ==> HeadLen(s[i..]) == 0
  }

  ghost predicate Sound(skip: Skip) {
    forall s {:trigger skip(s)} :: s != [] && HeadLen(s) == 0 ==> Skippable(s, skip(s))
  }

  /** One replacement for each unreadable byte is one such choice. */
  lemma OneByteEach()
    ensures Sound(s => 1)
  {
  }

  /** How many bytes the repairer reads at the head of a string: a character, or what one replacement stands for. */
  function Taken(s: seq<Byte>, skip: Skip): (k: nat)
    requires Sound(skip) && s != []
    ensures 1 <= k <= |s|
  {
    if HeadLen(s) > 0 then HeadLen(s)
    else
      assert Skippable(s, skip(s));
      skip(s)
  }

  /** What it writes for them. */
  function Put(s: seq<Byte>, skip: Skip): (put: seq<Byte>)
    requires Sound(skip) && s != []
    ensures 1 <= |put| <= Taken(s, skip)
  {
    if HeadLen(s) > 0 then s[..HeadLen(s)] else [REPLACEMENT]
  }

  /** What the repairer makes of a string. */
  function Repair(s: seq<Byte>, skip: Skip): (r: seq<Byte>)
    requires Sound(skip)
    ensures |r| <= |s|
    ensures NUL !in s ==> NUL !in r
    decreases |s|
  {
    if s == [] then [] else Put(s, skip) + Repair(s[Taken(s, skip)..], skip)
  }

  // ---- what repair achieves ----

  /** Whatever goes in, well-formed UTF-8 comes out. */
  lemma {:induction false} RepairWellFormed(s: seq<Byte>, skip: Skip)
    requires Sound(skip)
    ensures WellFormed(Repair(s, skip))
    decreases |s|
  {
    if s == [] {
      EmptyIsWellFormed();
    } else if HeadLen(s) > 0 {
      HeadIsChar(s);
      RepairWellFormed(s[HeadLen(s)..], skip);
      WellFormedCons(s[..HeadLen(s)], Repair(s[HeadLen(s)..], skip));
    } else {
      RepairWellFormed(s[skip(s)..], skip);
      WellFormedCons([REPLACEMENT], Repair(s[skip(s)..], skip));
    }
  }

  lemma RepairChar(c: seq<Byte>, rest: seq<Byte>, skip: Skip)
    requires Sound(skip) && IsChar(c)
    ensures Repair(c + rest, skip) == c + Repair(rest, skip)
  {
    HeadOf(c, rest);
    ConcatParts(c, rest);
  }

  /** A well-formed prefix is left alone, and what follows it is repaired as if it stood alone. */
  lemma {:induction false} RepairKeepsPrefix(a: seq<Byte>, b: seq<Byte>, skip: Skip)
    requires Sound(skip) && WellFormed(a)
    ensures Repair(a + b, skip) == a + Repair(b, skip)
    decreases |a|
  {
    ScanDecides(a);
    if a == [] {
      assert a + b == b;
    } else {
      HeadIsChar(a);
      var c, rest := a[..HeadLen(a)], a[HeadLen(a)..];
      TakeDrop(a, HeadLen(a));
      ScanDecides(rest);
      RepairKeepsPrefix(rest, b, skip);
      RepairChar(c, rest + b, skip);
      Assoc(c, rest, b);
      Assoc(c, rest, Repair(b, skip));
    }
  }

  /** Exactly the well-formed strings are left alone. */
  lemma RepairIsIdentityIff(s: seq<Byte>, skip: Skip)
    requires Sound(skip)
    ensures Repair(s, skip) == s <==> WellFormed(s)
  {
    if WellFormed(s) {
      RepairKeepsPrefix(s, [], skip);
      assert s + [] == s;
    }
    RepairWellFormed(s, skip);
  }

  /** The text that is left of a string when unreadable bytes and question marks are dropped. */
  function Readable(s: seq<Byte>): seq<Byte>
    decreases |s|
  {
    if s == [] then []
    else if HeadLen(s) == 0 then Readable(s[1..])
    else (if s[0] == REPLACEMENT then [] else s[..HeadLen(s)]) + Readable(s[HeadLen(s)..])
  }

  /** Bytes at which no character starts do not matter to it. */
  lemma {:induction false} ReadableSkips(s: seq<Byte>, k: nat)
    requires Skippable(s, k)
    ensures Readable(s) == Readable(s[k..])
    decreases k
  {
    assert s[0..] == s;
    if k > 1 {
      forall i | 0 <= i < k - 1 ensures HeadLen(s[1..][i..]) == 0 {
        assert s[1..][i..] == s[i + 1..];
      }
      ReadableSkips(s[1..], k - 1);
      assert s[1..][k - 1..] == s[k..];
    }
  }

  /** Repair loses no readable text and invents none, however the unreadable bytes are grouped: apart from
      question marks, input and output read the same. */
  lemma {:induction false} RepairKeepsReadable(s: seq<Byte>, skip: Skip)
    requires Sound(skip)
    ensures Readable(Repair(s, skip)) == Readable(s)
    decreases |s|
  {
    if s == [] {
    } else if HeadLen(s) > 0 {
      HeadIsChar(s);
      var c, rest := s[..HeadLen(s)], Repair(s[HeadLen(s)..], skip);
      RepairKeepsReadable(s[HeadLen(s)..], skip);
      HeadOf(c, rest);
      ConcatParts(c, rest);
    } else {
      var rest := Repair(s[skip(s)..], skip);
      RepairKeepsReadable(s[skip(s)..], skip);
      ReadableSkips(s, skip(s));
      HeadOf([REPLACEMENT], rest);
      ConcatParts([REPLACEMENT], rest);
    }
  }

  // ---- repair, piece by piece ----

  /** A repaired string is made of characters that are kept and of unreadable bytes that are replaced. */
  datatype Piece = Kept(c: seq<Byte>) | Replaced(bytes: seq<Byte>)

  /** The bytes that were read for some pieces. */
  function Read(pieces: seq<Piece>): seq<Byte> {
    if pieces == [] then []
    else (match pieces[0] case Kept(c) => c case Replaced(b) => b) + Read(pieces[1..])
  }

  /** The bytes that are written for them: a character as it is, and one question mark, 0x3F, for anything else. */
  function Written(pieces: seq<Piece>): seq<Byte> {
    if pieces == [] then []
    else (match pieces[0] case Kept(c) => c case Replaced(_) => [0x3F]) + Written(pieces[1..])
  }

  /** What is kept are characters; what is replaced are bytes at none of which a character starts. */
  ghost predicate Faithful(pieces: seq<Piece>) {
    pieces == [] ||
    (&& Faithful(pieces[1..])
     && match pieces[0]
        case Kept(c) => IsChar(c)
        case Replaced(b) => Skippable(Read(pieces), |b|))
  }

  /** Every byte that repair writes belongs to a character that it has read there, or is 0x3F for bytes that it
      could not read; nothing else is dropped and nothing else is written. */
  lemma {:induction false} RepairByPieces(s: seq<Byte>, skip: Skip) returns (pieces: seq<Piece>)
    requires Sound(skip)
    ensures Faithful(pieces) && Read(pieces) == s && Written(pieces) == Repair(s, skip)
    decreases |s|
  {
    if s == [] {
      pieces := [];
    } else {
      var k := Taken(s, skip);
      var later := RepairByPieces(s[k..], skip);
      TakeDrop(s, k);
      HeadIsChar(s);
      var first := if HeadLen(s) > 0 then Kept(s[..k]) else Replaced(s[..k]);
      pieces := [first] + later;
      assert pieces[1..] == later;
    }
  }

  // ---- the calls ----

  /** The scanner: None for a well-formed string, otherwise the offset where it stops being one. */
  method Validate(str: seq<Byte>) returns (bad: Option<nat>)
    requires NUL in str
    ensures bad == None <==> WellFormed(CString(str, NUL))
    ensures bad.Some? ==>
              && bad.value < |CString(str, NUL)|
              && WellFormed(str[..bad.value])
              && HeadLen(CString(str, NUL)[bad.value..]) == 0
  {
    ghost var text := CString(str, NUL);
    var at := 0;
    EmptyIsWellFormed();
    while str[at] != NUL
      invariant at <= |text|
      invariant WellFormed(text[..at])
      decreases |text| - at
    {
      Rest(str, at);
      var rest := CString(str[at..], NUL);
      var k := HeadLen(rest);
      HeadIsChar(rest);
      assert text == text[..at] + rest;
      WellFormedAppend(text[..at], rest);
      if k == 0 {
        ScanDecides(rest);
        return Some(at);
      }
      assert text[..at + k] == text[..at] + rest[..k];
      assert rest[..k] == rest[..k] + [];
      WellFormedCons(rest[..k], []);
      WellFormedAppend(text[..at], rest[..k]);
      at := at + k;
    }
    assert text[..at] == text;
    return None;
  }

  /** The unread part of a NUL-terminated string is NUL-terminated text itself. */
  lemma Rest(str: seq<Byte>, at: nat)
    requires NUL in str && at <= |CString(str, NUL)|
    ensures CString(str[at..], NUL) == CString(str, NUL)[at..]
  {
  }

  /** What the repairer will have written in the end, when it has written `written` and read up to `read`. */
  ghost function Total(text: seq<Byte>, skip: Skip, written: seq<Byte>, read: nat): seq<Byte>
    requires Sound(skip) && read <= |text|
  {
    written + Repair(text[read..], skip)
  }

  /** A turn of the repairer does not change that. */
  lemma TurnKeepsTotal(text: seq<Byte>, skip: Skip, written: seq<Byte>, read: nat, rest: seq<Byte>)
    requires Sound(skip) && read < |text| && rest == text[read..]
    ensures read + Taken(rest, skip) <= |text|
    ensures Total(text, skip, written + Put(rest, skip), read + Taken(rest, skip)) == Total(text, skip, written, read)
  {
  }

  lemma TotalAtEnds(text: seq<Byte>, skip: Skip, written: seq<Byte>)
    requires Sound(skip)
    ensures Total(text, skip, [], 0) == Repair(text, skip)
    ensures Total(text, skip, written, |text|) == written
  {
  }

  /** The repairer works in place: it reads ahead of where it writes and never touches what lies behind the
      terminator. */
  method MakeValid(data: array<Byte>, skip: Skip)
    requires Sound(skip) && NUL in data[..]
    modifies data
    ensures CString(data[..], NUL) == Repair(CString(old(data[..]), NUL), skip)
    ensures forall i :: |CString(old(data[..]), NUL)| < i < data.Length ==> data[i] == old(data[i])
  {
    ghost var before := data[..];
    ghost var text := CString(before, NUL);
    TextEndsBefore(before, NUL);
    var read: nat, write: nat := 0, 0;
    ghost var written := [];
    while data[read] != NUL
      invariant write <= read <= |text|
      invariant data[..write] == written
      invariant forall i :: read <= i < data.Length ==> data[i] == before[i]
      invariant Total(text, skip, written, read) == Total(text, skip, [], 0)
      decreases |text| - read
    {
      assert data[read..] == before[read..];
      Rest(before, read);
      read, write, written := Turn(data, skip, read, write, text, written);
    }
    assert forall i :: 0 <= i < |text| ==> text[i] in text;
    TotalAtEnds(text, skip, written);
    Terminate(data, write, written);
  }

  /** Writes the terminator behind the text. */
  method Terminate(data: array<Byte>, write: nat, ghost written: seq<Byte>)
    requires write < data.Length && data[..write] == written && NUL !in written
    modifies data
    ensures CString(data[..], NUL) == written
    ensures forall i :: write < i < data.Length ==> data[i] == old(data[i])
  {
    data[write] := NUL;
    assert data[..write] == written;
    CStringIsUnique(data[..], NUL, written);
  }

  /** One turn of the repairer: what is read at the head of the unread text, and what is written for it. */
  method Turn(data: array<Byte>, skip: Skip, read: nat, write: nat, ghost text: seq<Byte>, ghost written: seq<Byte>)
    returns (read': nat, write': nat, ghost written': seq<Byte>)
    requires Sound(skip)
    requires write <= read < |text| < data.Length
    requires data[..write] == written && CString(data[read..], NUL) == text[read..]
    modifies data
    ensures write' <= read' && read < read' <= |text|
    ensures data[..write'] == written'
    ensures Total(text, skip, written', read') == Total(text, skip, written, read)
    ensures forall i :: read' <= i < data.Length ==> data[i] == old(data[i])
  {
    var rest := CString(data[read..], NUL);
    TurnKeepsTotal(text, skip, written, read, rest);
    var put := Put(rest, skip);
    written' := written + put;
    read', write' := read + Taken(rest, skip), write + |put|;
    WriteAt(data, write, put);
  }

  /** Writes `put` at `write` and on. */
  method WriteAt(data: array<Byte>, write: nat, put: seq<Byte>)
    requires write + |put| <= data.Length
    modifies data
    ensures data[..write + |put|] == old(data[..write]) + put
    ensures forall i :: write + |put| <= i < data.Length ==> data[i] == old(data[i])
  {
    ghost var before := data[..];
    for j := 0 to |put|
      invariant data[..write + j] == before[..write] + put[..j]
      invariant forall i :: write + j <= i < data.Length ==> data[i] == before[i]
    {
      data[write + j] := put[j];
    }
  }
}
