/**
 * The colon-separated cipher string that a context installs, and what can be read back from it.
 */
module CipherList {
  import opened CStrings

  const NUL: char := '\0'

  /** The left fold with delimiter ":" that joins the names; no names give the empty string. */
  function Join(names: seq<string>): string {
    if names == [] then "" else Accumulate(names[1..], names[0])
  }

  /** The fold itself: `joined` is what has been put together so far. */
  function Accumulate(names: seq<string>, joined: string): string {
    if names == [] then joined else Accumulate(names[1..], joined + ":" + names[0])
  }

  /** The string the library receives: the joined string is passed as a C string. */
  function Installed(names: seq<string>): string {
    CString(Join(names), NUL)
  }

  /** The fields of a colon-separated string, from the left. */
  function Split(s: string): (names: seq<string>)
    ensures names != []
    ensures forall name <- names :: ':' !in name
  {
    if s == [] then [""]
    else
      var rest := Split(s[1..]);
      if s[0] == ':' then [""] + rest else [[s[0]] + rest[0]] + rest[1..]
  }

  function TotalLength(names: seq<string>): nat {
    if names == [] then 0 else |names[0]| + TotalLength(names[1..])
  }

  ghost predicate ColonFree(names: seq<string>) {
    forall name <- names :: ':' !in name
  }

  ghost predicate NulFree(names: seq<string>) {
    forall name <- names :: NUL !in name
  }

  /** Folding onto a longer accumulator only prepends to the result. */
  lemma {:induction false} AccumulatePrepends(names: seq<string>, a: string, b: string)
    ensures Accumulate(names, a + b) == a + Accumulate(names, b)
    decreases |names|
  {
    if names != [] {
      assert a + b + ":" + names[0] == a + (b + ":" + names[0]);
      AccumulatePrepends(names[1..], a, b + ":" + names[0]);
    }
  }

  /** The left fold peels from the left: first name, colon, the rest joined. */
  lemma JoinCons(names: seq<string>)
    requires |names| > 1
    ensures Join(names) == names[0] + ":" + Join(names[1..])
  {
    AccumulatePrepends(names[2..], names[0] + ":", names[1]);
    assert names[1..][1..] == names[2..];
  }

  /** A colon-free field in front of a string that is empty or starts with a colon splits off whole. */
  lemma {:induction false} SplitField(field: string, rest: string)
    requires ':' !in field
    ensures Split(field + ":" + rest) == [field] + Split(rest)
    ensures Split(field) == [field]
    decreases |field|
  {
    if field == [] {
      assert field + ":" + rest == ":" + rest;
      assert (":" + rest)[1..] == rest;
    } else {
      SplitField(field[1..], rest);
      assert (field + ":" + rest)[1..] == field[1..] + ":" + rest;
      assert field == [field[0]] + field[1..];
    }
  }

  /** Splitting undoes joining on every non-empty list of colon-free names. */
  lemma {:induction false} SplitJoin(names: seq<string>)
    requires names != [] && ColonFree(names)
    ensures Split(Join(names)) == names
    decreases |names|
  {
    SplitField(names[0], "");
    if |names| == 1 {
      assert names == [names[0]];
    } else {
      JoinCons(names);
      SplitField(names[0], Join(names[1..]));
      assert ColonFree(names[1..]) by {
        forall name <- names[1..] ensures ':' !in name { assert name in names; }
      }
      SplitJoin(names[1..]);
      assert names == [names[0]] + names[1..];
    }
  }

  /** ... and on no other list. */
  lemma SplitJoinIff(names: seq<string>)
    ensures Split(Join(names)) == names <==> names != [] && ColonFree(names)
  {
    if names != [] && ColonFree(names) {
      SplitJoin(names);
    }
  }

  /** The other round trip holds for every string: joining the fields gives the string back. */
  lemma {:induction false} JoinSplit(s: string)
    ensures Join(Split(s)) == s
    decreases |s|
  {
    if s != [] {
      JoinSplit(s[1..]);
      var rest := Split(s[1..]);
      var names := Split(s);
      assert s == [s[0]] + s[1..];
      if s[0] == ':' {
        assert names[1..] == rest;
        JoinCons(names);
      } else if |rest| > 1 {
        assert names[1..] == rest[1..];
        JoinCons(rest);
        JoinCons(names);
      }
    }
  }

  /** Two lists of colon-free names with the same joined string are the same list. */
  lemma JoinInjective(a: seq<string>, b: seq<string>)
    requires a != [] && b != [] && ColonFree(a) && ColonFree(b)
    requires Join(a) == Join(b)
    ensures a == b
  {
    SplitJoin(a);
    SplitJoin(b);
  }

  /** The joined string holds every character of every name and one colon between neighbours. */
  lemma {:induction false} JoinLength(names: seq<string>)
    requires names != []
    ensures |Join(names)| == TotalLength(names) + |names| - 1
    decreases |names|
  {
    if |names| > 1 {
      JoinCons(names);
      JoinLength(names[1..]);
    }
  }

  /** A NUL reaches the joined string exactly when some name holds one. */
  lemma {:induction false} JoinNul(names: seq<string>)
    ensures NUL in Join(names) <==> !NulFree(names)
    decreases |names|
  {
    if |names| > 1 {
      JoinCons(names);
      JoinNul(names[1..]);
      assert names == [names[0]] + names[1..];
      assert NulFree(names) <==> NUL !in names[0] && NulFree(names[1..]);
    } else if |names| == 1 {
      assert names == [names[0]];
    }
  }

  /** The requested names can be read back from what the library received exactly when the list is
      non-empty and no name holds a colon or a NUL. */
  lemma InstalledReadsBackIff(names: seq<string>)
    ensures Split(Installed(names)) == names <==> names != [] && ColonFree(names) && NulFree(names)
  {
    JoinNul(names);
    CStringIsWholeIff(Join(names), NUL);
    SplitJoinIff(names);
    JoinSplit(Installed(names));
  }

  /** What the library receives, spelled out: nothing for no names, a single name as it is, and the first name, a
      colon and the rest for more of them; all of it up to the first character with code 0. */
  lemma InstalledLiterally(names: seq<string>)
    ensures names == [] ==> Installed(names) == ""
    ensures |names| == 1 ==> Join(names) == names[0]
    ensures |names| > 1 ==> Join(names) == names[0] + ":" + Join(names[1..])
    ensures (forall name <- names :: forall c <- name :: c as int != 0) ==> Installed(names) == Join(names)
    ensures Installed(names) <= Join(names) && forall c <- Installed(names) :: c as int != 0
    ensures |Installed(names)| < |Join(names)| ==> Join(names)[|Installed(names)|] as int == 0
  {
    if |names| > 1 {
      JoinCons(names);
    }
    if forall name <- names :: forall c <- name :: c as int != 0 {
      assert NulFree(names);
      JoinNul(names);
      CStringIsWholeIff(Join(names), NUL);
    }
  }
}
