/** Text passed to C functions by pointer: a C function reads it up to its first NUL. */
module CStrings {

  /** What a C function sees of `s`: everything before the first terminator. */
  function CString<T(==)>(s: seq<T>, nul: T): (c: seq<T>)
    ensures c <= s
    ensures nul !in c
    ensures |c| < |s| ==> s[|c|] == nul
  {
    if s == [] || s[0] == nul then [] else [s[0]] + CString(s[1..], nul)
  }

  /** The three clauses of `CString` determine it: the NUL-free prefix that is ended by a NUL or by the end of `s`. */
  lemma {:induction false} CStringIsUnique<T>(s: seq<T>, nul: T, c: seq<T>)
    requires c <= s && nul !in c
    requires |c| < |s| ==> s[|c|] == nul
    ensures CString(s, nul) == c
  {
  }

  /** C sees all of a string exactly when the string holds no NUL. */
  lemma CStringIsWholeIff<T>(s: seq<T>, nul: T)
    ensures CString(s, nul) == s <==> nul !in s
  {
  }

  /** A terminator ends the text before the end of the buffer. */
  lemma TextEndsBefore<T>(s: seq<T>, nul: T)
    requires nul in s
    ensures |CString(s, nul)| < |s| && s[|CString(s, nul)|] == nul
  {
  }
}
