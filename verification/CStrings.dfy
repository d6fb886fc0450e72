/** C strings: what a buffer holds before its first NUL. */
module CStrings {

  predicate NoNul<T(==)>(s: seq<T>, nul: T) {
    forall i :: 0 <= i < |s| ==> s[i] != nul
  }

  // All of the buffer if it has no NUL.
  function CString<T(==)>(buffer: seq<T>, nul: T): (s: seq<T>)
    ensures s <= buffer && forall i :: 0 <= i < |s| ==> s[i] != nul
    ensures |s| < |buffer| ==> buffer[|s|] == nul
  {
    if buffer == [] || buffer[0] == nul then [] else [buffer[0]] + CString(buffer[1..], nul)
  }

  lemma {:induction false} CStringIs<T>(buffer: seq<T>, s: seq<T>, nul: T)
    requires NoNul(s, nul) && s <= buffer
    requires |s| < |buffer| ==> buffer[|s|] == nul
    ensures CString(buffer, nul) == s
  {
    if s != [] {
      assert buffer[0] == s[0] && buffer[1..][..|s| - 1] == s[1..];
      CStringIs(buffer[1..], s[1..], nul);
    }
  }
}
