/** The C-string view of a character sequence: `strlen` stops at the first NUL. */
module CStrings {

  /** The length `strlen` reports: the index of the first NUL, or |s| when there is none. */
  function Strlen(s: string): (n: nat)
    ensures n <= |s|
    ensures forall i :: 0 <= i < n ==> s[i] != '\0'
    ensures n < |s| ==> s[n] == '\0'
  {
    if |s| == 0 || s[0] == '\0' then 0 else 1 + Strlen(s[1..])
  }

  /** A sequence without NUL is read whole. */
  lemma StrlenWithoutNul(s: string)
    requires '\0' !in s
    ensures Strlen(s) == |s|
  {
  }
}
