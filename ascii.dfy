/** ASCII case folding, used to normalise operation names before they are
    looked up in the registry. */
module Ascii {

  predicate IsUpper(c: char) {
    'A' <= c <= 'Z'
  }

  /** Lower-case one character; characters other than A-Z are kept. */
  function LowerChar(c: char): (d: char)
    ensures !IsUpper(d)
    ensures IsUpper(c) ==> d as int == c as int + 32
    ensures !IsUpper(c) ==> d == c
  {
    if IsUpper(c) then (c as int + 32) as char else c
  }

  /** Lower-case a string character by character. */
  function Lower(s: string): (r: string)
    ensures |r| == |s|
    ensures forall i {:trigger r[i]} :: 0 <= i < |s| ==> r[i] == LowerChar(s[i])
  {
    if s == [] then [] else [LowerChar(s[0])] + Lower(s[1..])
  }

  /** Lower-casing twice is the same as lower-casing once. */
  lemma {:induction false} LowerIdempotent(s: string)
    ensures Lower(Lower(s)) == Lower(s)
  {
    var once := Lower(s);
    var twice := Lower(once);
    forall i | 0 <= i < |s|
      ensures twice[i] == once[i]
    {
      assert !IsUpper(once[i]);
    }
  }

  /** A string with no upper-case letter is its own lower-case form. */
  lemma {:induction false} LowerOfLower(s: string)
    requires forall i :: 0 <= i < |s| ==> !IsUpper(s[i])
    ensures Lower(s) == s
  {
    var r := Lower(s);
    forall i | 0 <= i < |s|
      ensures r[i] == s[i]
    {
    }
  }
}
