/** Definitions that more than one part of the model uses. */
module Basics {
  datatype Option<+T> = None | Some(value: T)

  /** Lower-casing of the ASCII letters, which are all a DNS name distinguishes by case. */
  function LowerChar(c: char): char {
    if 'A' <= c <= 'Z' then (c as int + 32) as char else c
  }

  function Lower(s: string): (r: string)
    ensures |r| == |s| && forall i :: 0 <= i < |s| ==> r[i] == LowerChar(s[i])
  {
    seq(|s|, i requires 0 <= i < |s| => LowerChar(s[i]))
  }
}
