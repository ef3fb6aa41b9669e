/** Reversal of texts, for code that works from the right. */
module Texts {

  function Reverse(s: string): (r: string)
    ensures |r| == |s| && forall x :: 0 <= x < |s| ==> r[x] == s[|s| - 1 - x]
  {
    seq(|s|, x requires 0 <= x < |s| => s[|s| - 1 - x])
  }

  lemma ReverseAppend(a: string, b: string)
    ensures Reverse(a + b) == Reverse(b) + Reverse(a)
  {
  }

  lemma ReverseTwice(s: string)
    ensures Reverse(Reverse(s)) == s
  {
  }
}
