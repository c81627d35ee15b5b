/** Two laws of sequences that the verifier needs to be told where they are used. */
module Sequences {
  lemma ConcatAssociative<T>(a: seq<T>, b: seq<T>, c: seq<T>)
    ensures a + b + c == a + (b + c)
  {
  }

  lemma SliceOfSlice<T>(s: seq<T>, from: nat, to: nat, a: nat, b: nat)
    requires from <= to <= |s| && a <= b <= to - from
    ensures s[from..to][a..b] == s[from + a..from + b]
  {
    var slice := s[from..to];
    assert forall i :: 0 <= i < b - a ==> slice[a..b][i] == slice[a + i] == s[from + a + i] == s[from + a..from + b][i];
  }
}
