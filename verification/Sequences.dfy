/** Facts about joining and cutting sequences, stated once for the proofs that need to point at them. */
module Sequences {

  lemma Regroup<T>(a: seq<T>, b: seq<T>, c: seq<T>)
    ensures (a + b) + c == a + (b + c)
  {
  }

  lemma Glue<T>(a: seq<T>, b: seq<T>)
    ensures (a + b)[..|a|] == a && (a + b)[|a|..] == b
  {
  }

  lemma MiddleOf<T>(a: seq<T>, b: seq<T>, c: seq<T>)
    ensures (a + (b + c))[|a|..|a| + |b|] == b
  {
  }

  lemma LastOf<T>(s: seq<T>)
    requires s != []
    ensures s == s[..|s| - 1] + [s[|s| - 1]]
  {
  }

  lemma SplitAt<T>(s: seq<T>, from: nat, end: nat)
    requires from <= end <= |s|
    ensures s[from..] == s[from..end] + s[end..]
  {
  }
}
