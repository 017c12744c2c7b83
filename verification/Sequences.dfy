/** Sequence facts that several components need. */
module Sequences {

  function Copies<T>(x: T, n: nat): (s: seq<T>)
    ensures |s| == n
  {
    seq(n, _ => x)
  }

  lemma CopiesUnfold<T>(x: T, n: nat)
    requires n > 0
    ensures Copies(x, n) == [x] + Copies(x, n - 1)
    ensures Copies(x, n)[1..] == Copies(x, n - 1)
  {
  }

  lemma Reassociate<T>(a: seq<T>, b: seq<T>, c: seq<T>)
    ensures a + b + c == a + (b + c)
  {
  }
}
