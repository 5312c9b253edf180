/**
  Facts about concatenation the proofs elsewhere call for by name.
 */
module Sequences {

  lemma DropAppend<T>(x: seq<T>, y: seq<T>, k: nat)
    requires k <= |x|
    ensures (x + y)[k..] == x[k..] + y
  {
  }

  lemma TakeAppend<T>(x: seq<T>, y: seq<T>)
    requires y != []
    ensures (x + y)[..|x + y| - 1] == x + y[..|y| - 1]
  {
  }

  lemma TakeDrop<T>(s: seq<T>, n: nat)
    requires n <= |s|
    ensures |s[..n]| == n && s == s[..n] + s[n..]
  {
  }

  lemma SplitLast<T>(s: seq<T>)
    requires s != []
    ensures s == s[..|s| - 1] + [s[|s| - 1]]
  {
  }

  lemma StepAt<T>(s: seq<T>, i: nat)
    requires i < |s|
    ensures s[i..][0] == s[i] && s[i..][1..] == s[i + 1..] && s[..i + 1] == s[..i] + [s[i]]
  {
  }

  lemma ConsAppend<T>(c: T, x: seq<T>, y: seq<T>)
    ensures ([c] + x) + y == [c] + (x + y)
  {
  }

  lemma ConcatAssoc<T>(x: seq<T>, y: seq<T>, z: seq<T>)
    ensures x + (y + z) == (x + y) + z
  {
  }

  lemma NothingBefore<T>(x: seq<T>)
    ensures [] + x == x
  {
  }

  lemma NothingAfter<T>(x: seq<T>)
    ensures x + [] == x
  {
  }
}
