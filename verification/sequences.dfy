/** Searching sequences, shared by the listener registry and the request validation. */
module Sequences {

  /** Position of the first occurrence of `x`, or -1 when there is none. */
  function IndexOf<T(==)>(s: seq<T>, x: T): (k: int)
    ensures -1 <= k < |s|
    ensures k == -1 <==> x !in s
    ensures 0 <= k ==> s[k] == x && x !in s[..k]
  {
    if |s| == 0 then -1
    else if s[0] == x then 0
    else
      var k := IndexOf(s[1..], x);
      if k == -1 then -1
      else
        assert s[..k + 1] == [s[0]] + s[1..][..k];
        k + 1
  }

  /** Two positions that both hold the first occurrence of `x` are the same. */
  lemma FirstIndexUnique<T>(s: seq<T>, x: T, i: int, j: int)
    requires 0 <= i < |s| && s[i] == x && x !in s[..i]
    requires 0 <= j < |s| && s[j] == x && x !in s[..j]
    ensures i == j
  {
  }
}
