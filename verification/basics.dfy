/** Small integer and sequence facts shared by the other modules. */
module Basics {

  /** Swift's min on two integers. */
  function Min(a: int, b: int): int {
    if a <= b then a else b
  }

  lemma SliceSplit<T>(s: seq<T>, a: nat, b: nat, c: nat)
    requires a <= b <= c <= |s|
    ensures s[a..b] + s[b..c] == s[a..c]
  {
  }

  lemma SliceWhole<T>(s: seq<T>)
    ensures s[0..|s|] == s
  {
  }

  lemma AppendAssoc<T>(a: seq<T>, b: seq<T>, c: seq<T>)
    ensures a + b + c == a + (b + c)
  {
  }
}
