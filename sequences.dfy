/** Searching a sequence, shared by the key lookups of the array and the splitting of lines. */
module Sequences {
  /** Position of the first occurrence of `x` in `xs`, or -1 when there is none. */
  function IndexOf<T(==)>(xs: seq<T>, x: T): (r: int)
    ensures -1 <= r < |xs|
    ensures r >= 0 ==> xs[r] == x && x !in xs[..r]
    ensures r < 0 ==> x !in xs
  {
    if xs == [] then -1
    else if xs[0] == x then 0
    else
      var r := IndexOf(xs[1..], x);
      assert r >= 0 ==> xs[..r + 1] == [xs[0]] + xs[1..][..r];
      if r < 0 then -1 else r + 1
  }

  /** The first occurrence is determined by the element and the prefix before it. */
  lemma IndexOfUnique<T>(xs: seq<T>, x: T, r: int)
    requires 0 <= r < |xs| && xs[r] == x && x !in xs[..r]
    ensures IndexOf(xs, x) == r
  {
  }
}
