/** Small things several components share. */
module Basics {

  datatype Option<+T> = None | Some(value: T)

  /** The numbers from zero up to `n`. */
  ghost function Range(n: nat): (r: set<int>)
    ensures |r| == n && forall i :: i in r <==> 0 <= i < n
  {
    if n == 0 then {} else Range(n - 1) + {n - 1}
  }

  /** Removal from a dense vector: the last element takes the removed element's place. */
  function Without<T>(s: seq<T>, x: nat): (r: seq<T>)
    requires x < |s|
    ensures |r| == |s| - 1
  {
    if x == |s| - 1 then s[..x] else s[..|s| - 1][x := s[|s| - 1]]
  }

  function Pow2(e: nat): nat { if e == 0 then 1 else 2 * Pow2(e - 1) }

  lemma {:induction false} Pow2Positive(e: nat)
    ensures Pow2(e) > 0
  {
    if e > 0 { Pow2Positive(e - 1); }
  }
}
