/** Sums over sequences. The protocol models count threads by summing a 0/1
    weight over the sequence of thread records. */
module Counting {

  function SumBy<T>(s: seq<T>, w: T -> int): int {
    if s == [] then 0 else w(s[0]) + SumBy(s[1..], w)
  }

  /** One thread moves: only its own weight changes. */
  lemma {:induction false} SumByUpdate<T>(s: seq<T>, k: nat, v: T, w: T -> int)
    requires k < |s|
    ensures SumBy(s[k := v], w) == SumBy(s, w) - w(s[k]) + w(v)
  {
    if k == 0 {
      assert s[0 := v][1..] == s[1..];
    } else {
      assert s[k := v][1..] == s[1..][k - 1 := v];
      SumByUpdate(s[1..], k - 1, v, w);
    }
  }

  lemma {:induction false} SumByNonneg<T>(s: seq<T>, w: T -> int)
    requires forall x :: x in s ==> w(x) >= 0
    ensures SumBy(s, w) >= 0
  {
    if s != [] {
      SumByNonneg(s[1..], w);
    }
  }

  /** When every record weighs the same, the sum is a product. */
  lemma {:induction false} SumByConstant<T>(s: seq<T>, w: T -> int, c: int)
    requires forall x :: x in s ==> w(x) == c
    ensures SumBy(s, w) == c * |s|
  {
    if s != [] {
      SumByConstant(s[1..], w, c);
    }
  }

  function Max(a: int, b: int): int {
    if a >= b then a else b
  }

  function Min(a: int, b: int): int {
    if a <= b then a else b
  }
}
