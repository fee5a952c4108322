/** Cardinalities of finite sets. */
module Counting {
  /** A set covered by the values of a function on `s` is no larger than `s`. */
  lemma {:induction false} ImageSize<A, B>(f: A -> B, s: set<A>, t: set<B>)
    requires forall b :: b in t ==> exists a :: a in s && f(a) == b
    ensures |t| <= |s|
    decreases |t|
  {
    if t != {} {
      var b :| b in t;
      var a :| a in s && f(a) == b;
      forall b' | b' in t - {b} ensures exists a' :: a' in s - {a} && f(a') == b' {
        var a' :| a' in s && f(a') == b';
        assert a' in s - {a};
      }
      ImageSize(f, s - {a}, t - {b});
    }
  }

  ghost function Below(n: nat): (r: set<nat>)
    ensures |r| == n && forall i: nat :: i in r <==> i < n
  {
    if n == 0 then {} else Below(n - 1) + {n - 1}
  }
}
