/** The selection loops of the source: keep the elements that satisfy a condition, in order. */
module Lists {
  function Filtered<T>(keep: T -> bool, s: seq<T>): seq<T> {
    if |s| == 0 then [] else
      var init, last := s[..|s| - 1], s[|s| - 1];
      Filtered(keep, init) + (if keep(last) then [last] else [])
  }

  /** `at` lists, in increasing order, exactly the positions of `s` that satisfy `keep`. */
  ghost predicate Positions<T>(keep: T -> bool, s: seq<T>, at: seq<nat>) {
    && (forall k :: 0 <= k < |at| ==> at[k] < |s| && keep(s[at[k]]))
    && (forall j, k :: 0 <= j < k < |at| ==> at[j] < at[k])
    && (forall i :: 0 <= i < |s| && keep(s[i]) ==> i in at)
  }

  /** Filtered is what it should be: the satisfying elements, all of them, once each, in order. */
  lemma {:induction false} FilteredExactly<T>(keep: T -> bool, s: seq<T>) returns (at: seq<nat>)
    ensures Positions(keep, s, at) && |at| == |Filtered(keep, s)|
    ensures forall k :: 0 <= k < |at| ==> Filtered(keep, s)[k] == s[at[k]]
  {
    if |s| == 0 {
      at := [];
    } else {
      var n := |s| - 1;
      var before := FilteredExactly(keep, s[..n]);
      at := before + (if keep(s[n]) then [n] else []);
      PositionsSnoc(keep, s, before);
      forall k | 0 <= k < |at| ensures Filtered(keep, s)[k] == s[at[k]] {
        assert k < |before| ==> Filtered(keep, s)[k] == Filtered(keep, s[..n])[k] == s[..n][before[k]];
      }
    }
  }

  lemma PositionsSnoc<T>(keep: T -> bool, s: seq<T>, before: seq<nat>)
    requires |s| > 0 && Positions(keep, s[..|s| - 1], before)
    ensures Positions(keep, s, before + (if keep(s[|s| - 1]) then [|s| - 1] else []))
  {
    var n := |s| - 1;
    var at := before + (if keep(s[n]) then [n] else []);
    assert forall i :: 0 <= i < n ==> s[..n][i] == s[i];
    forall i | 0 <= i < |s| && keep(s[i]) ensures i in at {
      if i < n {
        assert keep(s[..n][i]);
        assert i in before;
      } else {
        assert at[|before|] == n;
      }
    }
  }

  lemma {:induction false} FilteredMember<T>(keep: T -> bool, s: seq<T>, x: T)
    ensures x in Filtered(keep, s) <==> x in s && keep(x)
  {
    var at := FilteredExactly(keep, s);
    if x in Filtered(keep, s) {
      var k :| 0 <= k < |at| && Filtered(keep, s)[k] == x;
      assert s[at[k]] == x;
    }
    if x in s && keep(x) {
      var i :| 0 <= i < |s| && s[i] == x;
      assert i in at;
      var k :| 0 <= k < |at| && at[k] == i;
      assert Filtered(keep, s)[k] == x;
    }
  }

  lemma FilteredSnoc<T>(keep: T -> bool, s: seq<T>, i: nat)
    requires i < |s|
    ensures Filtered(keep, s[..i + 1]) == Filtered(keep, s[..i]) + (if keep(s[i]) then [s[i]] else [])
  {
    assert s[..i + 1][..i] == s[..i];
  }
}
