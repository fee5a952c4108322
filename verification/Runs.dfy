/** Runs of a labelled step system. `next` is total: a label that is not enabled leaves the state
    alone, so every sequence of labels is a run and a statement over all label sequences is a
    statement over all interleavings. */
module Runs {
  /** The state after the labels `ls`, taken in order from `s`. */
  function Exec<S, L>(next: (S, L) -> S, s: S, ls: seq<L>): S {
    if |ls| == 0 then s else next(Exec(next, s, ls[..|ls| - 1]), ls[|ls| - 1])
  }

  /** `hyp` holds of every step of the run, in the state the step is taken from. */
  ghost predicate Always<S, L>(next: (S, L) -> S, hyp: (S, L) -> bool, s: S, ls: seq<L>) {
    forall i :: 0 <= i < |ls| ==> hyp(Exec(next, s, ls[..i]), ls[i])
  }

  lemma {:induction false} ExecSnoc<S, L>(next: (S, L) -> S, s: S, ls: seq<L>, l: L)
    ensures Exec(next, s, ls + [l]) == next(Exec(next, s, ls), l)
  {
    assert (ls + [l])[..|ls|] == ls;
  }

  lemma {:induction false} ExecAppend<S, L>(next: (S, L) -> S, s: S, ls: seq<L>, ms: seq<L>)
    ensures Exec(next, s, ls + ms) == Exec(next, Exec(next, s, ls), ms)
  {
    if |ms| == 0 {
      assert ls + ms == ls;
    } else {
      var n := |ms| - 1;
      ExecAppend(next, s, ls, ms[..n]);
      assert (ls + ms)[..|ls + ms| - 1] == ls + ms[..n];
    }
  }

  lemma AlwaysPrefix<S, L>(next: (S, L) -> S, hyp: (S, L) -> bool, s: S, ls: seq<L>, n: nat)
    requires n <= |ls| && Always(next, hyp, s, ls)
    ensures Always(next, hyp, s, ls[..n])
  {
    forall i | 0 <= i < n ensures hyp(Exec(next, s, ls[..n][..i]), ls[..n][i]) {
      assert ls[..n][..i] == ls[..i];
    }
  }

  lemma {:induction false} AlwaysSuffix<S, L>(next: (S, L) -> S, hyp: (S, L) -> bool, s: S, ls: seq<L>, ms: seq<L>)
    requires Always(next, hyp, s, ls + ms)
    ensures Always(next, hyp, Exec(next, s, ls), ms)
  {
    forall i | 0 <= i < |ms| ensures hyp(Exec(next, Exec(next, s, ls), ms[..i]), ms[i]) {
      ExecAppend(next, s, ls, ms[..i]);
      assert (ls + ms)[..|ls| + i] == ls + ms[..i] && (ls + ms)[|ls| + i] == ms[i];
    }
  }

  lemma {:induction false} AlwaysSnoc<S, L>(next: (S, L) -> S, hyp: (S, L) -> bool, s: S, ls: seq<L>, l: L)
    requires Always(next, hyp, s, ls) && hyp(Exec(next, s, ls), l)
    ensures Always(next, hyp, s, ls + [l])
    ensures Exec(next, s, ls + [l]) == next(Exec(next, s, ls), l)
  {
    ExecSnoc(next, s, ls, l);
    forall i | 0 <= i < |ls + [l]| ensures hyp(Exec(next, s, (ls + [l])[..i]), (ls + [l])[i]) {
      assert (ls + [l])[..i] == ls[..i];
      if i == |ls| { assert ls[..i] == ls; }
    }
  }

  /** A predicate kept by every step that satisfies `hyp` holds after every run of such steps. */
  lemma {:induction false} Invariance<S(!new), L(!new)>(
      next: (S, L) -> S, hyp: (S, L) -> bool, inv: S -> bool, s: S, ls: seq<L>)
    requires inv(s) && Always(next, hyp, s, ls)
    requires forall t, l :: inv(t) && hyp(t, l) ==> inv(next(t, l))
    ensures inv(Exec(next, s, ls))
  {
    if |ls| > 0 {
      var n := |ls| - 1;
      AlwaysPrefix(next, hyp, s, ls, n);
      Invariance(next, hyp, inv, s, ls[..n]);
      assert hyp(Exec(next, s, ls[..n]), ls[n]);
    }
  }

  /** `t` is the end of a run from `s` whose every step satisfies `hyp`. */
  ghost predicate Reaches<S(!new), L(!new)>(next: (S, L) -> S, hyp: (S, L) -> bool, s: S, t: S) {
    exists ls: seq<L> :: Always(next, hyp, s, ls) && t == Exec(next, s, ls)
  }

  lemma ReachesSelf<S(!new), L(!new)>(next: (S, L) -> S, hyp: (S, L) -> bool, s: S)
    ensures Reaches(next, hyp, s, s)
  {
    assert Always(next, hyp, s, []);
    assert Exec(next, s, []) == s;
  }

  lemma ReachesNext<S(!new), L(!new)>(next: (S, L) -> S, hyp: (S, L) -> bool, s: S, t: S, l: L)
    requires Reaches(next, hyp, s, t) && hyp(t, l)
    ensures Reaches(next, hyp, s, next(t, l))
  {
    var ls: seq<L> :| Always(next, hyp, s, ls) && t == Exec(next, s, ls);
    AlwaysSnoc(next, hyp, s, ls, l);
  }

  /** `t` is a state that the run `ls` from `s` goes through, not before its step number `from`. */
  ghost predicate Passes<S, L>(next: (S, L) -> S, s: S, ls: seq<L>, from: nat, t: S) {
    exists n :: from <= n <= |ls| && t == Exec(next, s, ls[..n])
  }

  lemma {:induction false} PassesNow<S, L>(next: (S, L) -> S, s: S, ls: seq<L>, from: nat)
    requires from <= |ls|
    ensures Passes(next, s, ls, from, Exec(next, s, ls))
  {
    assert ls[..|ls|] == ls;
  }

  lemma PassesLater<S, L>(next: (S, L) -> S, s: S, ls: seq<L>, ms: seq<L>, from: nat, earlier: nat, t: S)
    requires Passes(next, s, ls, from, t) && ls <= ms && earlier <= from
    ensures Passes(next, s, ms, earlier, t)
  {
    var n :| from <= n <= |ls| && t == Exec(next, s, ls[..n]);
    assert ms[..n] == ls[..n];
  }

  /** `t` is the state from which the run takes a step of the given kind, not before its step number `from`. */
  ghost predicate StepsFrom<S, L>(next: (S, L) -> S, s: S, ls: seq<L>, from: nat, t: S, kind: L -> bool) {
    exists n :: from <= n < |ls| && t == Exec(next, s, ls[..n]) && kind(ls[n])
  }

  lemma {:induction false} StepsNow<S, L>(next: (S, L) -> S, s: S, ls: seq<L>, l: L, from: nat, kind: L -> bool)
    requires from <= |ls| && kind(l)
    ensures StepsFrom(next, s, ls + [l], from, Exec(next, s, ls), kind)
  {
    assert (ls + [l])[..|ls|] == ls;
  }

  lemma StepsLater<S, L>(next: (S, L) -> S, s: S, ls: seq<L>, ms: seq<L>, from: nat, earlier: nat, t: S,
      kind: L -> bool)
    requires StepsFrom(next, s, ls, from, t, kind) && ls <= ms && earlier <= from
    ensures StepsFrom(next, s, ms, earlier, t, kind)
  {
    var n :| from <= n < |ls| && t == Exec(next, s, ls[..n]) && kind(ls[n]);
    assert ms[..n] == ls[..n];
  }

  /** How many steps of the run are of the given kind, in the state they are taken from. */
  ghost function Taken<S, L>(next: (S, L) -> S, kind: (S, L) -> bool, s: S, ls: seq<L>): nat {
    if |ls| == 0 then 0
    else
      var n := |ls| - 1;
      Taken(next, kind, s, ls[..n]) + (if kind(Exec(next, s, ls[..n]), ls[n]) then 1 else 0)
  }
}
