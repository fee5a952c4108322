/** strings.Split, strings.SplitN(s, sep, 2), strings.HasPrefix and strings.Join for one-character separators. */
module Strings {
  /** The first position of `c`, or |s|. */
  function IndexOf(s: string, c: char): (i: nat)
    ensures i <= |s| && c !in s[..i] && (i < |s| ==> s[i] == c)
  {
    if |s| == 0 || s[0] == c then 0
    else
      var i := IndexOf(s[1..], c);
      assert s[..i + 1] == [s[0]] + s[1..][..i];
      1 + i
  }

  function Split(s: string, c: char): (parts: seq<string>)
    ensures |parts| > 0
    decreases |s|
  {
    var i := IndexOf(s, c);
    if i == |s| then [s] else [s[..i]] + Split(s[i + 1..], c)
  }

  /** Splits at the first separator only. */
  function SplitFirst(s: string, c: char): seq<string> {
    var i := IndexOf(s, c);
    if i == |s| then [s] else [s[..i], s[i + 1..]]
  }

  function Join(parts: seq<string>, c: char): string
    requires |parts| > 0
  {
    if |parts| == 1 then parts[0] else parts[0] + [c] + Join(parts[1..], c)
  }

  ghost predicate Free(parts: seq<string>, c: char) {
    forall p :: p in parts ==> c !in p
  }

  lemma {:induction false} IndexAt(a: string, c: char, b: string)
    requires c !in a
    ensures IndexOf(a + [c] + b, c) == |a|
  {
    if |a| > 0 {
      IndexAt(a[1..], c, b);
      assert (a + [c] + b)[1..] == a[1..] + [c] + b;
    }
  }

  lemma Cut(s: string, i: nat)
    requires i < |s|
    ensures s[..i] + [s[i]] + s[i + 1..] == s
  {
  }

  lemma {:induction false} JoinCons(first: string, rest: seq<string>, c: char)
    requires |rest| > 0
    ensures Join([first] + rest, c) == first + [c] + Join(rest, c)
  {
    assert ([first] + rest)[1..] == rest;
  }

  lemma {:induction false} JoinSplit(s: string, c: char)
    ensures Join(Split(s, c), c) == s
    decreases |s|
  {
    var i := IndexOf(s, c);
    if i == |s| {
      assert s[..i] == s;
    } else {
      var rest := Split(s[i + 1..], c);
      assert Split(s, c) == [s[..i]] + rest;
      JoinSplit(s[i + 1..], c);
      hide Split, Join, IndexOf;
      JoinCons(s[..i], rest, c);
      Cut(s, i);
    }
  }

  lemma {:induction false} SplitFree(s: string, c: char)
    ensures Free(Split(s, c), c)
    decreases |s|
  {
    if IndexOf(s, c) < |s| { SplitFree(s[IndexOf(s, c) + 1..], c); }
  }

  lemma {:induction false} SplitJoin(parts: seq<string>, c: char)
    requires |parts| > 0 && Free(parts, c)
    ensures Split(Join(parts, c), c) == parts
  {
    var s := Join(parts, c);
    if |parts| == 1 {
      assert parts[0] in parts;
    } else {
      SplitJoin(parts[1..], c);
      IndexAt(parts[0], c, Join(parts[1..], c));
      assert s[..|parts[0]|] == parts[0] && s[|parts[0]| + 1..] == Join(parts[1..], c);
      assert parts == [parts[0]] + parts[1..];
    }
  }

  /** Two parts come out exactly when there is exactly one separator. */
  lemma {:induction false} SplitInTwo(s: string, c: char, a: string, b: string)
    ensures Split(s, c) == [a, b] <==> s == a + [c] + b && c !in a && c !in b
  {
    if Split(s, c) == [a, b] {
      JoinSplit(s, c);
      SplitFree(s, c);
      assert a in Split(s, c) && b in Split(s, c);
      assert [a, b][1..] == [b];
    }
    if s == a + [c] + b && c !in a && c !in b {
      assert [a, b][1..] == [b];
      SplitJoin([a, b], c);
    }
  }
}
