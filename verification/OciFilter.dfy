/** internal/types/filters.go and parseOCIFilters of internal/address/oci.go. */
module OciFilter {
  import opened Wrappers
  import opened Strings

  type Tags = map<string, string>

  /** A nil map in the source is None. */
  datatype OCIFilters = OCIFilters(freeformTags: Option<Tags>)

  const PREFIX := "freeformTags."

  predicate HasPrefix(s: string, prefix: string) {
    prefix <= s
  }

  function ParseFreeformTagFilter(filter: string): Result<(string, string), string> {
    if HasPrefix(filter, PREFIX) then
      var split := Split(filter[|PREFIX|..], '=');
      if |split| == 2 then Success((split[0], split[1])) else Failure(filter)
    else Failure(filter)
  }

  predicate CheckFreeformTagFilter(f: OCIFilters, target: Option<Tags>) {
    if f.freeformTags.None? then true
    else if target.None? then false
    else forall key :: key in f.freeformTags.value ==>
      key in target.value && target.value[key] == f.freeformTags.value[key]
  }

  function Print(key: string, value: string): string {
    PREFIX + key + "=" + value
  }

  /** A filter parses exactly when it is the print of a key and a value without '='. */
  lemma ParsesExactly(filter: string, key: string, value: string)
    ensures ParseFreeformTagFilter(filter) == Success((key, value))
       <==> filter == Print(key, value) && '=' !in key && '=' !in value
  {
    if HasPrefix(filter, PREFIX) {
      var f := filter[|PREFIX|..];
      assert filter == PREFIX + f;
      SplitInTwo(f, '=', key, value);
      assert filter == Print(key, value) <==> f == key + ['='] + value by {
        assert Print(key, value) == PREFIX + (key + ['='] + value);
        assert filter == Print(key, value) ==> f == Print(key, value)[|PREFIX|..];
      }
      assert |Split(f, '=')| == 2 ==> Split(f, '=') == [Split(f, '=')[0], Split(f, '=')[1]];
    } else {
      assert PREFIX <= Print(key, value);
    }
  }

  /** The map parseOCIFilters builds: later filters overwrite earlier ones. */
  function Compiled(filters: seq<string>): Result<Tags, string> {
    if |filters| == 0 then Success(map[])
    else
      var before, last := Compiled(filters[..|filters| - 1]), filters[|filters| - 1];
      if before.Failure? then before
      else if !HasPrefix(last, PREFIX) then Failure(last)
      else
        var parsed := ParseFreeformTagFilter(last);
        if parsed.Failure? then Failure(parsed.error)
        else Success(before.value[parsed.value.0 := parsed.value.1])
  }

  lemma {:induction false} CompiledPrefix(filters: seq<string>, n: nat)
    requires n <= |filters|
    ensures Compiled(filters[..n]).Failure? ==> Compiled(filters) == Compiled(filters[..n])
  {
    if n < |filters| {
      CompiledPrefix(filters[..|filters| - 1], n);
      assert filters[..|filters| - 1][..n] == filters[..n];
    } else {
      assert filters[..n] == filters;
    }
  }

  /** The text of a filter. */
  ghost predicate Readable(filter: string) {
    exists key, value :: filter == Print(key, value) && '=' !in key && '=' !in value
  }

  lemma ReadableExactly(filter: string)
    ensures Readable(filter) <==> ParseFreeformTagFilter(filter).Success?
    ensures !Readable(filter) ==> ParseFreeformTagFilter(filter) == Failure(filter)
    ensures Readable(filter) ==> HasPrefix(filter, PREFIX)
  {
    var parsed := ParseFreeformTagFilter(filter);
    if parsed.Success? { ParsesExactly(filter, parsed.value.0, parsed.value.1); }
    if key, value :| filter == Print(key, value) && '=' !in key && '=' !in value { ParsesExactly(filter, key, value); }
    hide Print;
  }

  ghost predicate FirstUnreadable(filters: seq<string>, i: nat) {
    i < |filters| && !Readable(filters[i]) && forall j :: 0 <= j < i ==> Readable(filters[j])
  }

  /** A list of filters compiles if and only if all of them are readable; else the first that is not is
      the error. */
  lemma {:induction false} CompilesExactly(filters: seq<string>)
    ensures Compiled(filters).Success? <==> forall f :: f in filters ==> Readable(f)
    ensures forall i: nat :: FirstUnreadable(filters, i) ==> Compiled(filters) == Failure(filters[i])
  {
    if |filters| > 0 {
      var n := |filters| - 1;
      CompilesExactly(filters[..n]);
      ReadableExactly(filters[n]);
      hide ParseFreeformTagFilter, Readable, HasPrefix;
      assert filters == filters[..n] + [filters[n]];
      forall i: nat | FirstUnreadable(filters, i) && i < n ensures FirstUnreadable(filters[..n], i) {
        assert forall j :: 0 <= j <= i ==> filters[..n][j] == filters[j];
      }
      forall i: nat | FirstUnreadable(filters, i) && i == n ensures forall f :: f in filters[..n] ==> Readable(f) {
      }
    }
  }

  /** parseOCIFilters, on a non-nil configuration. */
  method ParseOCIFilters(filters: seq<string>) returns (r: Result<OCIFilters, string>)
    ensures match Compiled(filters)
            case Success(tags) => r == Success(OCIFilters(Some(tags)))
            case Failure(e) => r == Failure(e)
  {
    var freeformTags: Tags := map[];
    for i := 0 to |filters|
      invariant Compiled(filters[..i]) == Success(freeformTags)
    {
      var filter := filters[i];
      assert filters[..i + 1][..i] == filters[..i];
      CompiledPrefix(filters, i + 1);
      if HasPrefix(filter, PREFIX) {
        var parsed := ParseFreeformTagFilter(filter);
        if parsed.Failure? {
          return Failure(parsed.error);
        }
        freeformTags := freeformTags[parsed.value.0 := parsed.value.1];
      } else {
        return Failure(filter);
      }
    }
    assert filters[..|filters|] == filters;
    return Success(OCIFilters(Some(freeformTags)));
  }

  /** What one filter asks for, on its own. */
  ghost predicate Satisfies(filter: string, tags: Tags) {
    var parsed := ParseFreeformTagFilter(filter);
    parsed.Success? && parsed.value.0 in tags && tags[parsed.value.0] == parsed.value.1
  }

  /** No key is given two values. */
  ghost predicate Consistent(filters: seq<string>) {
    forall f, g :: f in filters && g in filters ==>
      var p, q := ParseFreeformTagFilter(f), ParseFreeformTagFilter(g);
      p.Success? && q.Success? && p.value.0 == q.value.0 ==> p.value.1 == q.value.1
  }

  /** Every entry of the map comes from a filter, and every filter has its key in the map. */
  lemma {:induction false} CompiledEntries(filters: seq<string>)
    requires Compiled(filters).Success?
    ensures forall f :: f in filters ==>
              ParseFreeformTagFilter(f).Success? && ParseFreeformTagFilter(f).value.0 in Compiled(filters).value
    ensures forall key :: key in Compiled(filters).value ==>
              exists f :: f in filters && ParseFreeformTagFilter(f) == Success((key, Compiled(filters).value[key]))
  {
    hide ParseFreeformTagFilter, HasPrefix;
    if |filters| > 0 {
      var n := |filters| - 1;
      CompiledEntries(filters[..n]);
      var tags, before := Compiled(filters).value, Compiled(filters[..n]).value;
      assert filters == filters[..n] + [filters[n]];
      forall key | key in tags
        ensures exists f :: f in filters && ParseFreeformTagFilter(f) == Success((key, tags[key]))
      {
        if key in before && tags[key] == before[key] {
          var f :| f in filters[..n] && ParseFreeformTagFilter(f) == Success((key, before[key]));
        } else {
          assert filters[n] in filters;
        }
      }
    }
  }

  ghost predicate MeansConjunction(filters: seq<string>)
    requires Compiled(filters).Success?
  {
    forall tags: Tags :: CheckFreeformTagFilter(OCIFilters(Some(Compiled(filters).value)), Some(tags))
                    <==> forall f :: f in filters ==> Satisfies(f, tags)
  }

  /** The compiled check is the conjunction of the filters, for every non-nil tag map, if and only if no
      key is given two values. */
  lemma {:induction false} MeansConjunctionExactly(filters: seq<string>)
    requires Compiled(filters).Success?
    ensures MeansConjunction(filters) <==> Consistent(filters)
  {
    CompiledEntries(filters);
    var compiled := Compiled(filters).value;
    if MeansConjunction(filters) {
      assert CheckFreeformTagFilter(OCIFilters(Some(compiled)), Some(compiled));
      forall f | f in filters ensures Satisfies(f, compiled) {
      }
    }
    if Consistent(filters) {
      forall tags: Tags
        ensures CheckFreeformTagFilter(OCIFilters(Some(compiled)), Some(tags)) <==>
                (forall f :: f in filters ==> Satisfies(f, tags))
      {
        forall f | f in filters
          ensures ParseFreeformTagFilter(f).value.1 == compiled[ParseFreeformTagFilter(f).value.0]
        {
          var key := ParseFreeformTagFilter(f).value.0;
          var g :| g in filters && ParseFreeformTagFilter(g) == Success((key, compiled[key]));
        }
        if forall f :: f in filters ==> Satisfies(f, tags) {
          forall key | key in compiled ensures key in tags && tags[key] == compiled[key] {
            var g :| g in filters && ParseFreeformTagFilter(g) == Success((key, compiled[key]));
            assert Satisfies(g, tags);
          }
        }
      }
    }
  }

  /** Without filters the parsed map is empty but not nil: addresses with no tags at all are excluded,
      although the conjunction of no filters holds of everything. */
  lemma {:induction false} NilTagsExcluded(filters: seq<string>)
    requires Compiled(filters).Success?
    ensures !CheckFreeformTagFilter(OCIFilters(Some(Compiled(filters).value)), None)
  {
  }
}
