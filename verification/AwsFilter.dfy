/** parseShorthandFilter of internal/address/aws.go. */
module AwsFilter {
  import opened Wrappers
  import opened Strings

  datatype FilterError = InvalidFormat | InvalidName | InvalidValues

  function Parse(filter: string): Result<(string, seq<string>), FilterError> {
    var exp := SplitFirst(filter, ',');
    if |exp| != 2 then Failure(InvalidFormat)
    else
      var name := Split(exp[0], '=');
      if |name| != 2 || name[0] != "Name" then Failure(InvalidName)
      else
        var values := Split(exp[1], '=');
        if |values| != 2 || values[0] != "Values" then Failure(InvalidValues)
        else Success((name[1], Split(values[1], ',')))
  }

  function Print(name: string, values: seq<string>): string
    requires |values| > 0
  {
    "Name=" + name + ",Values=" + Join(values, ',')
  }

  /** The grammar the parser accepts, with the two parts it extracts. */
  ghost predicate Shorthand(s: string, n: string, v: string) {
    s == "Name=" + n + ",Values=" + v && ',' !in n && '=' !in n && '=' !in v
  }

  lemma SplitFirstInTwo(s: string, c: char, a: string, b: string)
    ensures SplitFirst(s, c) == [a, b] <==> s == a + [c] + b && c !in a
  {
    if s == a + [c] + b && c !in a {
      IndexAt(a, c, b);
      assert s[..|a|] == a && s[|a| + 1..] == b;
    }
    var i := IndexOf(s, c);
    if SplitFirst(s, c) == [a, b] && i < |s| {
      assert s == s[..i] + [c] + s[i + 1..];
    }
  }

  lemma {:induction false} Accepts(s: string, n: string, v: string)
    requires Shorthand(s, n, v)
    ensures Parse(s) == Success((n, Split(v, ',')))
  {
    var left, right := "Name=" + n, "Values=" + v;
    assert SplitFirst(s, ',') == [left, right] by {
      assert s == left + [','] + right;
      SplitFirstInTwo(s, ',', left, right);
    }
    assert Split(left, '=') == ["Name", n] by {
      assert left == "Name" + ['='] + n;
      SplitInTwo(left, '=', "Name", n);
    }
    assert Split(right, '=') == ["Values", v] by {
      assert right == "Values" + ['='] + v;
      SplitInTwo(right, '=', "Values", v);
    }
  }

  lemma Assembled(n: string, v: string)
    ensures "Name" + ['='] + n + [','] + ("Values" + ['='] + v) == "Name=" + n + ",Values=" + v
  {
    assert "Name" + ['='] == "Name=" && [','] + ("Values" + ['=']) == ",Values=";
    var left, right := "Name=" + n, "Values" + ['='];
    assert left + [','] + (right + v) == left + ([','] + right) + v;
  }

  /** What a successful parse read. */
  lemma Reads(s: string) returns (n: string, v: string)
    requires Parse(s).Success?
    ensures Shorthand(s, n, v) && Parse(s).value == (n, Split(v, ','))
  {
    var exp := SplitFirst(s, ',');
    assert exp == [exp[0], exp[1]];
    SplitFirstInTwo(s, ',', exp[0], exp[1]);
    var name, values := Split(exp[0], '='), Split(exp[1], '=');
    n, v := name[1], values[1];
    hide SplitFirst, Split;
    PairRead(exp[0], "Name", name, n);
    PairRead(exp[1], "Values", values, v);
    Assembled(n, v);
  }

  lemma {:induction false} PairRead(s: string, key: string, parts: seq<string>, value: string)
    requires Split(s, '=') == parts && |parts| == 2 && parts[0] == key && parts[1] == value
    ensures s == key + ['='] + value && '=' !in key && '=' !in value
  {
    hide Split;
    assert parts == [key, value];
    SplitInTwo(s, '=', key, value);
  }

  /** Exactly the strings "Name=" n ",Values=" v with no ',' or '=' in n and no '=' in v are accepted. */
  lemma AcceptsExactly(s: string)
    ensures Parse(s).Success? <==> exists n, v :: Shorthand(s, n, v)
  {
    if Parse(s).Success? { var n, v := Reads(s); }
    if n, v :| Shorthand(s, n, v) { Accepts(s, n, v); }
  }

  lemma PrintOfParse(s: string)
    requires Parse(s).Success?
    ensures Print(Parse(s).value.0, Parse(s).value.1) == s
  {
    var n, v := Reads(s);
    JoinSplit(v, ',');
  }

  lemma {:induction false} JoinFree(values: seq<string>, sep: char, c: char)
    requires |values| > 0 && Free(values, c) && c != sep
    ensures c !in Join(values, sep)
  {
    if |values| > 1 { JoinFree(values[1..], sep, c); }
  }

  lemma ParseOfPrint(n: string, values: seq<string>)
    requires ',' !in n && '=' !in n && |values| > 0 && Free(values, ',') && Free(values, '=')
    ensures Parse(Print(n, values)) == Success((n, values))
  {
    JoinFree(values, ',', '=');
    SplitJoin(values, ',');
    Accepts(Print(n, values), n, Join(values, ','));
  }

  // ----- Several filters -----

  type Query = map<string, seq<string>>

  /** The query getAvailableElasticIPs builds: a later filter replaces an earlier one of the same name. */
  function CompiledQuery(filters: seq<string>): Result<Query, FilterError> {
    if |filters| == 0 then Success(map[])
    else
      var before := CompiledQuery(filters[..|filters| - 1]);
      var parsed := Parse(filters[|filters| - 1]);
      if before.Failure? then before
      else if parsed.Failure? then Failure(parsed.error)
      else Success(before.value[parsed.value.0 := parsed.value.1])
  }

  /** The text of a filter. */
  ghost predicate Readable(filter: string) {
    exists n, v :: Shorthand(filter, n, v)
  }

  /** What is wrong with a text that is not one. */
  lemma RejectsExactly(s: string)
    ensures Parse(s) == Failure(InvalidFormat) <==> ',' !in s
    ensures forall left, right :: s == left + [','] + right && ',' !in left ==>
              (Parse(s) == Failure(InvalidName) <==> forall n :: left == "Name" + ['='] + n ==> '=' in n)
  {
    var i := IndexOf(s, ',');
    assert ',' in s <==> i < |s|;
    forall left, right | s == left + [','] + right && ',' !in left
      ensures Parse(s) == Failure(InvalidName) <==> forall n :: left == "Name" + ['='] + n ==> '=' in n
    {
      SplitFirstInTwo(s, ',', left, right);
      forall n ensures Split(left, '=') == ["Name", n] <==> left == "Name" + ['='] + n && '=' !in n {
        SplitInTwo(left, '=', "Name", n);
      }
      var name := Split(left, '=');
      if |name| == 2 && name[0] == "Name" { assert name == ["Name", name[1]]; }
      hide Split, SplitFirst, IndexOf;
    }
  }

  ghost predicate FirstUnreadable(filters: seq<string>, i: nat) {
    i < |filters| && !Readable(filters[i]) && forall j :: 0 <= j < i ==> Readable(filters[j])
  }

  /** A list of filters compiles if and only if all of them are readable; else the error is that of the
      first that is not. */
  lemma {:induction false} CompilesExactly(filters: seq<string>)
    ensures CompiledQuery(filters).Success? <==> forall f :: f in filters ==> Readable(f)
    ensures forall i: nat :: FirstUnreadable(filters, i) ==>
              Parse(filters[i]).Failure? && CompiledQuery(filters) == Failure(Parse(filters[i]).error)
  {
    hide Parse, Readable;
    forall f ensures Readable(f) <==> Parse(f).Success? { AcceptsReadable(f); }
    if |filters| > 0 {
      var n := |filters| - 1;
      CompilesExactly(filters[..n]);
      assert filters == filters[..n] + [filters[n]];
      forall i: nat | FirstUnreadable(filters, i) && i < n ensures FirstUnreadable(filters[..n], i) {
        assert forall j :: 0 <= j <= i ==> filters[..n][j] == filters[j];
      }
      forall i: nat | FirstUnreadable(filters, i) && i == n ensures forall f :: f in filters[..n] ==> Readable(f) {
      }
    }
  }

  lemma AcceptsReadable(s: string)
    ensures Readable(s) <==> Parse(s).Success?
  {
    AcceptsExactly(s);
    hide Parse;
  }

  lemma {:induction false} QueryPrefix(filters: seq<string>, n: nat)
    requires n <= |filters|
    ensures CompiledQuery(filters[..n]).Failure? ==> CompiledQuery(filters) == CompiledQuery(filters[..n])
  {
    if n < |filters| {
      QueryPrefix(filters[..|filters| - 1], n);
      assert filters[..|filters| - 1][..n] == filters[..n];
    } else {
      assert filters[..n] == filters;
    }
  }

  /** The attributes and tags of an address, by filter name. */
  type Attributes = map<string, string>

  /** The service's reading of a query: every name has one of its values. */
  ghost predicate Selects(query: Query, item: Attributes) {
    forall name :: name in query ==> name in item && item[name] in query[name]
  }

  ghost predicate Satisfies(filter: string, item: Attributes) {
    var parsed := Parse(filter);
    parsed.Success? && parsed.value.0 in item && item[parsed.value.0] in parsed.value.1
  }

  predicate SameName(f: string, g: string) {
    Parse(f).Success? && Parse(g).Success? && Parse(f).value.0 == Parse(g).value.0
  }

  /** Filter number `j` is the last of its name. */
  ghost predicate LastOfName(filters: seq<string>, j: nat)
    requires j < |filters|
  {
    forall i :: j < i < |filters| ==> !SameName(filters[i], filters[j])
  }

  /** The values of `g` are all values of `f`. */
  ghost predicate NoWider(g: string, f: string) {
    Parse(f).Success? && Parse(g).Success? && forall v :: v in Parse(g).value.1 ==> v in Parse(f).value.1
  }

  /** The values of the last filter of a name are among those of every filter of that name. */
  ghost predicate LastNarrowest(filters: seq<string>) {
    forall i, j :: 0 <= i < |filters| && 0 <= j < |filters| && LastOfName(filters, j)
        && SameName(filters[i], filters[j])
      ==> NoWider(filters[j], filters[i])
  }

  /** The query keeps exactly the names of the filters, and for each the values of its last filter. */
  lemma {:induction false} LastFilterWins(filters: seq<string>)
    requires CompiledQuery(filters).Success?
    ensures forall f :: f in filters ==> Parse(f).Success? && Parse(f).value.0 in CompiledQuery(filters).value
    ensures forall name :: name in CompiledQuery(filters).value ==>
              exists j :: 0 <= j < |filters| && LastOfName(filters, j)
                  && Parse(filters[j]) == Success((name, CompiledQuery(filters).value[name]))
  {
    hide Parse;
    if |filters| > 0 {
      var n := |filters| - 1;
      LastFilterWins(filters[..n]);
      var query, before := CompiledQuery(filters).value, CompiledQuery(filters[..n]).value;
      var last := Parse(filters[n]).value.0;
      assert filters == filters[..n] + [filters[n]];
      forall name | name in query
        ensures exists j :: 0 <= j < |filters| && LastOfName(filters, j)
                  && Parse(filters[j]) == Success((name, query[name]))
      {
        if name == last {
          assert LastOfName(filters, n);
        } else {
          var j :| 0 <= j < n && LastOfName(filters[..n], j) && Parse(filters[..n][j]) == Success((name, before[name]));
          assert LastOfName(filters, j) by {
            forall i | j < i < |filters| ensures !SameName(filters[i], filters[j]) {
              if i < n { assert filters[..n][i] == filters[i]; }
            }
          }
        }
      }
    }
  }

  ghost predicate AllSatisfied(filters: seq<string>, item: Attributes) {
    forall f :: f in filters ==> Satisfies(f, item)
  }

  ghost predicate MeansConjunction(filters: seq<string>)
    requires CompiledQuery(filters).Success?
  {
    forall item: Attributes :: Selects(CompiledQuery(filters).value, item) <==> AllSatisfied(filters, item)
  }

  lemma ValuesNonEmpty(filter: string)
    requires Parse(filter).Success?
    ensures |Parse(filter).value.1| > 0
  {
  }

  /** The values that `query` keeps for the name of `f` are all values of `f`. */
  ghost predicate Narrower(query: Query, f: string) {
    var parsed := Parse(f);
    parsed.Success? && parsed.value.0 in query ==> forall v :: v in query[parsed.value.0] ==> v in parsed.value.1
  }

  /** `query` keeps, for every name, the values of some filter, and has every filter's name. */
  ghost predicate Keeps(query: Query, filters: seq<string>) {
    && (forall f :: f in filters ==> Parse(f).Success? && Parse(f).value.0 in query)
    && (forall name :: name in query ==> exists f :: f in filters && Parse(f) == Success((name, query[name])))
  }

  lemma NarrowSelects(query: Query, filters: seq<string>, item: Attributes)
    requires Keeps(query, filters) && forall f :: f in filters ==> Narrower(query, f)
    ensures Selects(query, item) <==> AllSatisfied(filters, item)
  {
    hide Parse;
    if AllSatisfied(filters, item) {
      forall name | name in query ensures name in item && item[name] in query[name] {
        var f :| f in filters && Parse(f) == Success((name, query[name]));
        assert Satisfies(f, item);
      }
    }
  }

  lemma WideSelectsMore(query: Query, filters: seq<string>, f: string) returns (item: Attributes)
    requires Keeps(query, filters) && f in filters && !Narrower(query, f)
    ensures Selects(query, item) && !AllSatisfied(filters, item)
  {
    forall name | name in query ensures |query[name]| > 0 {
      var g :| g in filters && Parse(g) == Success((name, query[name]));
      ValuesNonEmpty(g);
    }
    hide Parse;
    var n := Parse(f).value.0;
    var v :| v in query[n] && v !in Parse(f).value.1;
    item := map name | name in query :: if name == n then v else query[name][0];
    assert !Satisfies(f, item);
  }

  /** Being last of its name is what puts a filter's values into the query. */
  lemma {:induction false} LastIsKept(filters: seq<string>, j: nat)
    requires CompiledQuery(filters).Success? && j < |filters| && LastOfName(filters, j)
    ensures Parse(filters[j]).Success? && Parse(filters[j]).value.0 in CompiledQuery(filters).value
    ensures CompiledQuery(filters).value[Parse(filters[j]).value.0] == Parse(filters[j]).value.1
  {
    LastFilterWins(filters);
    hide Parse, CompiledQuery;
    assert filters[j] in filters;
    var name, query := Parse(filters[j]).value.0, CompiledQuery(filters).value;
    var i :| 0 <= i < |filters| && LastOfName(filters, i) && Parse(filters[i]) == Success((name, query[name]));
    assert SameName(filters[i], filters[j]) && SameName(filters[j], filters[i]);
  }

  lemma {:induction false} NarrowestExactly(filters: seq<string>)
    requires CompiledQuery(filters).Success?
    ensures LastNarrowest(filters) <==> forall f :: f in filters ==> Narrower(CompiledQuery(filters).value, f)
  {
    LastFilterWins(filters);
    forall j | 0 <= j < |filters| && LastOfName(filters, j)
      ensures CompiledQuery(filters).value[Parse(filters[j]).value.0] == Parse(filters[j]).value.1
    {
      LastIsKept(filters, j);
    }
    hide Parse, CompiledQuery;
    var query := CompiledQuery(filters).value;
    if LastNarrowest(filters) {
      forall f | f in filters ensures Narrower(query, f) {
        var i :| 0 <= i < |filters| && filters[i] == f;
        var name := Parse(f).value.0;
        var j :| 0 <= j < |filters| && LastOfName(filters, j) && Parse(filters[j]) == Success((name, query[name]));
        assert SameName(filters[i], filters[j]);
        assert NoWider(filters[j], filters[i]);
      }
    } else {
      var i, j :| 0 <= i < |filters| && 0 <= j < |filters| && LastOfName(filters, j) && SameName(filters[i], filters[j])
                  && !NoWider(filters[j], filters[i]);
      assert filters[i] in filters && !Narrower(query, filters[i]);
    }
  }

  /** Filters are documented to be joined with AND. The query is their conjunction, for all attributes,
      if and only if for each name the last filter's values are among those of every filter of that name. */
  lemma {:induction false} QueryMeansExactly(filters: seq<string>)
    requires CompiledQuery(filters).Success?
    ensures MeansConjunction(filters) <==> LastNarrowest(filters)
  {
    NarrowestExactly(filters);
    KeptByLast(filters);
    hide Parse, CompiledQuery, Narrower, AllSatisfied, Selects, LastNarrowest, Keeps;
    var query := CompiledQuery(filters).value;
    if f :| f in filters && !Narrower(query, f) {
      var item := WideSelectsMore(query, filters, f);
    } else {
      forall item: Attributes ensures Selects(query, item) <==> AllSatisfied(filters, item) {
        NarrowSelects(query, filters, item);
      }
    }
  }

  lemma {:induction false} KeptByLast(filters: seq<string>)
    requires CompiledQuery(filters).Success?
    ensures Keeps(CompiledQuery(filters).value, filters)
  {
    LastFilterWins(filters);
    hide Parse, CompiledQuery, LastOfName;
    var query := CompiledQuery(filters).value;
    forall name | name in query ensures exists f :: f in filters && Parse(f) == Success((name, query[name])) {
      var j :| 0 <= j < |filters| && LastOfName(filters, j) && Parse(filters[j]) == Success((name, query[name]));
      assert filters[j] in filters;
    }
  }
}
