/**
 * `Route` in `api/server/Route.kt`: a registered path template, matched
 * segment by segment against request paths. A template segment written
 * `(name)` is a path variable and matches any request segment.
 */
module Routes {
  import opened Wrappers
  import opened Strings

  /**
   * A route: its path template, the handler it dispatches to (the source's
   * `method` and `instance`, an opaque number here), and the path variable and
   * query parameter names recorded when it was registered.
   */
  datatype Route = Route(path: string, handler: nat, pathVariables: seq<string>, queryParams: seq<string>)
  {
    /** `match(requestPath)`: as many `/`-segments, each equal or a variable. */
    predicate Match(requestPath: string)
    {
      SegmentsMatch(Split(path, '/'), Split(requestPath, '/'))
    }

    /**
     * `extractPathVariables(requestPath)`: each variable segment's name bound
     * to the request segment at the same index, a later binding replacing an
     * earlier one. `None` stands for the `IndexOutOfBoundsException` raised
     * when the request has no segment at a variable's index.
     */
    method ExtractPathVariables(requestPath: string) returns (r: Option<map<string, string>>)
      ensures r == PathVariables(Split(path, '/'), Split(requestPath, '/'), |Split(path, '/')|)
    {
      var pathParts := Split(path, '/');
      var requestParts := Split(requestPath, '/');
      var variables: map<string, string> := map[];
      var index := 0;
      while index < |pathParts|
        invariant index <= |pathParts|
        invariant PathVariables(pathParts, requestParts, index) == Some(variables)
      {
        var part := pathParts[index];
        if IsVariable(part) {
          if index >= |requestParts| {
            FailureStays(pathParts, requestParts, index + 1, |pathParts|);
            return None;
          }
          variables := variables[VariableName(part) := requestParts[index]];
        }
        index := index + 1;
      }
      r := Some(variables);
    }
  }

  /** `part.startsWith('(') && part.endsWith(')')`. */
  predicate IsVariable(part: string)
  {
    |part| > 0 && part[0] == '(' && part[|part| - 1] == ')'
  }

  /** `part.removeSurrounding("(", ")")` for a variable segment. */
  function VariableName(part: string): (name: string)
    requires IsVariable(part)
    ensures "(" + name + ")" == part
  {
    part[1..|part| - 1]
  }

  /** `pathParts.zip(requestParts).all { ... }` after the size check. */
  predicate SegmentsMatch(pathParts: seq<string>, requestParts: seq<string>)
  {
    |pathParts| == |requestParts| &&
    forall i :: 0 <= i < |pathParts| ==> pathParts[i] == requestParts[i] || IsVariable(pathParts[i])
  }

  /** The variables bound by the first `n` template segments, or `None` once one is out of range. */
  function PathVariables(pathParts: seq<string>, requestParts: seq<string>, n: nat): Option<map<string, string>>
    requires n <= |pathParts|
  {
    if n == 0 then Some(map[])
    else
      var before := PathVariables(pathParts, requestParts, n - 1);
      var part := pathParts[n - 1];
      if before.None? || !IsVariable(part) then before
      else if n - 1 >= |requestParts| then None
      else Some(before.value[VariableName(part) := requestParts[n - 1]])
  }

  /** Once extraction has failed it stays failed. */
  lemma {:induction false} FailureStays(pathParts: seq<string>, requestParts: seq<string>, n: nat, m: nat)
    requires n <= m <= |pathParts|
    requires PathVariables(pathParts, requestParts, n).None?
    ensures PathVariables(pathParts, requestParts, m).None?
    decreases m - n
  {
    if n < m {
      FailureStays(pathParts, requestParts, n + 1, m);
    }
  }

  /** The names of the variable segments among the first `n`. */
  function VariableNames(pathParts: seq<string>, n: nat): set<string>
    requires n <= |pathParts|
  {
    if n == 0 then {}
    else VariableNames(pathParts, n - 1) + (if IsVariable(pathParts[n - 1]) then {VariableName(pathParts[n - 1])} else {})
  }

  /** Extraction fails exactly when a variable segment has no request segment at its index. */
  lemma {:induction false} ExtractFailsIff(pathParts: seq<string>, requestParts: seq<string>, n: nat)
    requires n <= |pathParts|
    ensures PathVariables(pathParts, requestParts, n).None? <==>
      exists i :: 0 <= i < n && IsVariable(pathParts[i]) && i >= |requestParts|
  {
    if n > 0 {
      ExtractFailsIff(pathParts, requestParts, n - 1);
    }
  }

  /** The extracted keys are exactly the variable names, parentheses removed. */
  lemma {:induction false} ExtractKeys(pathParts: seq<string>, requestParts: seq<string>, n: nat)
    requires n <= |pathParts|
    requires PathVariables(pathParts, requestParts, n).Some?
    ensures PathVariables(pathParts, requestParts, n).value.Keys == VariableNames(pathParts, n)
  {
    if n > 0 {
      ExtractKeys(pathParts, requestParts, n - 1);
    }
  }

  /**
   * A variable's value is the request segment at the last index among the
   * first `n` whose segment has that name.
   */
  lemma {:induction false} ExtractLastWins(pathParts: seq<string>, requestParts: seq<string>, n: nat, i: nat)
    requires i < n <= |pathParts|
    requires PathVariables(pathParts, requestParts, n).Some?
    requires IsVariable(pathParts[i])
    requires forall j :: i < j < n && IsVariable(pathParts[j]) ==> VariableName(pathParts[j]) != VariableName(pathParts[i])
    ensures i < |requestParts|
    ensures VariableName(pathParts[i]) in PathVariables(pathParts, requestParts, n).value
    ensures PathVariables(pathParts, requestParts, n).value[VariableName(pathParts[i])] == requestParts[i]
  {
    if n - 1 > i {
      ExtractLastWins(pathParts, requestParts, n - 1, i);
    } else {
      ExtractFailsIff(pathParts, requestParts, n - 1);
    }
  }

  /** A template without variable segments extracts an empty map. */
  lemma {:induction false} NoVariablesEmpty(pathParts: seq<string>, requestParts: seq<string>, n: nat)
    requires n <= |pathParts|
    requires forall i :: 0 <= i < |pathParts| ==> !IsVariable(pathParts[i])
    ensures PathVariables(pathParts, requestParts, n) == Some(map[])
  {
    if n > 0 {
      NoVariablesEmpty(pathParts, requestParts, n - 1);
    }
  }

  /** After a successful match, extraction cannot fail. */
  lemma MatchedExtracts(route: Route, requestPath: string)
    requires route.Match(requestPath)
    ensures PathVariables(Split(route.path, '/'), Split(requestPath, '/'), |Split(route.path, '/')|).Some?
  {
    var pathParts := Split(route.path, '/');
    ExtractFailsIff(pathParts, Split(requestPath, '/'), |pathParts|);
  }

  /** The segment counts differ: no match. */
  lemma MatchNeedsSameCount(route: Route, requestPath: string)
    requires |Split(route.path, '/')| != |Split(requestPath, '/')|
    ensures !route.Match(requestPath)
  {
  }

  /** Every template matches itself. */
  lemma MatchSelf(route: Route)
    ensures route.Match(route.path)
  {
  }

  /** A template without variable segments matches exactly the identical path. */
  lemma MatchLiteralIff(route: Route, requestPath: string)
    requires forall i :: 0 <= i < |Split(route.path, '/')| ==> !IsVariable(Split(route.path, '/')[i])
    ensures route.Match(requestPath) <==> requestPath == route.path
  {
    var a := Split(route.path, '/');
    var b := Split(requestPath, '/');
    if route.Match(requestPath) {
      assert a == b;
      SplitInjective(route.path, requestPath, '/');
    }
  }

  /**
   * A template `prefix/(name)` matches `prefix/value` and binds `name` to
   * `value`, while the one-segment path `prefix` does not match it.
   */
  lemma OneVariableExample(prefix: string, name: string, value: string)
    requires '/' !in prefix && '/' !in name && '/' !in value && !IsVariable(prefix)
    ensures Route(prefix + "/(" + name + ")", 0, [], []).Match(prefix + "/" + value)
    ensures !Route(prefix + "/(" + name + ")", 0, [], []).Match(prefix)
    ensures var parts := Split(prefix + "/(" + name + ")", '/');
      PathVariables(parts, Split(prefix + "/" + value, '/'), |parts|) == Some(map[name := value])
  {
    var variable := "(" + name + ")";
    assert '/' !in variable by {
      assert forall k :: 0 <= k < |variable| ==> variable[k] == '(' || variable[k] == ')' || variable[k] in name;
    }
    assert IsVariable(variable) && VariableName(variable) == name;
    assert prefix + "/(" + name + ")" == prefix + ['/'] + variable;
    assert prefix + "/" + value == prefix + ['/'] + value;
    SplitPair(prefix, variable, '/');
    SplitPair(prefix, value, '/');
    SplitWhole(prefix, '/');
    var a := [prefix, variable];
    var b := [prefix, value];
    assert SegmentsMatch(a, b);
    assert PathVariables(a, b, 1) == Some(map[]);
    assert PathVariables(a, b, 2) == Some(map[name := value]);
  }
}
