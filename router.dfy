/**
 * `Router` in `api/server/Router.kt`: the routes collected from annotated
 * controllers, and the URL handling of a request: the method check, the
 * first matching route, its path variables and the query parameters.
 *
 * Reflection is replaced by data: a controller is its class-level `@Mapping`
 * path and its member functions, each with its own `@Mapping` path (if any),
 * its parameters and an opaque handler number standing for the function.
 */
module Router {
  import opened Wrappers
  import opened Strings
  import opened Routes
  import Extensions
  import Sequences

  /** A parameter of a member function: its name (if known) and whether it carries `@Param`. */
  datatype Parameter = Parameter(name: Option<string>, isQueryParam: bool)

  /** A member function: its `@Mapping` path, if annotated, its parameters and its handler. */
  datatype Function = Function(mapping: Option<string>, parameters: seq<Parameter>, handler: nat)

  /** A controller: the class-level `@Mapping` path, if any, and its member functions in order. */
  datatype Controller = Controller(mapping: Option<string>, functions: seq<Function>)

  /** Why a request is refused (`NotFoundException` in the source). */
  datatype RequestError = MethodNotAllowed | RouteNotFound

  /** The call a request resolves to: the handler and the values for its parameters. */
  datatype Call = Call(handler: nat, pathValues: map<string, string>, queryValues: map<string, string>)

  /** `controller::class.findAnnotation<Mapping>()?.path?.trim('/') ?: ""`. */
  function BasePath(mapping: Option<string>): (base: string)
    ensures base == [] || (base[0] != '/' && base[|base| - 1] != '/')
  {
    match mapping
    case None => ""
    case Some(p) => Trim(p, '/')
  }

  /** `isNotEmpty()`. */
  predicate NonEmpty(part: string)
  {
    |part| > 0
  }

  /** `listOf(basePath, mapping.path.trim('/')).filter { it.isNotEmpty() }.joinToString("/")`. */
  function JoinTemplate(base: string, path: string): string
  {
    Join(Extensions.Filter([base, Trim(path, '/')], NonEmpty), "/")
  }

  /**
   * The joined template never starts or ends with `/` (the base path comes
   * trimmed, see `BasePath`); empty parts are dropped, so it is the base, the
   * path, or both joined by one `/`.
   */
  lemma JoinTemplateShape(base: string, path: string)
    requires base == [] || (base[0] != '/' && base[|base| - 1] != '/')
    ensures var t := JoinTemplate(base, path);
      (t == [] || (t[0] != '/' && t[|t| - 1] != '/')) &&
      (base == [] ==> t == Trim(path, '/')) &&
      (Trim(path, '/') == [] ==> t == base) &&
      (base != [] && Trim(path, '/') != [] ==> t == base + "/" + Trim(path, '/'))
  {
    var tail := Trim(path, '/');
    FilterPair(base, tail);
    if base != [] && tail != [] {
      assert Join([base, tail], "/") == base + "/" + Join([tail], "/");
      var t := base + "/" + tail;
      assert t[0] == base[0] && t[|t| - 1] == tail[|tail| - 1];
    }
  }

  /** Filtering a pair keeps its non-empty members in order. */
  lemma FilterPair(a: string, b: string)
    ensures Extensions.Filter([a, b], NonEmpty) == (if a != [] then [a] else []) + (if b != [] then [b] else [])
  {
    assert [a, b][..1] == [a];
    assert [a][..0] == [];
    var first := Extensions.Filter([a], NonEmpty);
    assert first == Extensions.Filter([], NonEmpty) + (if NonEmpty(a) then [a] else []);
  }

  /** `\w` of a Java regular expression: an ASCII letter or digit, or `_`. */
  predicate IsWordChar(ch: char)
  {
    'a' <= ch <= 'z' || 'A' <= ch <= 'Z' || '0' <= ch <= '9' || ch == '_'
  }

  /** The end of the run of word characters that starts at `j`. */
  function WordRunEnd(t: string, j: nat): (e: nat)
    requires j <= |t|
    ensures j <= e <= |t|
    ensures forall k :: j <= k < e ==> IsWordChar(t[k])
    ensures e == |t| || !IsWordChar(t[e])
    decreases |t| - j
  {
    if j < |t| && IsWordChar(t[j]) then WordRunEnd(t, j + 1) else j
  }

  /**
   * `"\\{(\\w+)\\}".toRegex().findAll(template).map { it.groupValues[1] }`
   * from position `i`: the names of the non-overlapping `{name}` matches,
   * left to right.
   */
  function BraceVariables(t: string, i: nat): seq<string>
    requires i <= |t|
    decreases |t| - i
  {
    if i == |t| then []
    else if t[i] == '{' then
      var e := WordRunEnd(t, i + 1);
      if e > i + 1 && e < |t| && t[e] == '}' then [t[i + 1..e]] + BraceVariables(t, e + 1)
      else BraceVariables(t, i + 1)
    else BraceVariables(t, i + 1)
  }

  /** `\w+`: a non-empty run of word characters. */
  predicate IsWord(name: string)
  {
    |name| > 0 && forall m :: 0 <= m < |name| ==> IsWordChar(name[m])
  }

  /** `{name}` stands in `t` at position `p`. */
  predicate BracedAt(t: string, p: nat, name: string)
  {
    p + |name| + 2 <= |t| && t[p] == '{' && t[p + 1..p + 1 + |name|] == name && t[p + 1 + |name|] == '}'
  }

  /**
   * Each of `names` is a word standing between braces in `t` at the
   * matching one of `positions`, all at or after `from`, left to right
   * without overlapping.
   */
  predicate FoundAt(t: string, from: nat, names: seq<string>, positions: seq<nat>)
  {
    |positions| == |names| &&
    (forall k :: 0 <= k < |positions| ==> IsWord(names[k]) && from <= positions[k] && BracedAt(t, positions[k], names[k])) &&
    (forall k :: 0 <= k < |positions| - 1 ==> positions[k] + |names[k]| + 2 <= positions[k + 1])
  }

  /** Every name found is a word between braces in the template, in order of position. */
  lemma {:induction false} BraceVariablesSound(t: string, i: nat) returns (positions: seq<nat>)
    requires i <= |t|
    ensures FoundAt(t, i, BraceVariables(t, i), positions)
    decreases |t| - i
  {
    if i == |t| {
      positions := [];
    } else {
      var e := if t[i] == '{' then WordRunEnd(t, i + 1) else i;
      if t[i] == '{' && e > i + 1 && e < |t| && t[e] == '}' {
        var rest := BraceVariablesSound(t, e + 1);
        var name := t[i + 1..e];
        assert BraceVariables(t, i) == [name] + BraceVariables(t, e + 1);
        FoundAtCons(t, i, name, BraceVariables(t, e + 1), rest);
        positions := [i] + rest;
      } else {
        positions := BraceVariablesSound(t, i + 1);
        assert BraceVariables(t, i) == BraceVariables(t, i + 1);
        FoundAtEarlier(t, i, BraceVariables(t, i + 1), positions);
      }
    }
  }

  /** Words found from `from + 1` on are found from `from` on. */
  lemma FoundAtEarlier(t: string, from: nat, names: seq<string>, positions: seq<nat>)
    requires FoundAt(t, from + 1, names, positions)
    ensures FoundAt(t, from, names, positions)
  {
  }

  /** A word between braces at `i`, followed by words found after it. */
  lemma FoundAtCons(t: string, i: nat, name: string, later: seq<string>, rest: seq<nat>)
    requires IsWord(name) && BracedAt(t, i, name)
    requires FoundAt(t, i + |name| + 2, later, rest)
    ensures FoundAt(t, i, [name] + later, [i] + rest)
  {
    var names := [name] + later;
    var positions := [i] + rest;
    forall k | 0 <= k < |positions|
      ensures IsWord(names[k]) && i <= positions[k] && BracedAt(t, positions[k], names[k])
    {
      if k > 0 {
        assert names[k] == later[k - 1] && positions[k] == rest[k - 1];
      }
    }
    forall k | 0 <= k < |positions| - 1
      ensures positions[k] + |names[k]| + 2 <= positions[k + 1]
    {
      if k > 0 {
        assert names[k] == later[k - 1] && positions[k] == rest[k - 1] && positions[k + 1] == rest[k];
      }
    }
  }

  /** A word followed by a non-word character: the run from its first character ends right after it. */
  lemma {:induction false} WordRunEndAfterWord(t: string, j: nat, w: string)
    requires j + |w| < |t| && t[j..j + |w|] == w
    requires forall m :: 0 <= m < |w| ==> IsWordChar(w[m])
    requires !IsWordChar(t[j + |w|])
    ensures WordRunEnd(t, j) == j + |w|
    decreases |w|
  {
    if |w| > 0 {
      assert t[j] == w[0];
      assert t[j + 1..j + 1 + |w[1..]|] == w[1..];
      WordRunEndAfterWord(t, j + 1, w[1..]);
    }
  }

  /**
   * Every `{word}` of the template at or after `i` is found: a match of
   * `\{(\w+)\}` never overlaps another, since a match holds no brace inside.
   */
  lemma {:induction false} BraceVariablesComplete(t: string, i: nat, p: nat, w: string)
    requires i <= p && IsWord(w) && BracedAt(t, p, w)
    ensures w in BraceVariables(t, i)
    decreases |t| - i
  {
    var e := WordRunEnd(t, i + 1);
    if i == p {
      assert t[p + 1..p + 1 + |w|] == w;
      WordRunEndAfterWord(t, p + 1, w);
      assert t[i + 1..e] == w;
      assert BraceVariables(t, i) == [w] + BraceVariables(t, e + 1);
    } else if t[i] == '{' && e > i + 1 && e < |t| && t[e] == '}' {
      assert t[p] == '{' && !IsWordChar(t[p]);
      assert e < p;
      BraceVariablesComplete(t, e + 1, p, w);
      assert BraceVariables(t, i) == [t[i + 1..e]] + BraceVariables(t, e + 1);
    } else {
      BraceVariablesComplete(t, i + 1, p, w);
      assert BraceVariables(t, i) == BraceVariables(t, i + 1);
    }
  }

  /** A template without `{` has no brace variables. */
  lemma {:induction false} NoBraceNoVariables(t: string, i: nat)
    requires i <= |t|
    requires '{' !in t
    ensures BraceVariables(t, i) == []
    decreases |t| - i
  {
    if i < |t| {
      NoBraceNoVariables(t, i + 1);
    }
  }

  /** `fn.parameters.filter { it has @Param }.mapNotNull { it.name }`. */
  function QueryVariables(parameters: seq<Parameter>): (names: seq<string>)
    ensures |names| <= |parameters|
    decreases |parameters|
  {
    if |parameters| == 0 then []
    else
      var last := parameters[|parameters| - 1];
      QueryVariables(parameters[..|parameters| - 1]) +
        (if last.isQueryParam && last.name.Some? then [last.name.value] else [])
  }

  /**
   * The names are those of the `@Param` parameters that have a name, in
   * declaration order: name `k` is that of parameter `idx[k]`, the indices
   * rising strictly over exactly those parameters.
   */
  lemma {:induction false} QueryVariablesPicks(parameters: seq<Parameter>) returns (idx: seq<nat>)
    ensures |idx| == |QueryVariables(parameters)|
    ensures forall k :: 0 <= k < |idx| ==>
      idx[k] < |parameters| && parameters[idx[k]].isQueryParam && parameters[idx[k]].name == Some(QueryVariables(parameters)[k])
    ensures forall k, l :: 0 <= k < l < |idx| ==> idx[k] < idx[l]
    ensures forall i :: 0 <= i < |parameters| ==> (parameters[i].isQueryParam && parameters[i].name.Some? <==> i in idx)
    decreases |parameters|
  {
    if |parameters| == 0 {
      idx := [];
    } else {
      var last := |parameters| - 1;
      var init := parameters[..last];
      var before := QueryVariablesPicks(init);
      forall i | 0 <= i < last ensures parameters[i] == init[i] { }
      var p := parameters[last];
      if p.isQueryParam && p.name.Some? {
        idx := before + [last];
        assert QueryVariables(parameters) == QueryVariables(init) + [p.name.value];
      } else {
        idx := before;
        assert QueryVariables(parameters) == QueryVariables(init) + [];
      }
    }
  }

  /** The route registered for an annotated member function. */
  function RouteFor(base: string, path: string, f: Function): Route
  {
    var template := JoinTemplate(base, path);
    Route(template, f.handler, BraceVariables(template, 0), QueryVariables(f.parameters))
  }

  /** The routes registered for the first `n` member functions, in order. */
  function RoutesOfFunctions(base: string, functions: seq<Function>): seq<Route>
    decreases |functions|
  {
    if |functions| == 0 then []
    else
      var f := functions[|functions| - 1];
      RoutesOfFunctions(base, functions[..|functions| - 1]) +
        (match f.mapping case None => [] case Some(path) => [RouteFor(base, path, f)])
  }

  /** The routes registered for a list of controllers, in order. */
  function RoutesOfControllers(controllers: seq<Controller>): seq<Route>
    decreases |controllers|
  {
    if |controllers| == 0 then []
    else
      var c := controllers[|controllers| - 1];
      RoutesOfControllers(controllers[..|controllers| - 1]) + RoutesOfFunctions(BasePath(c.mapping), c.functions)
  }

  /** Only annotated functions get a route: one each. */
  lemma {:induction false} RoutesOfFunctionsCount(base: string, functions: seq<Function>)
    ensures |RoutesOfFunctions(base, functions)| == |Extensions.Filter(functions, (f: Function) => f.mapping.Some?)|
    decreases |functions|
  {
    if |functions| > 0 {
      RoutesOfFunctionsCount(base, functions[..|functions| - 1]);
    }
  }

  /** Every registered template has no `/` at either end. */
  lemma {:induction false} RoutesOfFunctionsTrimmed(base: string, functions: seq<Function>)
    requires base == [] || (base[0] != '/' && base[|base| - 1] != '/')
    ensures forall k :: 0 <= k < |RoutesOfFunctions(base, functions)| ==>
      var t := RoutesOfFunctions(base, functions)[k].path;
      t == [] || (t[0] != '/' && t[|t| - 1] != '/')
    decreases |functions|
  {
    if |functions| > 0 {
      var f := functions[|functions| - 1];
      RoutesOfFunctionsTrimmed(base, functions[..|functions| - 1]);
      if f.mapping.Some? {
        JoinTemplateShape(base, f.mapping.value);
      }
    }
  }

  /** A query piece split at its first `=`: the name, and the value or `""` when there is no `=`. */
  function SplitAtFirst(piece: string, c: char): (r: (string, string))
    ensures c !in r.0
    ensures c in piece ==> piece == r.0 + [c] + r.1
    ensures c !in piece ==> r == (piece, "")
    decreases |piece|
  {
    if |piece| == 0 then ("", "")
    else if piece[0] == c then ("", piece[1..])
    else
      var rest := SplitAtFirst(piece[1..], c);
      assert piece == [piece[0]] + piece[1..];
      ([piece[0]] + rest.0, rest.1)
  }

  /** `it.split('=', limit = 2)` turned into a pair, or `None` when the name is empty. */
  function QueryPair(piece: string): Option<(string, string)>
  {
    var (name, value) := SplitAtFirst(piece, '=');
    if name == [] then None else Some((name, value))
  }

  /** The pairs of the `&`-pieces, in order, pieces with an empty name dropped. */
  function QueryPairs(pieces: seq<string>): seq<(string, string)>
    decreases |pieces|
  {
    if |pieces| == 0 then []
    else
      QueryPairs(pieces[..|pieces| - 1]) +
        (match QueryPair(pieces[|pieces| - 1]) case None => [] case Some(p) => [p])
  }

  /** `toMap()`: a later pair replaces an earlier one with the same name. */
  function ToMap(pairs: seq<(string, string)>): map<string, string>
    decreases |pairs|
  {
    if |pairs| == 0 then map[]
    else
      var last := pairs[|pairs| - 1];
      ToMap(pairs[..|pairs| - 1])[last.0 := last.1]
  }

  /** `parseQueryParams(query)`. */
  function ParseQueryParams(query: Option<string>): map<string, string>
  {
    match query
    case None => map[]
    case Some(q) => if q == [] then map[] else ToMap(QueryPairs(Split(q, '&')))
  }

  /** A name is a key of the map exactly when some pair has it. */
  lemma {:induction false} ToMapKeys(pairs: seq<(string, string)>, name: string)
    ensures name in ToMap(pairs) <==> exists i :: 0 <= i < |pairs| && pairs[i].0 == name
    decreases |pairs|
  {
    if |pairs| > 0 {
      var init := pairs[..|pairs| - 1];
      ToMapKeys(init, name);
      assert forall i :: 0 <= i < |init| ==> init[i] == pairs[i];
    }
  }

  /** A name maps to the value of the last pair that has it. */
  lemma {:induction false} ToMapLastWins(pairs: seq<(string, string)>, i: nat)
    requires i < |pairs|
    requires forall j :: i < j < |pairs| ==> pairs[j].0 != pairs[i].0
    ensures pairs[i].0 in ToMap(pairs) && ToMap(pairs)[pairs[i].0] == pairs[i].1
    decreases |pairs|
  {
    if i < |pairs| - 1 {
      ToMapLastWins(pairs[..|pairs| - 1], i);
    }
  }

  /** Each pair comes from some `&`-piece. */
  lemma {:induction false} QueryPairSource(pieces: seq<string>, i: nat) returns (k: nat)
    requires i < |QueryPairs(pieces)|
    ensures k < |pieces| && QueryPair(pieces[k]) == Some(QueryPairs(pieces)[i])
    decreases |pieces|
  {
    var init := pieces[..|pieces| - 1];
    if i < |QueryPairs(init)| {
      k := QueryPairSource(init, i);
      assert init[k] == pieces[k];
    } else {
      k := |pieces| - 1;
    }
  }

  /** Each `&`-piece with a non-empty name gives a pair. */
  lemma {:induction false} QueryPieceKept(pieces: seq<string>, k: nat) returns (i: nat)
    requires k < |pieces| && QueryPair(pieces[k]).Some?
    ensures i < |QueryPairs(pieces)| && QueryPairs(pieces)[i] == QueryPair(pieces[k]).value
    decreases |pieces|
  {
    var init := pieces[..|pieces| - 1];
    var before := QueryPairs(init);
    if k < |init| {
      assert init[k] == pieces[k];
      i := QueryPieceKept(init, k);
      assert QueryPairs(pieces)[i] == before[i];
    } else {
      i := |before|;
    }
  }

  /** A missing or empty query string gives no parameters. */
  lemma QueryEmpty()
    ensures ParseQueryParams(None) == map[]
    ensures ParseQueryParams(Some("")) == map[]
  {
  }

  /** A name is a key of the parsed map exactly when some piece gives a pair with that name. */
  lemma PairsKeys(pieces: seq<string>, name: string)
    ensures name in ToMap(QueryPairs(pieces)) <==>
      exists k :: 0 <= k < |pieces| && QueryPair(pieces[k]).Some? && QueryPair(pieces[k]).value.0 == name
  {
    var pairs := QueryPairs(pieces);
    ToMapKeys(pairs, name);
    if name in ToMap(pairs) {
      var i :| 0 <= i < |pairs| && pairs[i].0 == name;
      var k := QueryPairSource(pieces, i);
      assert QueryPair(pieces[k]).value.0 == name;
    }
    if exists k :: 0 <= k < |pieces| && QueryPair(pieces[k]).Some? && QueryPair(pieces[k]).value.0 == name {
      var k :| 0 <= k < |pieces| && QueryPair(pieces[k]).Some? && QueryPair(pieces[k]).value.0 == name;
      var i := QueryPieceKept(pieces, k);
      assert pairs[i].0 == name;
    }
  }

  /** A name is a parameter exactly when some `&`-piece gives a pair with that name. */
  lemma QueryKeys(q: string, name: string)
    requires q != []
    ensures name in ParseQueryParams(Some(q)) <==>
      exists k :: 0 <= k < |Split(q, '&')| && QueryPair(Split(q, '&')[k]).Some? && QueryPair(Split(q, '&')[k]).value.0 == name
  {
    assert ParseQueryParams(Some(q)) == ToMap(QueryPairs(Split(q, '&')));
    PairsKeys(Split(q, '&'), name);
  }

  /** A piece splits at its first `=` only: the value keeps any later `=`. */
  lemma QueryPieceAtFirstEquals(name: string, value: string)
    requires name != [] && '=' !in name
    ensures QueryPair(name + "=" + value) == Some((name, value))
  {
    assert name + "=" + value == name + ['='] + value;
    FirstSplitUnique(name, value, '=');
  }

  /** Splitting `a + [c] + b` at the first `c`, when `a` has no `c`, gives `a` and `b`. */
  lemma {:induction false} FirstSplitUnique(a: string, b: string, c: char)
    requires c !in a
    ensures SplitAtFirst(a + [c] + b, c) == (a, b)
    decreases |a|
  {
    var s := a + [c] + b;
    if |a| == 0 {
      assert s[1..] == b;
    } else {
      assert s[1..] == a[1..] + [c] + b;
      FirstSplitUnique(a[1..], b, c);
      assert [a[0]] + a[1..] == a;
    }
  }

  /** A piece without `=` names a parameter whose value is `""`; an empty name is dropped. */
  lemma QueryPieceShapes(piece: string)
    ensures '=' !in piece && piece != [] ==> QueryPair(piece) == Some((piece, ""))
    ensures piece == [] || piece[0] == '=' ==> QueryPair(piece).None?
  {
  }

  /** The value of a parameter is that of the last piece naming it; nothing is decoded. */
  lemma QueryLastWins(q: string, i: nat)
    requires q != []
    requires i < |QueryPairs(Split(q, '&'))|
    requires forall j :: i < j < |QueryPairs(Split(q, '&'))| ==>
      QueryPairs(Split(q, '&'))[j].0 != QueryPairs(Split(q, '&'))[i].0
    ensures QueryPairs(Split(q, '&'))[i].0 in ParseQueryParams(Some(q))
    ensures ParseQueryParams(Some(q))[QueryPairs(Split(q, '&'))[i].0] == QueryPairs(Split(q, '&'))[i].1
  {
    var pairs := QueryPairs(Split(q, '&'));
    assert ParseQueryParams(Some(q)) == ToMap(pairs);
    ToMapLastWins(pairs, i);
  }

  /** The index of the first route that matches `path`, as `routes.find { it.match(path) }`. */
  function FirstMatch(routes: seq<Route>, path: string): (r: Option<nat>)
    ensures r.Some? ==> r.value < |routes| && routes[r.value].Match(path)
    decreases |routes|
  {
    if |routes| == 0 then None
    else if routes[0].Match(path) then Some(0)
    else match FirstMatch(routes[1..], path)
      case None => None
      case Some(i) => Some(i + 1)
  }

  /** `find` picks the first match: no earlier route matches, and `None` means none does. */
  lemma {:induction false} FirstMatchIsFirst(routes: seq<Route>, path: string)
    ensures FirstMatch(routes, path).Some? ==>
      forall j :: 0 <= j < FirstMatch(routes, path).value ==> !routes[j].Match(path)
    ensures FirstMatch(routes, path).None? <==> forall j :: 0 <= j < |routes| ==> !routes[j].Match(path)
    decreases |routes|
  {
    if |routes| > 0 {
      FirstMatchIsFirst(routes[1..], path);
      assert forall j :: 1 <= j < |routes| ==> routes[j] == routes[1..][j - 1];
    }
  }

  /** The router: the routes of its controllers, in registration order. */
  class Router {
    var routes: seq<Route>

    /** `init { controllers.forEach { registerController(it) } }`. */
    constructor(controllers: seq<Controller>)
      ensures routes == RoutesOfControllers(controllers)
    {
      routes := [];
      new;
      var i := 0;
      while i < |controllers|
        invariant i <= |controllers|
        invariant routes == RoutesOfControllers(controllers[..i])
      {
        assert controllers[..i + 1][..i] == controllers[..i];
        RegisterController(controllers[i]);
        i := i + 1;
      }
      assert controllers[..i] == controllers;
    }

    /** `registerController(controller)`: one route per annotated member function, appended in order. */
    method RegisterController(controller: Controller)
      modifies this
      ensures routes == old(routes) + RoutesOfFunctions(BasePath(controller.mapping), controller.functions)
    {
      var base := BasePath(controller.mapping);
      var functions := controller.functions;
      ghost var added: seq<Route> := [];
      var i := 0;
      while i < |functions|
        invariant i <= |functions|
        invariant added == RoutesOfFunctions(base, functions[..i])
        invariant routes == old(routes) + added
      {
        assert functions[..i + 1][..i] == functions[..i];
        var f := functions[i];
        match f.mapping {
          case None =>
          case Some(path) =>
            var route := RouteFor(base, path, f);
            Sequences.AppendAssoc(old(routes), added, [route]);
            routes := routes + [route];
            added := added + [route];
        }
        i := i + 1;
      }
      assert functions[..i] == functions;
    }

    /**
     * `handleRequest(uri, httpMethod)` up to the reflective call: a non-GET
     * method is refused first; otherwise the slash-trimmed path goes to the
     * first matching route, with its path variables and the query parameters.
     */
    method HandleRequest(path: string, query: Option<string>, httpMethod: string) returns (r: Result<Call, RequestError>)
      ensures r == Resolve(routes, path, query, httpMethod)
    {
      if httpMethod != "GET" {
        return Err(MethodNotAllowed);
      }
      var reqPath := Trim(path, '/');
      var i := 0;
      while i < |routes| && !routes[i].Match(reqPath)
        invariant i <= |routes|
        invariant forall j :: 0 <= j < i ==> !routes[j].Match(reqPath)
      {
        i := i + 1;
      }
      FirstMatchIsFirst(routes, reqPath);
      if i == |routes| {
        return Err(RouteNotFound);
      }
      assert FirstMatch(routes, reqPath) == Some(i);
      var route := routes[i];
      var vars := route.ExtractPathVariables(reqPath);
      MatchedExtracts(route, reqPath);
      r := Ok(Call(route.handler, vars.value, ParseQueryParams(query)));
    }
  }

  /** What `handleRequest` resolves a request to, before the reflective call. */
  function Resolve(routes: seq<Route>, path: string, query: Option<string>, httpMethod: string): Result<Call, RequestError>
  {
    if httpMethod != "GET" then Err(MethodNotAllowed)
    else
      var reqPath := Trim(path, '/');
      match FirstMatch(routes, reqPath)
      case None => Err(RouteNotFound)
      case Some(i) =>
        var parts := Split(routes[i].path, '/');
        MatchedExtracts(routes[i], reqPath);
        Ok(Call(routes[i].handler, PathVariables(parts, Split(reqPath, '/'), |parts|).value, ParseQueryParams(query)))
  }

  /** A method other than GET is refused whatever the path. */
  lemma ResolveRefusesNonGet(routes: seq<Route>, path: string, query: Option<string>, httpMethod: string)
    requires httpMethod != "GET"
    ensures Resolve(routes, path, query, httpMethod) == Err(MethodNotAllowed)
  {
  }

  /** A GET request that no route matches is not found. */
  lemma ResolveNotFound(routes: seq<Route>, path: string, query: Option<string>)
    requires forall j :: 0 <= j < |routes| ==> !routes[j].Match(Trim(path, '/'))
    ensures Resolve(routes, path, query, "GET") == Err(RouteNotFound)
  {
    FirstMatchIsFirst(routes, Trim(path, '/'));
  }

  /**
   * A GET request goes to the first route that matches its slash-trimmed
   * path, with that route's variables (keyed by the variable names) and the
   * parsed query parameters.
   */
  lemma ResolveFirstMatch(routes: seq<Route>, path: string, query: Option<string>, i: nat)
    requires i < |routes| && routes[i].Match(Trim(path, '/'))
    requires forall j :: 0 <= j < i ==> !routes[j].Match(Trim(path, '/'))
    ensures var r := Resolve(routes, path, query, "GET");
      r.Ok? && r.value.handler == routes[i].handler &&
      r.value.pathValues.Keys == VariableNames(Split(routes[i].path, '/'), |Split(routes[i].path, '/')|) &&
      r.value.queryValues == ParseQueryParams(query)
  {
    var reqPath := Trim(path, '/');
    FirstMatchIsFirst(routes, reqPath);
    assert FirstMatch(routes, reqPath) == Some(i);
    var parts := Split(routes[i].path, '/');
    MatchedExtracts(routes[i], reqPath);
    ExtractKeys(parts, Split(reqPath, '/'), |parts|);
  }
}
