/**
 * The two validators written against the serialisable `JValue` hierarchy:
 * `ArrayTypeValidatorVisitor` (every array's non-null items share the class
 * of the first non-null item) and `KeyValidatorVisitor` (no blank key, no
 * repeated key, checked over a `Map`'s key set). Each keeps a list of
 * problems that only grows; `result()` renders it.
 *
 * Problems are kept structured and rendered to text only by `result()`; the
 * text is the one the source builds when it records the problem.
 */
module Validators {
  import opened Wrappers
  import opened Strings
  import opened Sequences
  import opened JsonValues
  import KeyRules

  /* ─────────────────────── ArrayTypeValidatorVisitor ─────────────────────── */

  /** `items.firstOrNull { it !is JNull }`, as an index. */
  function FirstNonNull(items: seq<Json>): (r: Option<nat>)
    ensures r.Some? ==> r.value < |items| && !items[r.value].JNull?
    ensures r.Some? ==> forall k :: 0 <= k < r.value ==> items[k].JNull?
    ensures r.None? ==> forall k :: 0 <= k < |items| ==> items[k].JNull?
    decreases |items|
  {
    if |items| == 0 then None
    else if !items[0].JNull? then Some(0)
    else
      match FirstNonNull(items[1..])
      case None => None
      case Some(i) => Some(i + 1)
  }

  /** One reported array: the index of an offending item, the class expected there and the class found. */
  datatype MixedType = MixedType(index: nat, expected: Kind, found: Kind)

  /** What the `forEachIndexed` loop adds for the first `n` items. */
  function Mismatches(items: seq<Json>, expected: Kind, n: nat): seq<MixedType>
    requires n <= |items|
  {
    if n == 0 then []
    else
      Mismatches(items, expected, n - 1)
        + (if !items[n - 1].JNull? && KindOf(items[n - 1]) != expected
           then [MixedType(n - 1, expected, KindOf(items[n - 1]))] else [])
  }

  /** The problems one `visit(value: JArray)` adds: none without a non-null item. */
  function ArrayProblems(items: seq<Json>): seq<MixedType>
  {
    match FirstNonNull(items)
    case None => []
    case Some(first) => Mismatches(items, KindOf(items[first]), |items|)
  }

  /** Item `i` is reported against `expected`: it is not null and of another class. */
  predicate Offends(items: seq<Json>, expected: Kind, i: nat)
    requires i < |items|
  {
    !items[i].JNull? && KindOf(items[i]) != expected
  }

  /**
   * The mismatches are exactly the offending items, one each, in index
   * order; each names the expected class and the class found. Nulls never
   * offend.
   */
  lemma {:induction false} MismatchesExact(items: seq<Json>, expected: Kind, n: nat)
    requires n <= |items|
    ensures forall k :: 0 <= k < |Mismatches(items, expected, n)| ==>
      var p := Mismatches(items, expected, n)[k];
      p.index < n && Offends(items, expected, p.index) && p.expected == expected && p.found == KindOf(items[p.index])
    ensures forall k, l :: 0 <= k < l < |Mismatches(items, expected, n)| ==>
      Mismatches(items, expected, n)[k].index < Mismatches(items, expected, n)[l].index
    ensures forall i :: 0 <= i < n && Offends(items, expected, i) ==>
      exists k :: 0 <= k < |Mismatches(items, expected, n)| && Mismatches(items, expected, n)[k].index == i
    decreases n
  {
    if n > 0 {
      MismatchesExact(items, expected, n - 1);
      var before := Mismatches(items, expected, n - 1);
      var all := Mismatches(items, expected, n);
      assert forall k :: 0 <= k < |before| ==> all[k] == before[k];
      if Offends(items, expected, n - 1) {
        assert all[|before|].index == n - 1;
      }
    }
  }

  /** All non-null items are of one class. */
  predicate SameClass(items: seq<Json>)
  {
    forall i, j :: 0 <= i < |items| && 0 <= j < |items| && !items[i].JNull? && !items[j].JNull? ==>
      KindOf(items[i]) == KindOf(items[j])
  }

  /** A visit adds no problem exactly when the non-null items share one class. */
  lemma ArrayProblemsEmptyIff(items: seq<Json>)
    ensures ArrayProblems(items) == [] <==> SameClass(items)
  {
    match FirstNonNull(items)
    case None =>
    case Some(first) =>
      var expected := KindOf(items[first]);
      MismatchesExact(items, expected, |items|);
      if ArrayProblems(items) == [] {
        assert forall i :: 0 <= i < |items| && !items[i].JNull? ==> !Offends(items, expected, i);
      } else {
        var p := ArrayProblems(items)[0];
        assert !items[p.index].JNull? && KindOf(items[p.index]) != KindOf(items[first]);
      }
  }

  /** Every problem names a non-null item and, as expected class, the class of the first non-null item. */
  lemma ArrayProblemsSound(items: seq<Json>)
    ensures ArrayProblems(items) != [] ==> FirstNonNull(items).Some?
    ensures forall k :: 0 <= k < |ArrayProblems(items)| ==>
      var p := ArrayProblems(items)[k];
      && p.index < |items| && !items[p.index].JNull?
      && p.expected == KindOf(items[FirstNonNull(items).value])
      && p.found == KindOf(items[p.index]) && p.found != p.expected
  {
    if FirstNonNull(items).Some? {
      MismatchesExact(items, KindOf(items[FirstNonNull(items).value]), |items|);
    }
  }

  /** `[1, "two"]` is reported at index 1; `["a", "b", null]` is not reported. */
  lemma ArrayProblemsExamples()
    ensures ArrayProblems([JNumber(1), JString("two")]) == [MixedType(1, NumberKind, StringKind)]
    ensures ArrayProblems([JString("a"), JString("b"), JNull]) == []
  {
    var mixed := [JNumber(1), JString("two")];
    assert FirstNonNull(mixed) == Some(0);
    assert Mismatches(mixed, NumberKind, 1) == [];
    var strings := [JString("a"), JString("b"), JNull];
    assert FirstNonNull(strings) == Some(0);
    assert Mismatches(strings, StringKind, 2) == [];
  }

  /** `KClass.toString()` of the class a kind stands for. */
  function ClassName(k: Kind): string
  {
    "class json.model.elements." +
      match k
      case ObjectKind => "JObject"
      case ArrayKind => "JArray"
      case PropertyKind => "JProperty"
      case StringKind => "JString"
      case NumberKind => "JNumber"
      case BooleanKind => "JBoolean"
      case NullKind => "JNull"
  }

  /** The text recorded for a mixed-type array. */
  function MixedMessage(p: MixedType): string
  {
    "Array has mixed types at index " + IntToString(p.index) + MixedDetail(p)
  }

  function MixedDetail(p: MixedType): (r: string)
    ensures |r| > 0 && r[0] == ':'
  {
    ": expected " + ClassName(p.expected) + " but found " + ClassName(p.found)
  }

  /** The index can be read back from the message, between its fixed prefix and the next colon. */
  lemma MixedMessageNamesIndex(p: MixedType)
    ensures var m := MixedMessage(p); var n := |IntToString(p.index)|;
      31 + n < |m| && m[..31] == "Array has mixed types at index " && m[31 + n] == ':'
      && ParseInt(m[31..31 + n]) == p.index
  {
    var digits := IntToString(p.index);
    var prefix := "Array has mixed types at index ";
    var m := prefix + digits + MixedDetail(p);
    assert |prefix| == 31;
    assert m[..31] == prefix;
    assert m[31..31 + |digits|] == digits;
    assert m[31 + |digits|] == MixedDetail(p)[0];
    IntToStringRoundTrip(p.index);
  }

  /** Visitor recording every item of a visited array whose class differs from the first non-null item's. */
  class ArrayTypeValidatorVisitor {
    var problems: seq<MixedType>

    constructor ()
      ensures problems == []
    {
      problems := [];
    }

    /** `visit(value: JArray)`: find the expected class, then check every item in index order. */
    method Visit(value: Json)
      requires value.JArray?
      modifies this
      ensures problems == old(problems) + ArrayProblems(value.items)
    {
      var items := value.items;
      var first := 0;
      while first < |items| && items[first].JNull?
        invariant 0 <= first <= |items|
        invariant forall k :: 0 <= k < first ==> items[k].JNull?
      {
        first := first + 1;
      }
      if first == |items| {
        assert FirstNonNull(items).None?;
        assert old(problems) + [] == old(problems);
        return;
      }
      assert FirstNonNull(items) == Some(first);
      var expected := KindOf(items[first]);
      ghost var found: seq<MixedType> := [];
      var index := 0;
      while index < |items|
        invariant 0 <= index <= |items|
        invariant found == Mismatches(items, expected, index)
        invariant problems == old(problems) + found
      {
        var elem := items[index];
        if !elem.JNull? && KindOf(elem) != expected {
          AppendAssoc(old(problems), found, [MixedType(index, expected, KindOf(elem))]);
          problems := problems + [MixedType(index, expected, KindOf(elem))];
          found := found + [MixedType(index, expected, KindOf(elem))];
        }
        index := index + 1;
      }
    }

    /** `result()`: the recorded messages, in the order recorded. */
    method Result() returns (r: seq<string>)
      ensures |r| == |problems|
      ensures forall k :: 0 <= k < |r| ==> r[k] == MixedMessage(problems[k])
    {
      var ps := problems;
      r := seq(|ps|, k requires 0 <= k < |ps| => MixedMessage(ps[k]));
    }
  }

  /* ─────────────────────────── KeyValidatorVisitor ─────────────────────────── */

  /** One reported key, with the object it was found in (the source prints that object). */
  datatype KeyProblem = KeyProblem(finding: KeyRules.KeyFinding, obj: Json)

  /** The findings of one object, each paired with the object. */
  function Reported(findings: seq<KeyRules.KeyFinding>, obj: Json): (r: seq<KeyProblem>)
    ensures |r| == |findings|
  {
    seq(|findings|, k requires 0 <= k < |findings| => KeyProblem(findings[k], obj))
  }

  /** The problems one `visit(value: JObject)` adds: its keys checked in order. */
  function ObjectProblems(value: Json): seq<KeyProblem>
    requires value.JObject?
  {
    Reported(KeyRules.KeyFindings(Keys(value.fields)), value)
  }

  /** What `visit` knows after checking key `i`: `seen` and the problems so far grow by that key. */
  lemma KeyCheckStep(keys: seq<string>, i: nat, seen: set<string>, obj: Json)
    requires i < |keys| && seen == KeyRules.KeySet(keys[..i])
    ensures keys[i] in seen <==> keys[i] in keys[..i]
    ensures keys[i] !in seen ==> seen + {keys[i]} == KeyRules.KeySet(keys[..i + 1])
    ensures keys[i] in seen ==> seen == KeyRules.KeySet(keys[..i + 1])
    ensures Reported(KeyRules.KeyFindings(keys[..i + 1]), obj) ==
      Reported(KeyRules.KeyFindings(keys[..i]), obj)
        + (if IsBlank(keys[i]) then [KeyProblem(KeyRules.Blank, obj)] else [])
        + (if keys[i] in seen then [KeyProblem(KeyRules.Duplicate(keys[i]), obj)] else [])
  {
    var earlier := keys[..i];
    var key := keys[i];
    assert keys[..i + 1] == earlier + [key];
    KeyRules.KeyFindingsSnoc(earlier, key);
    var blank: seq<KeyRules.KeyFinding> := if IsBlank(key) then [KeyRules.Blank] else [];
    var repeated: seq<KeyRules.KeyFinding> := if key in earlier then [KeyRules.Duplicate(key)] else [];
    var f := KeyRules.KeyFindings(earlier);
    assert Reported(f + blank + repeated, obj) == Reported(f, obj) + Reported(blank, obj) + Reported(repeated, obj);
  }

  /** Keys of a `Map` are distinct, so only blank keys are ever reported, one problem each. */
  lemma MapKeysOnlyBlank(value: Json)
    requires value.JObject? && UniqueKeys(value.fields)
    ensures forall k :: 0 <= k < |ObjectProblems(value)| ==> ObjectProblems(value)[k].finding == KeyRules.Blank
    ensures |ObjectProblems(value)| == KeyRules.CountBlank(Keys(value.fields))
  {
    var keys := Keys(value.fields);
    var findings := KeyRules.KeyFindings(keys);
    forall x ensures KeyRules.Duplicate(x) !in findings {
      KeyRules.DuplicateReportedIff(keys, x);
    }
    KeyRules.KeyFindingsCount(keys);
    KeyRules.DistinctKeySetSize(keys);
  }

  /** For a `Map`, a visit adds no problem exactly when no key is blank. */
  lemma MapObjectValidIff(value: Json)
    requires value.JObject? && UniqueKeys(value.fields)
    ensures ObjectProblems(value) == [] <==> KeyRules.NoBlankKey(Keys(value.fields))
  {
    var keys := Keys(value.fields);
    KeyRules.KeyFindingsEmptyIff(keys);
    assert KeyRules.DistinctKeys(keys);
  }

  /** `{"": 1}` is reported once, for its blank key. */
  lemma BlankKeyExample()
    ensures ObjectProblems(JObject([Entry("", JNumber(1))])) == [KeyProblem(KeyRules.Blank, JObject([Entry("", JNumber(1))]))]
  {
    var obj := JObject([Entry("", JNumber(1))]);
    assert Keys(obj.fields) == [""];
    assert [""][..0] == [];
    assert KeyRules.KeyFindings([""]) == [KeyRules.Blank];
  }

  /** The text recorded for a key problem; `show` is the object's `toString()`. */
  function KeyMessage(p: KeyProblem, show: Json -> string): string
  {
    match p.finding
    case Blank => "Object contains blank key: " + show(p.obj)
    case Duplicate(key) => "Duplicate key \"" + key + "\" in object: " + show(p.obj)
  }

  /** A message tells a blank key from a repeated one by its first word. */
  lemma KeyMessageTellsKind(p: KeyProblem, show: Json -> string)
    ensures p.finding.Blank? <==> KeyMessage(p, show)[..6] == "Object"
  {
    if p.finding.Duplicate? {
      assert KeyMessage(p, show)[..6] == "Duplic";
    }
  }

  /** Visitor recording a problem for every blank and every repeated key of every visited object. */
  class KeyValidatorVisitor {
    var problems: seq<KeyProblem>

    constructor ()
      ensures problems == []
    {
      problems := [];
    }

    /** `visit(value: JObject)`: the keys in order, with a fresh `seen` set. */
    method Visit(value: Json)
      requires value.JObject?
      modifies this
      ensures problems == old(problems) + ObjectProblems(value)
    {
      var keys := Keys(value.fields);
      var seen: set<string> := {};
      ghost var found: seq<KeyProblem> := [];
      var i := 0;
      while i < |keys|
        invariant 0 <= i <= |keys|
        invariant seen == KeyRules.KeySet(keys[..i])
        invariant found == Reported(KeyRules.KeyFindings(keys[..i]), value)
        invariant problems == old(problems) + found
      {
        var key := keys[i];
        KeyCheckStep(keys, i, seen, value);
        if IsBlank(key) {
          AppendAssoc(old(problems), found, [KeyProblem(KeyRules.Blank, value)]);
          problems := problems + [KeyProblem(KeyRules.Blank, value)];
          found := found + [KeyProblem(KeyRules.Blank, value)];
        }
        if key in seen {
          AppendAssoc(old(problems), found, [KeyProblem(KeyRules.Duplicate(key), value)]);
          problems := problems + [KeyProblem(KeyRules.Duplicate(key), value)];
          found := found + [KeyProblem(KeyRules.Duplicate(key), value)];
        } else {
          seen := seen + {key};
        }
        i := i + 1;
      }
      assert keys[..i] == keys;
    }

    /** `result()`: the recorded messages, in the order recorded. */
    method Result(show: Json -> string) returns (r: seq<string>)
      ensures |r| == |problems|
      ensures forall k :: 0 <= k < |r| ==> r[k] == KeyMessage(problems[k], show)
    {
      var ps := problems;
      r := seq(|ps|, k requires 0 <= k < |ps| => KeyMessage(ps[k], show));
    }
  }
}
