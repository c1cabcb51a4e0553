/**
 * `toJson(value)` in `json/fn/Inference.kt`: the recursive conversion of a
 * host value into a `JElement` tree.
 *
 * The source inspects a value at run time (`is String`, `is List<*>`,
 * reflection over public properties). Here the host value is an explicit
 * datatype: each alternative is one branch of the source's `when`, and a
 * value of any other class carries its public properties as an ordered
 * (name, value) list.
 */
module Inference {
  import opened Wrappers
  import opened Elements

  /** A host value, by the branch of the `when` it takes. */
  datatype Host =
    | HNull
    | HString(text: string)
    /** An `Int` (a `Double` is not modelled). */
    | HInt(value: int)
    | HBoolean(flag: bool)
    /** An enum constant, by its `name`. */
    | HEnum(name: string)
    | HList(items: seq<Host>)
    /** A `Map`, its entries in insertion order. */
    | HMap(entries: seq<MapEntry>)
    /** Any other value (a data class, a `Long`, ...): its public properties in order. */
    | HObject(fields: seq<Field>)

  /**
   * A map entry. The key is only ever checked with `as? String`, never
   * converted, so a key of any other class is `OtherKey`.
   */
  datatype MapEntry = MapEntry(key: MapKey, value: Host)

  datatype MapKey = StringKey(text: string) | OtherKey

  datatype Field = Field(name: string, value: Host)

  /** The message of the error raised for a map key that is not a `String`. */
  const KeyError := "Map keys must be strings"

  /** The kind of element each host value is converted into. */
  predicate ShapeAgrees(v: Host, e: JElement)
  {
    match v
    case HNull => e.JNull?
    case HString(s) => e == JString(s)
    case HInt(n) => e == JNumber(n)
    case HBoolean(b) => e == JBoolean(b)
    case HEnum(name) => e == JString(name)
    case HList(items) => e.JArray? && |e.elements| == |items|
    case HMap(entries) => e.JObject? && |e.properties| == |entries|
    case HObject(fields) => e.JObject? && |e.properties| == |fields|
  }

  /** `toJson(value)`; `Err` stands for the `IllegalStateException` of `error(...)`. */
  function ToJson(v: Host): (r: Result<JElement, string>)
    ensures r.Ok? ==> ShapeAgrees(v, r.value) && !r.value.JProperty?
    ensures r.Err? ==> r.error == KeyError
    decreases v, 1
  {
    match v
    case HNull => Ok(JNull)
    case HString(s) => Ok(JString(s))
    case HInt(n) => Ok(JNumber(n))
    case HBoolean(b) => Ok(JBoolean(b))
    case HEnum(name) => Ok(JString(name))
    case HList(items) =>
      (match ItemsToJson(items)
       case Ok(es) => Ok(JArray(es))
       case Err(e) => Err(e))
    case HMap(entries) =>
      (match EntriesToJson(entries)
       case Ok(ps) => Ok(JObject(ps))
       case Err(e) => Err(e))
    case HObject(fields) =>
      (match FieldsToJson(fields)
       case Ok(ps) => Ok(JObject(ps))
       case Err(e) => Err(e))
  }

  /** `value.map { toJson(it) }` over a list, front to back. */
  function ItemsToJson(items: seq<Host>): (r: Result<seq<JElement>, string>)
    ensures r.Ok? ==> |r.value| == |items|
    ensures r.Err? ==> r.error == KeyError
    decreases items, 0
  {
    if |items| == 0 then Ok([])
    else
      match ToJson(items[0])
      case Err(e) => Err(e)
      case Ok(head) =>
        match ItemsToJson(items[1..])
        case Err(e) => Err(e)
        case Ok(tail) => Ok([head] + tail)
  }

  /** The entries of a map as properties; the first non-`String` key fails. */
  function EntriesToJson(entries: seq<MapEntry>): (r: Result<seq<Prop>, string>)
    ensures r.Ok? ==> |r.value| == |entries|
    ensures r.Err? ==> r.error == KeyError
    decreases entries, 0
  {
    if |entries| == 0 then Ok([])
    else if !entries[0].key.StringKey? then Err(KeyError)
    else
      assert entries[0].value < entries[0];
      match ToJson(entries[0].value)
      case Err(e) => Err(e)
      case Ok(value) =>
        match EntriesToJson(entries[1..])
        case Err(e) => Err(e)
        case Ok(tail) => Ok([Prop(entries[0].key.text, value)] + tail)
  }

  /** The public properties of an object as properties, in order. */
  function FieldsToJson(fields: seq<Field>): (r: Result<seq<Prop>, string>)
    ensures r.Ok? ==> |r.value| == |fields|
    ensures r.Err? ==> r.error == KeyError
    decreases fields, 0
  {
    if |fields| == 0 then Ok([])
    else
      match ToJson(fields[0].value)
      case Err(e) => Err(e)
      case Ok(value) =>
        match FieldsToJson(fields[1..])
        case Err(e) => Err(e)
        case Ok(tail) => Ok([Prop(fields[0].name, value)] + tail)
  }

  /** Somewhere inside `v` there is a map with a key that is not a `String`. */
  predicate HasNonStringKey(v: Host)
    decreases v
  {
    match v
    case HList(items) => exists i :: 0 <= i < |items| && HasNonStringKey(items[i])
    case HMap(entries) =>
      exists i :: 0 <= i < |entries| && (!entries[i].key.StringKey? || HasNonStringKey(entries[i].value))
    case HObject(fields) => exists i :: 0 <= i < |fields| && HasNonStringKey(fields[i].value)
    case _ => false
  }

  /** Conversion fails exactly when some map inside the value has a non-`String` key. */
  lemma {:induction false} ToJsonFailsIff(v: Host)
    ensures ToJson(v).Err? <==> HasNonStringKey(v)
    decreases v, 1
  {
    match v
    case HList(items) => ItemsFailIff(items);
    case HMap(entries) => EntriesFailIff(entries);
    case HObject(fields) => FieldsFailIff(fields);
    case _ =>
  }

  lemma {:induction false} ItemsFailIff(items: seq<Host>)
    ensures ItemsToJson(items).Err? <==> exists i :: 0 <= i < |items| && HasNonStringKey(items[i])
    decreases items, 0
  {
    if |items| > 0 {
      ToJsonFailsIff(items[0]);
      ItemsFailIff(items[1..]);
      assert forall i :: 1 <= i < |items| ==> items[i] == items[1..][i - 1];
    }
  }

  lemma {:induction false} EntriesFailIff(entries: seq<MapEntry>)
    ensures EntriesToJson(entries).Err? <==>
      exists i :: 0 <= i < |entries| && (!entries[i].key.StringKey? || HasNonStringKey(entries[i].value))
    decreases entries, 0
  {
    if |entries| > 0 {
      assert entries[0].value < entries[0];
      ToJsonFailsIff(entries[0].value);
      EntriesFailIff(entries[1..]);
      assert forall i :: 1 <= i < |entries| ==> entries[i] == entries[1..][i - 1];
    }
  }

  lemma {:induction false} FieldsFailIff(fields: seq<Field>)
    ensures FieldsToJson(fields).Err? <==> exists i :: 0 <= i < |fields| && HasNonStringKey(fields[i].value)
    decreases fields, 0
  {
    if |fields| > 0 {
      ToJsonFailsIff(fields[0].value);
      FieldsFailIff(fields[1..]);
      assert forall i :: 1 <= i < |fields| ==> fields[i] == fields[1..][i - 1];
    }
  }

  /** A converted list holds, at each index, the conversion of the item there. */
  lemma {:induction false} ItemsConvertElementwise(items: seq<Host>)
    requires ItemsToJson(items).Ok?
    ensures forall i :: 0 <= i < |items| ==> ToJson(items[i]) == Ok(ItemsToJson(items).value[i])
    decreases |items|
  {
    if |items| > 0 {
      ItemsConvertElementwise(items[1..]);
      var r := ItemsToJson(items).value;
      assert r == [ToJson(items[0]).value] + ItemsToJson(items[1..]).value;
      forall i | 1 <= i < |items| ensures ToJson(items[i]) == Ok(r[i]) {
        assert items[i] == items[1..][i - 1];
      }
    }
  }

  /** A converted map holds one property per entry, in entry order. */
  lemma {:induction false} EntriesConvertInOrder(entries: seq<MapEntry>)
    requires EntriesToJson(entries).Ok?
    ensures forall i :: 0 <= i < |entries| ==>
      entries[i].key.StringKey? && ToJson(entries[i].value).Ok? &&
      EntriesToJson(entries).value[i] == Prop(entries[i].key.text, ToJson(entries[i].value).value)
    decreases |entries|
  {
    if |entries| > 0 {
      EntriesConvertInOrder(entries[1..]);
      var r := EntriesToJson(entries).value;
      assert r == [Prop(entries[0].key.text, ToJson(entries[0].value).value)] + EntriesToJson(entries[1..]).value;
      forall i | 1 <= i < |entries|
        ensures r[i] == Prop(entries[i].key.text, ToJson(entries[i].value).value)
      {
        assert entries[i] == entries[1..][i - 1];
      }
    }
  }

  /** A converted object holds one property per public property, in order. */
  lemma {:induction false} FieldsConvertInOrder(fields: seq<Field>)
    requires FieldsToJson(fields).Ok?
    ensures forall i :: 0 <= i < |fields| ==>
      ToJson(fields[i].value).Ok? &&
      FieldsToJson(fields).value[i] == Prop(fields[i].name, ToJson(fields[i].value).value)
    decreases |fields|
  {
    if |fields| > 0 {
      FieldsConvertInOrder(fields[1..]);
      var r := FieldsToJson(fields).value;
      assert r == [Prop(fields[0].name, ToJson(fields[0].value).value)] + FieldsToJson(fields[1..]).value;
      forall i | 1 <= i < |fields|
        ensures r[i] == Prop(fields[i].name, ToJson(fields[i].value).value)
      {
        assert fields[i] == fields[1..][i - 1];
      }
    }
  }

  /** A list converts to an array of the same length, element by element. */
  lemma ToJsonList(items: seq<Host>)
    requires ToJson(HList(items)).Ok?
    ensures ToJson(HList(items)).value.JArray?
    ensures |ToJson(HList(items)).value.elements| == |items|
    ensures forall i :: 0 <= i < |items| ==> ToJson(items[i]) == Ok(ToJson(HList(items)).value.elements[i])
  {
    ItemsConvertElementwise(items);
  }

  /** A map with `String` keys converts to an object whose properties follow the entries. */
  lemma ToJsonMap(entries: seq<MapEntry>)
    requires ToJson(HMap(entries)).Ok?
    ensures ToJson(HMap(entries)).value.JObject?
    ensures |ToJson(HMap(entries)).value.properties| == |entries|
    ensures forall i :: 0 <= i < |entries| ==>
      entries[i].key.StringKey? && ToJson(entries[i].value).Ok? &&
      ToJson(HMap(entries)).value.properties[i] == Prop(entries[i].key.text, ToJson(entries[i].value).value)
  {
    EntriesConvertInOrder(entries);
  }

  /** Any other value converts to an object of its public properties, in order. */
  lemma ToJsonObject(fields: seq<Field>)
    requires ToJson(HObject(fields)).Ok?
    ensures ToJson(HObject(fields)).value.JObject?
    ensures |ToJson(HObject(fields)).value.properties| == |fields|
    ensures forall i :: 0 <= i < |fields| ==>
      ToJson(fields[i].value).Ok? &&
      ToJson(HObject(fields)).value.properties[i] == Prop(fields[i].name, ToJson(fields[i].value).value)
  {
    FieldsConvertInOrder(fields);
  }

  /** Every `JProperty` of a tree sits directly in an object. */
  predicate PropertiesOnlyInObjects(e: JElement)
    decreases e
  {
    match e
    case JProperty(_) => false
    case JArray(es) => forall i :: 0 <= i < |es| ==> PropertiesOnlyInObjects(es[i])
    case JObject(ps) => forall i :: 0 <= i < |ps| ==> PropertiesOnlyInObjects(ps[i].value)
    case _ => true
  }

  /** Inference never places a `JProperty` anywhere but directly in an object. */
  lemma {:induction false} ToJsonPropertiesInObjects(v: Host)
    requires ToJson(v).Ok?
    ensures PropertiesOnlyInObjects(ToJson(v).value)
    decreases v
  {
    match v
    case HList(items) =>
      ToJsonList(items);
      forall i | 0 <= i < |items| ensures PropertiesOnlyInObjects(ToJson(v).value.elements[i]) {
        ToJsonPropertiesInObjects(items[i]);
      }
    case HMap(entries) =>
      ToJsonMap(entries);
      forall i | 0 <= i < |entries| ensures PropertiesOnlyInObjects(ToJson(v).value.properties[i].value) {
        ToJsonPropertiesInObjects(entries[i].value);
      }
    case HObject(fields) =>
      ToJsonObject(fields);
      forall i | 0 <= i < |fields| ensures PropertiesOnlyInObjects(ToJson(v).value.properties[i].value) {
        ToJsonPropertiesInObjects(fields[i].value);
      }
    case _ =>
  }

  /** Primitive, enum, list and map conversions, as the inference tests state them. */
  lemma InferenceExamples()
    ensures ToJson(HString("hello")) == Ok(JString("hello"))
    ensures ToJson(HInt(42)) == Ok(JNumber(42))
    ensures ToJson(HBoolean(true)) == Ok(JBoolean(true))
    ensures ToJson(HNull) == Ok(JNull)
    ensures ToJson(HEnum("A")) == Ok(JString("A"))
    ensures ToJson(HList([HInt(1), HInt(2), HInt(3)])) == Ok(JArray([JNumber(1), JNumber(2), JNumber(3)]))
    ensures ToJson(HMap([MapEntry(StringKey("a"), HBoolean(true)), MapEntry(StringKey("b"), HInt(1))]))
      == Ok(JObject([Prop("a", JBoolean(true)), Prop("b", JNumber(1))]))
    ensures ToJson(HMap([MapEntry(OtherKey, HBoolean(true))])) == Err(KeyError)
  {
    var items := [HInt(1), HInt(2), HInt(3)];
    assert items[1..] == [HInt(2), HInt(3)];
    assert items[1..][1..] == [HInt(3)];
    assert [JNumber(3)] + [] == [JNumber(3)];
    assert ItemsToJson([HInt(3)]) == Ok([JNumber(3)]);
    assert [JNumber(2)] + [JNumber(3)] == [JNumber(2), JNumber(3)];
    assert ItemsToJson([HInt(2), HInt(3)]) == Ok([JNumber(2), JNumber(3)]);
    assert [JNumber(1)] + [JNumber(2), JNumber(3)] == [JNumber(1), JNumber(2), JNumber(3)];
    var entries := [MapEntry(StringKey("a"), HBoolean(true)), MapEntry(StringKey("b"), HInt(1))];
    assert entries[1..] == [MapEntry(StringKey("b"), HInt(1))];
    assert [Prop("b", JNumber(1))] + [] == [Prop("b", JNumber(1))];
    assert EntriesToJson(entries[1..]) == Ok([Prop("b", JNumber(1))]);
    assert [Prop("a", JBoolean(true))] + [Prop("b", JNumber(1))] == [Prop("a", JBoolean(true)), Prop("b", JNumber(1))];
    assert EntriesToJson(entries) == Ok([Prop("a", JBoolean(true)), Prop("b", JNumber(1))]);
  }

  /** A student of the course in the inference test. */
  function Student(name: string, age: int, passed: bool, grade: Option<string>): Host
  {
    HObject([Field("name", HString(name)), Field("age", HInt(age)), Field("passed", HBoolean(passed)),
             Field("grade", match grade case None => HNull case Some(g) => HEnum(g))])
  }

  /** The element a student is expected to convert into. */
  function StudentElement(name: string, age: int, passed: bool, grade: Option<string>): JElement
  {
    JObject([Prop("name", JString(name)), Prop("age", JNumber(age)), Prop("passed", JBoolean(passed)),
             Prop("grade", match grade case None => JNull case Some(g) => JString(g))])
  }

  /** A student host converts to its four properties in the order it lists them; no grade gives `null`. */
  lemma StudentToJson(name: string, age: int, passed: bool, grade: Option<string>)
    ensures ToJson(Student(name, age, passed, grade)) == Ok(StudentElement(name, age, passed, grade))
  {
    var fs := Student(name, age, passed, grade).fields;
    var g := match grade case None => JNull case Some(x) => JString(x);
    assert fs[3..] == [fs[3]];
    var p3 := [Prop("grade", g)];
    assert [Prop("grade", g)] + [] == p3;
    assert FieldsToJson(fs[3..]) == Ok(p3);
    assert fs[2..][1..] == fs[3..];
    var p2 := [Prop("passed", JBoolean(passed))] + p3;
    assert FieldsToJson(fs[2..]) == Ok(p2);
    assert fs[1..][1..] == fs[2..];
    var p1 := [Prop("age", JNumber(age))] + p2;
    assert FieldsToJson(fs[1..]) == Ok(p1);
    var p0 := [Prop("name", JString(name))] + p1;
    assert FieldsToJson(fs) == Ok(p0);
    assert p0 == StudentElement(name, age, passed, grade).properties;
  }

  /** The course of the inference test. */
  function Course(): Host
  {
    HObject([Field("title", HString("PA")), Field("credits", HInt(6)),
             Field("students", HList([Student("Alice", 21, true, None), Student("Bob", 22, false, Some("B"))]))])
  }

  /**
   * The course converts to an object with `"title": "PA"`, whose students
   * have `"grade": null` and `"grade": "B"`.
   */
  lemma CourseExample()
    ensures ToJson(Course()) == Ok(JObject([
      Prop("title", JString("PA")), Prop("credits", JNumber(6)),
      Prop("students", JArray([StudentElement("Alice", 21, true, None), StudentElement("Bob", 22, false, Some("B"))]))]))
    ensures StudentElement("Alice", 21, true, None).properties[3] == Prop("grade", JNull)
    ensures StudentElement("Bob", 22, false, Some("B")).properties[3] == Prop("grade", JString("B"))
  {
    var alice := Student("Alice", 21, true, None);
    var bob := Student("Bob", 22, false, Some("B"));
    StudentToJson("Alice", 21, true, None);
    StudentToJson("Bob", 22, false, Some("B"));
    var aj := StudentElement("Alice", 21, true, None);
    var bj := StudentElement("Bob", 22, false, Some("B"));
    var students := [alice, bob];
    assert students[1..] == [bob];
    assert [bj] + [] == [bj];
    assert ItemsToJson(students[1..]) == Ok([bj]);
    assert [aj] + [bj] == [aj, bj];
    assert ItemsToJson(students) == Ok([aj, bj]);
    var fields := Course().fields;
    var sj := Prop("students", JArray([aj, bj]));
    assert fields[2..] == [fields[2]];
    assert [sj] + [] == [sj];
    assert FieldsToJson(fields[2..]) == Ok([sj]);
    assert fields[1..][1..] == fields[2..];
    var q1 := [Prop("credits", JNumber(6))] + [sj];
    assert FieldsToJson(fields[1..]) == Ok(q1);
    var q0 := [Prop("title", JString("PA"))] + q1;
    assert FieldsToJson(fields) == Ok(q0);
    assert q0 == [Prop("title", JString("PA")), Prop("credits", JNumber(6)), sj];
  }
}
