/**
 * The serialisable value hierarchy (`JValue` with `JString`, `JNumber`,
 * `JBoolean`, `JNull`, and the Map-based `JObject`) and its compact
 * `toJson` rendering, together with `JObject`'s functional map API.
 *
 * One datatype, `Json`, stands for both object shapes of the repository:
 * an object is an ordered sequence of (key, value) properties. For the
 * Map-based `JObject` the keys are distinct (`UniqueKeys`) and keep
 * insertion order, as a `LinkedHashMap` does.
 */
module JsonValues {
  import opened Wrappers
  import opened Strings
  import opened Sequences

  /** The runtime class of a node (`it::class` in the source). */
  datatype Kind = ObjectKind | ArrayKind | PropertyKind | StringKind | NumberKind | BooleanKind | NullKind

  /** A JSON value. Numbers are integers here: floating point is not modelled. */
  datatype Json =
    | JObject(fields: seq<Entry>)
      /** `JValue.kt` declares no serialisable array; this one renders as the older `JsonData.kt` array does. */
    | JArray(items: seq<Json>)
    | JString(value: string)
    | JNumber(number: int)
    | JBoolean(flag: bool)
    | JNull

  /** One `Map.Entry` of an object: a key with its value. */
  datatype Entry = Entry(key: string, value: Json)

  function KindOf(v: Json): Kind
  {
    match v
    case JObject(_) => ObjectKind
    case JArray(_) => ArrayKind
    case JString(_) => StringKind
    case JNumber(_) => NumberKind
    case JBoolean(_) => BooleanKind
    case JNull => NullKind
  }

  /* ───────────────────────── String escaping ───────────────────────── */

  /** The characters `JString.toJson` replaces by a two-character escape. */
  predicate NeedsEscape(ch: char)
  {
    ch == '\\' || ch == '"' || ch == '\U{0008}' || ch == '\U{000C}' || ch == '\n' || ch == '\r' || ch == '\t'
  }

  /** The letter that follows the backslash in the escape of `ch`. */
  function EscapeLetter(ch: char): char
    requires NeedsEscape(ch)
  {
    if ch == '\\' then '\\'
    else if ch == '"' then '"'
    else if ch == '\U{0008}' then 'b'
    else if ch == '\U{000C}' then 'f'
    else if ch == '\n' then 'n'
    else if ch == '\r' then 'r'
    else 't'
  }

  /** The character an escape letter stands for, if it is one `JString.toJson` writes. */
  function UnescapeLetter(letter: char): Option<char>
  {
    if letter == '\\' then Some('\\')
    else if letter == '"' then Some('"')
    else if letter == 'b' then Some('\U{0008}')
    else if letter == 'f' then Some('\U{000C}')
    else if letter == 'n' then Some('\n')
    else if letter == 'r' then Some('\r')
    else if letter == 't' then Some('\t')
    else None
  }

  /** How `JString.toJson` writes one character of the payload. */
  function EscapeChar(ch: char): (r: string)
  {
    if NeedsEscape(ch) then ['\\', EscapeLetter(ch)] else [ch]
  }

  function CountEscaped(s: string): nat
  {
    if |s| == 0 then 0 else CountEscaped(s[..|s| - 1]) + (if NeedsEscape(s[|s| - 1]) then 1 else 0)
  }

  /** The payload as it appears between the quotes of `JString.toJson`. */
  function EscapeString(s: string): (r: string)
    ensures |r| == |s| + CountEscaped(s)
  {
    if |s| == 0 then "" else EscapeString(s[..|s| - 1]) + EscapeChar(s[|s| - 1])
  }

  /** How `JObject.escape` writes one character of a key: only backslash and quote change. */
  function EscapeKeyChar(ch: char): string
  {
    if ch == '\\' || ch == '"' then ['\\', ch] else [ch]
  }

  /** A key as it appears between the quotes of `JObject.toJson`. */
  function EscapeKey(s: string): string
  {
    if |s| == 0 then "" else EscapeKey(s[..|s| - 1]) + EscapeKeyChar(s[|s| - 1])
  }

  /**
   * `JString.toJson`: the payload between double quotes, each character
   * written through the escape table into a growing buffer.
   */
  method StringToJson(value: string) returns (out: string)
    ensures out == "\"" + EscapeString(value) + "\""
    ensures |out| == 2 + |value| + CountEscaped(value)
  {
    out := "\"";
    ghost var body := "";
    var i := 0;
    while i < |value|
      invariant 0 <= i <= |value|
      invariant body == EscapeString(value[..i])
      invariant out == "\"" + body
    {
      var ch := value[i];
      AppendAssoc("\"", body, EscapeChar(ch));
      if ch == '\\' {
        out := out + "\\\\";
      } else if ch == '"' {
        out := out + "\\\"";
      } else if ch == '\U{0008}' {
        out := out + "\\b";
      } else if ch == '\U{000C}' {
        out := out + "\\f";
      } else if ch == '\n' {
        out := out + "\\n";
      } else if ch == '\r' {
        out := out + "\\r";
      } else if ch == '\t' {
        out := out + "\\t";
      } else {
        out := out + [ch];
      }
      assert value[..i + 1][..i] == value[..i];
      body := body + EscapeChar(ch);
      i := i + 1;
    }
    assert value[..i] == value;
    out := out + "\"";
  }

  /** `JObject.escape`: the key with backslashes doubled and quotes escaped. */
  method Escape(raw: string) returns (out: string)
    ensures out == EscapeKey(raw)
  {
    out := "";
    var i := 0;
    while i < |raw|
      invariant 0 <= i <= |raw|
      invariant out == EscapeKey(raw[..i])
    {
      var ch := raw[i];
      if ch == '\\' {
        out := out + "\\\\";
      } else if ch == '"' {
        out := out + "\\\"";
      } else {
        out := out + [ch];
      }
      assert raw[..i + 1][..i] == raw[..i];
      i := i + 1;
    }
    assert raw[..i] == raw;
  }

  /**
   * Reads an escaped body back: a backslash must be followed by one of the
   * seven escape letters, a bare quote is refused, anything else is copied.
   */
  function Unescape(t: string): Option<string>
    decreases |t|
  {
    if |t| == 0 then Some("")
    else if t[0] == '\\' then
      if |t| < 2 then None
      else match UnescapeLetter(t[1]) {
        case None => None
        case Some(ch) =>
          match Unescape(t[2..]) {
            case None => None
            case Some(rest) => Some([ch] + rest)
          }
      }
    else if t[0] == '"' then None
    else
      match Unescape(t[1..]) {
        case None => None
        case Some(rest) => Some([t[0]] + rest)
      }
  }

  lemma {:induction false} EscapeStringAppend(a: string, b: string)
    ensures EscapeString(a + b) == EscapeString(a) + EscapeString(b)
    decreases |b|
  {
    if |b| > 0 {
      var b' := b[..|b| - 1];
      assert (a + b)[..|a + b| - 1] == a + b';
      EscapeStringAppend(a, b');
    } else {
      assert a + b == a;
    }
  }

  lemma {:induction false} EscapeKeyAppend(a: string, b: string)
    ensures EscapeKey(a + b) == EscapeKey(a) + EscapeKey(b)
    decreases |b|
  {
    if |b| > 0 {
      var b' := b[..|b| - 1];
      assert (a + b)[..|a + b| - 1] == a + b';
      EscapeKeyAppend(a, b');
    } else {
      assert a + b == a;
    }
  }

  lemma {:induction false} UnescapePrefix(ch: char, rest: string)
    ensures Unescape(EscapeChar(ch) + rest) ==
      match Unescape(rest) { case None => None case Some(r) => Some([ch] + r) }
  {
    var t := EscapeChar(ch) + rest;
    if NeedsEscape(ch) {
      assert t[0] == '\\' && t[1] == EscapeLetter(ch) && t[2..] == rest;
    } else {
      assert t[0] == ch && t[1..] == rest;
    }
  }

  /** Escaping loses nothing: the escaped body reads back as the original payload. */
  lemma {:induction false} EscapeStringRoundTrip(s: string)
    ensures Unescape(EscapeString(s)) == Some(s)
    decreases |s|
  {
    if |s| > 0 {
      calc {
        EscapeString(s);
        { assert s == [s[0]] + s[1..]; EscapeStringAppend([s[0]], s[1..]); }
        EscapeString([s[0]]) + EscapeString(s[1..]);
        { assert [s[0]][..0] == []; }
        EscapeChar(s[0]) + EscapeString(s[1..]);
      }
      UnescapePrefix(s[0], EscapeString(s[1..]));
      EscapeStringRoundTrip(s[1..]);
      assert [s[0]] + s[1..] == s;
    }
  }

  /** Key escaping reads back with the same reader: distinct keys never render alike. */
  lemma {:induction false} EscapeKeyRoundTrip(s: string)
    ensures Unescape(EscapeKey(s)) == Some(s)
    decreases |s|
  {
    if |s| > 0 {
      calc {
        EscapeKey(s);
        { assert s == [s[0]] + s[1..]; EscapeKeyAppend([s[0]], s[1..]); }
        EscapeKey([s[0]]) + EscapeKey(s[1..]);
        { assert [s[0]][..0] == []; }
        EscapeKeyChar(s[0]) + EscapeKey(s[1..]);
      }
      if s[0] == '\\' || s[0] == '"' || !NeedsEscape(s[0]) {
        assert EscapeKeyChar(s[0]) == EscapeChar(s[0]);
        UnescapePrefix(s[0], EscapeKey(s[1..]));
      } else {
        var t := EscapeKeyChar(s[0]) + EscapeKey(s[1..]);
        assert t[0] == s[0] && t[1..] == EscapeKey(s[1..]);
      }
      EscapeKeyRoundTrip(s[1..]);
      assert [s[0]] + s[1..] == s;
    }
  }

  /** The payload is copied unchanged exactly when it holds none of the seven escaped characters. */
  lemma EscapeStringIdentity(s: string)
    ensures EscapeString(s) == s <==> forall k :: 0 <= k < |s| ==> !NeedsEscape(s[k])
  {
    if forall k :: 0 <= k < |s| ==> !NeedsEscape(s[k]) {
      EscapePlainText(s);
    } else {
      CountEscapedZero(s);
    }
  }

  /**
   * A control character other than backspace, form feed, `\n`, `\r` and
   * `\t` is written raw between the quotes, so the text is not a JSON
   * string in the sense of section 7 of RFC 8259.
   */
  lemma ControlCharacterWrittenRaw(c: char)
    requires c < '\U{0020}' && !NeedsEscape(c)
    ensures ToJson(JString([c])) == ['"', c, '"']
    ensures ToJson(JString([c]))[1] < '\U{0020}'
  {
    assert [c][..0] == [];
  }

  /** U+0001 as a whole payload is copied between the quotes unescaped. */
  lemma ControlCharacterExample()
    ensures ToJson(JString(['\U{0001}'])) == "\"\U{0001}\""
  {
    ControlCharacterWrittenRaw('\U{0001}');
  }

  /** Text with nothing to escape is written unchanged. */
  lemma {:induction false} EscapePlainText(s: string)
    requires forall k :: 0 <= k < |s| ==> !NeedsEscape(s[k])
    ensures EscapeString(s) == s
    decreases |s|
  {
    if |s| > 0 {
      var s' := s[..|s| - 1];
      forall k | 0 <= k < |s'|
        ensures !NeedsEscape(s'[k])
      {
        assert s'[k] == s[k];
      }
      EscapePlainText(s');
      assert EscapeChar(s[|s| - 1]) == [s[|s| - 1]];
      assert s' + [s[|s| - 1]] == s;
    }
  }

  lemma {:induction false} CountEscapedZero(s: string)
    ensures CountEscaped(s) == 0 <==> forall k :: 0 <= k < |s| ==> !NeedsEscape(s[k])
    decreases |s|
  {
    if |s| > 0 {
      var s' := s[..|s| - 1];
      CountEscapedZero(s');
      if CountEscaped(s) == 0 {
        forall k | 0 <= k < |s| ensures !NeedsEscape(s[k]) {
          if k < |s| - 1 { assert s'[k] == s[k]; }
        }
      }
      if forall k :: 0 <= k < |s| ==> !NeedsEscape(s[k]) {
        forall k | 0 <= k < |s'| ensures !NeedsEscape(s'[k]) { assert s'[k] == s[k]; }
      }
    }
  }

  /**
   * Where a key holds no backspace, form feed, newline, carriage return or
   * tab, `JObject.escape` and `JString.toJson` escape it alike.
   */
  lemma {:induction false} EscapeKeyAgreesOnPlainText(s: string)
    requires forall k :: 0 <= k < |s| ==> !NeedsEscape(s[k]) || s[k] == '\\' || s[k] == '"'
    ensures EscapeKey(s) == EscapeString(s)
    decreases |s|
  {
    if |s| > 0 {
      var s' := s[..|s| - 1];
      assert forall k :: 0 <= k < |s'| ==> s'[k] == s[k];
      EscapeKeyAgreesOnPlainText(s');
    }
  }

  /* ───────────────────────── Serialisation ───────────────────────── */

  /** `value.toJson()`: compact rendering. */
  function ToJson(v: Json): string
    decreases v, 1
  {
    match v
    case JString(s) => "\"" + EscapeString(s) + "\""
    case JNumber(n) => IntToString(n)
    case JBoolean(b) => if b then "true" else "false"
    case JNull => "null"
    case JObject(fields) => "{" + Join(FieldsToJson(v, fields), ", ") + "}"
    case JArray(items) => "[" + Join(ItemsToJson(v, items), ", ") + "]"
  }

  /** One `"key": value` entry per property, in order. */
  function FieldsToJson(ghost parent: Json, fields: seq<Entry>): (r: seq<string>)
    requires forall k :: 0 <= k < |fields| ==> fields[k].value < parent
    ensures |r| == |fields|
    ensures forall k :: 0 <= k < |fields| ==> r[k] == FieldToJson(parent, fields[k])
    decreases parent, 0, |fields|
  {
    if |fields| == 0 then []
    else FieldsToJson(parent, fields[..|fields| - 1]) + [FieldToJson(parent, fields[|fields| - 1])]
  }

  function FieldToJson(ghost parent: Json, p: Entry): string
    requires p.value < parent
    decreases parent, 0, 0
  {
    "\"" + EscapeKey(p.key) + "\": " + ToJson(p.value)
  }

  function ItemsToJson(ghost parent: Json, items: seq<Json>): (r: seq<string>)
    requires forall k :: 0 <= k < |items| ==> items[k] < parent
    ensures |r| == |items|
    ensures forall k :: 0 <= k < |items| ==> r[k] == ToJson(items[k])
    decreases parent, 0, |items|
  {
    if |items| == 0 then []
    else ItemsToJson(parent, items[..|items| - 1]) + [ToJson(items[|items| - 1])]
  }

  /**
   * An object renders as `{`, its entries, `}`: nothing between the braces
   * exactly when it has no entry, and otherwise the first key's opening quote
   * right after `{`.
   */
  lemma ObjectRendering(fields: seq<Entry>)
    ensures var r := ToJson(JObject(fields)); |r| >= 2 && r[0] == '{' && r[|r| - 1] == '}'
    ensures fields == [] <==> ToJson(JObject(fields)) == "{}"
    ensures fields != [] ==> ToJson(JObject(fields))[1] == '"'
  {
    var v := JObject(fields);
    if fields != [] {
      var parts := FieldsToJson(v, fields);
      assert parts[0] == FieldToJson(v, fields[0]);
      JoinHead(parts, ", ");
    }
  }

  /** A boolean is written as `true` or `false` by its flag, `null` as itself, and a number reads back as its value. */
  lemma ScalarRendering(b: bool, n: int)
    ensures ToJson(JBoolean(b)) == "true" <==> b
    ensures ToJson(JBoolean(b)) == "false" <==> !b
    ensures ToJson(JNull) == "null"
    ensures ParseInt(ToJson(JNumber(n))) == n
  {
    IntToStringRoundTrip(n);
  }

  /** Text with nothing to escape is written unchanged, as a value and as a key. */
  lemma PlainWritten(s: string)
    requires forall k :: 0 <= k < |s| ==> !NeedsEscape(s[k])
    ensures EscapeString(s) == s && EscapeKey(s) == s
  {
    EscapePlainText(s);
    EscapeKeyAgreesOnPlainText(s);
  }

  /** Three characters are escaped one by one. */
  lemma EscapeThree(x: char, y: char, z: char)
    ensures EscapeString([x, y, z]) == EscapeChar(x) + EscapeChar(y) + EscapeChar(z)
  {
    assert [x, y, z][..2] == [x, y] && [x, y][..1] == [x] && [x][..0] == [];
    assert EscapeString([x]) == EscapeChar(x);
    assert EscapeString([x, y]) == EscapeChar(x) + EscapeChar(y);
  }

  /**
   * A backslash, a space and a quote between plain text, as in
   * `hello \ " world`: the backslash is doubled, the quote escaped, the rest
   * copied.
   */
  lemma StringEscapingExample(a: string, b: string)
    requires forall k :: 0 <= k < |a| ==> !NeedsEscape(a[k])
    requires forall k :: 0 <= k < |b| ==> !NeedsEscape(b[k])
    ensures ToJson(JString(a + "\\ \"" + b)) == "\"" + (a + "\\\\ \\\"" + b) + "\""
  {
    var m, escaped := "\\ \"", "\\\\ \\\"";
    assert EscapeString(m) == escaped by {
      EscapeThree('\\', ' ', '"');
      assert m == ['\\', ' ', '"'];
    }
    PlainWritten(a);
    PlainWritten(b);
    EscapeStringAppend(a, m);
    EscapeStringAppend(a + m, b);
    assert EscapeString(a + m + b) == a + escaped + b;
  }

  /**
   * An object of a string, a number, a boolean and a two-string array under
   * plain keys, as in the four-field test object: compact `"key": value`
   * entries in insertion order, separated by `, `.
   */
  lemma ObjectSerializationExample(k1: string, k2: string, k3: string, k4: string, s: string, n: int, flag: bool, t1: string, t2: string)
    requires forall k :: 0 <= k < |k1| ==> !NeedsEscape(k1[k])
    requires forall k :: 0 <= k < |k2| ==> !NeedsEscape(k2[k])
    requires forall k :: 0 <= k < |k3| ==> !NeedsEscape(k3[k])
    requires forall k :: 0 <= k < |k4| ==> !NeedsEscape(k4[k])
    requires forall k :: 0 <= k < |s| ==> !NeedsEscape(s[k])
    requires forall k :: 0 <= k < |t1| ==> !NeedsEscape(t1[k])
    requires forall k :: 0 <= k < |t2| ==> !NeedsEscape(t2[k])
    ensures ToJson(JObject([Entry(k1, JString(s)), Entry(k2, JNumber(n)), Entry(k3, JBoolean(flag)),
                            Entry(k4, JArray([JString(t1), JString(t2)]))]))
         == "{" + ("\"" + k1 + "\": " + ("\"" + s + "\"") + ", "
                 + ("\"" + k2 + "\": " + IntToString(n)) + ", "
                 + ("\"" + k3 + "\": " + (if flag then "true" else "false")) + ", "
                 + ("\"" + k4 + "\": " + ("[" + (("\"" + t1 + "\"") + ", " + ("\"" + t2 + "\"")) + "]"))) + "}"
  {
    var tags := JArray([JString(t1), JString(t2)]);
    var fields := [Entry(k1, JString(s)), Entry(k2, JNumber(n)), Entry(k3, JBoolean(flag)), Entry(k4, tags)];
    var v := JObject(fields);
    PlainWritten(k1);
    PlainWritten(k2);
    PlainWritten(k3);
    PlainWritten(k4);
    PlainWritten(s);
    PlainWritten(t1);
    PlainWritten(t2);
    var items := ItemsToJson(tags, tags.items);
    assert ToJson(tags) == "[" + (("\"" + t1 + "\"") + ", " + ("\"" + t2 + "\"")) + "]" by {
      assert items[0] == ToJson(JString(t1)) == "\"" + t1 + "\"";
      assert items[1] == ToJson(JString(t2)) == "\"" + t2 + "\"";
      assert items[1..] == [items[1]];
      assert Join(items, ", ") == items[0] + ", " + items[1];
      assert ToJson(tags) == "[" + Join(items, ", ") + "]";
    }
    var parts := FieldsToJson(v, fields);
    assert parts[0] == "\"" + k1 + "\": " + ("\"" + s + "\"") by {
      assert parts[0] == FieldToJson(v, fields[0]);
      assert ToJson(JString(s)) == "\"" + s + "\"";
    }
    assert parts[1] == "\"" + k2 + "\": " + IntToString(n) by {
      assert parts[1] == FieldToJson(v, fields[1]);
      assert ToJson(JNumber(n)) == IntToString(n);
    }
    assert parts[2] == "\"" + k3 + "\": " + (if flag then "true" else "false") by {
      assert parts[2] == FieldToJson(v, fields[2]);
      assert ToJson(JBoolean(flag)) == if flag then "true" else "false";
    }
    assert parts[3] == "\"" + k4 + "\": " + ToJson(tags);
    JoinFour(parts, ", ");
    assert ToJson(v) == "{" + Join(parts, ", ") + "}";
  }

  /* ─────────────────────── Map-based JObject API ─────────────────────── */

  function Keys(fields: seq<Entry>): (r: seq<string>)
    ensures |r| == |fields|
    ensures forall k :: 0 <= k < |fields| ==> r[k] == fields[k].key
  {
    seq(|fields|, k requires 0 <= k < |fields| => fields[k].key)
  }

  /** Keys of a `Map`: no key occurs twice. */
  predicate UniqueKeys(fields: seq<Entry>)
  {
    forall i, j :: 0 <= i < j < |fields| ==> fields[i].key != fields[j].key
  }

  function KeySet(fields: seq<Entry>): set<string>
  {
    set k | 0 <= k < |fields| :: fields[k].key
  }

  /** `fields[key]`: the value of the first property with that key, `None` when absent. */
  function Lookup(fields: seq<Entry>, key: string): (r: Option<Json>)
    ensures r.None? <==> key !in KeySet(fields)
    ensures r.Some? ==> exists i :: 0 <= i < |fields| && fields[i] == Entry(key, r.value) &&
                                    forall j :: 0 <= j < i ==> fields[j].key != key
    decreases |fields|
  {
    if |fields| == 0 then None
    else if fields[0].key == key then Some(fields[0].value)
    else
      assert KeySet(fields) == {fields[0].key} + KeySet(fields[1..]) by {
        KeySetCons(fields);
      }
      Lookup(fields[1..], key)
  }

  lemma KeySetCons(fields: seq<Entry>)
    requires |fields| > 0
    ensures KeySet(fields) == {fields[0].key} + KeySet(fields[1..])
  {
    forall x | x in KeySet(fields) ensures x in {fields[0].key} + KeySet(fields[1..]) {
      var k :| 0 <= k < |fields| && fields[k].key == x;
      if k > 0 { assert fields[1..][k - 1] == fields[k]; }
    }
    forall x | x in KeySet(fields[1..]) ensures x in KeySet(fields) {
      var k :| 0 <= k < |fields[1..]| && fields[1..][k].key == x;
      assert fields[k + 1].key == x;
    }
  }

  lemma UniqueTail(fields: seq<Entry>)
    requires UniqueKeys(fields) && |fields| > 0
    ensures UniqueKeys(fields[1..])
    ensures fields[0].key !in KeySet(fields[1..])
  {
    forall i, j | 0 <= i < j < |fields[1..]| ensures fields[1..][i].key != fields[1..][j].key {
      assert fields[1..][i] == fields[i + 1] && fields[1..][j] == fields[j + 1];
    }
    forall k | 0 <= k < |fields[1..]| ensures fields[1..][k].key != fields[0].key {
      assert fields[1..][k] == fields[k + 1];
    }
  }

  /** `LinkedHashMap.put`: replace the value in place when the key exists, append otherwise. */
  function Put(fields: seq<Entry>, key: string, value: Json): (r: seq<Entry>)
    decreases |fields|
  {
    if |fields| == 0 then [Entry(key, value)]
    else if fields[0].key == key then [Entry(key, value)] + fields[1..]
    else [fields[0]] + Put(fields[1..], key, value)
  }

  /** `putAll`: each property of `other`, in order. */
  function PutAll(fields: seq<Entry>, other: seq<Entry>): seq<Entry>
    decreases |other|
  {
    if |other| == 0 then fields else PutAll(Put(fields, other[0].key, other[0].value), other[1..])
  }

  /** `obj.size` */
  function Size(obj: Json): nat
    requires obj.JObject?
  {
    |obj.fields|
  }

  /** `obj[key]` */
  function Get(obj: Json, key: string): Option<Json>
    requires obj.JObject?
  {
    Lookup(obj.fields, key)
  }

  /** `obj + (key to value)`: a new object; the receiver is a value and stays as it was. */
  function Plus(obj: Json, key: string, value: Json): (r: Json)
    requires obj.JObject?
    ensures r.JObject?
  {
    JObject(Put(obj.fields, key, value))
  }

  /** `obj + other`: keys of `other` win on a clash. */
  function Merge(obj: Json, other: Json): (r: Json)
    requires obj.JObject? && other.JObject?
    ensures r.JObject?
  {
    JObject(PutAll(obj.fields, other.fields))
  }

  lemma {:induction false} LookupPut(fields: seq<Entry>, key: string, value: Json, k: string)
    ensures Lookup(Put(fields, key, value), k) == if k == key then Some(value) else Lookup(fields, k)
    decreases |fields|
  {
    if |fields| > 0 && fields[0].key != key {
      LookupPut(fields[1..], key, value, k);
      assert ([fields[0]] + Put(fields[1..], key, value))[1..] == Put(fields[1..], key, value);
    } else if |fields| > 0 {
      assert ([Entry(key, value)] + fields[1..])[1..] == fields[1..];
    }
  }

  lemma {:induction false} PutSize(fields: seq<Entry>, key: string, value: Json)
    ensures |Put(fields, key, value)| == |fields| + (if key in KeySet(fields) then 0 else 1)
    decreases |fields|
  {
    if |fields| > 0 {
      KeySetCons(fields);
      if fields[0].key != key { PutSize(fields[1..], key, value); }
    }
  }

  lemma {:induction false} PutKeySet(fields: seq<Entry>, key: string, value: Json)
    ensures KeySet(Put(fields, key, value)) == KeySet(fields) + {key}
    decreases |fields|
  {
    var r := Put(fields, key, value);
    if |fields| == 0 {
      assert r[0].key == key;
    } else {
      KeySetCons(fields);
      KeySetCons(r);
      if fields[0].key != key {
        PutKeySet(fields[1..], key, value);
        assert r[1..] == Put(fields[1..], key, value);
      } else {
        assert r[1..] == fields[1..];
      }
    }
  }

  lemma {:induction false} PutUnique(fields: seq<Entry>, key: string, value: Json)
    requires UniqueKeys(fields)
    ensures UniqueKeys(Put(fields, key, value))
    decreases |fields|
  {
    var r := Put(fields, key, value);
    if |fields| > 0 {
      KeySetCons(r);
      if fields[0].key != key {
        UniqueTail(fields);
        PutUnique(fields[1..], key, value);
        PutKeySet(fields[1..], key, value);
        assert r[1..] == Put(fields[1..], key, value);
        forall i, j | 0 <= i < j < |r| ensures r[i].key != r[j].key {
          if i == 0 {
            assert r[j] == r[1..][j - 1];
            assert r[j].key in KeySet(r[1..]);
          } else {
            assert r[i] == r[1..][i - 1] && r[j] == r[1..][j - 1];
          }
        }
      } else {
        forall i, j | 0 <= i < j < |r| ensures r[i].key != r[j].key {
          if i == 0 {
            assert r[j] == fields[j];
          } else {
            assert r[i] == fields[i] && r[j] == fields[j];
          }
        }
      }
    }
  }

  /** `obj + (key to value)` maps `key` to `value` and leaves every other key's value as it was. */
  lemma PlusGet(obj: Json, key: string, value: Json, k: string)
    requires obj.JObject?
    ensures Get(Plus(obj, key, value), k) == if k == key then Some(value) else Get(obj, k)
  {
    LookupPut(obj.fields, key, value, k);
  }

  /** `obj + (key to value)` grows the object by one exactly when `key` was absent, and keeps keys unique. */
  lemma PlusSize(obj: Json, key: string, value: Json)
    requires obj.JObject?
    ensures Size(Plus(obj, key, value)) == Size(obj) + (if Get(obj, key).None? then 1 else 0)
    ensures UniqueKeys(obj.fields) ==> UniqueKeys(Plus(obj, key, value).fields)
  {
    PutSize(obj.fields, key, value);
    if UniqueKeys(obj.fields) { PutUnique(obj.fields, key, value); }
  }

  lemma {:induction false} LookupPutAll(fields: seq<Entry>, other: seq<Entry>, k: string)
    requires UniqueKeys(other)
    ensures Lookup(PutAll(fields, other), k) ==
      if k in KeySet(other) then Lookup(other, k) else Lookup(fields, k)
    decreases |other|
  {
    if |other| > 0 {
      var next := Put(fields, other[0].key, other[0].value);
      UniqueTail(other);
      LookupPutAll(next, other[1..], k);
      LookupPut(fields, other[0].key, other[0].value, k);
      KeySetCons(other);
    }
  }

  lemma {:induction false} PutAllKeySet(fields: seq<Entry>, other: seq<Entry>)
    ensures KeySet(PutAll(fields, other)) == KeySet(fields) + KeySet(other)
    ensures UniqueKeys(fields) ==> UniqueKeys(PutAll(fields, other))
    decreases |other|
  {
    if |other| > 0 {
      var next := Put(fields, other[0].key, other[0].value);
      PutKeySet(fields, other[0].key, other[0].value);
      if UniqueKeys(fields) { PutUnique(fields, other[0].key, other[0].value); }
      PutAllKeySet(next, other[1..]);
      KeySetCons(other);
    }
  }

  /**
   * `obj + other` is a right-biased merge: its keys are the union, a key of
   * `other` takes `other`'s value, any other key keeps the receiver's.
   */
  lemma MergeGet(obj: Json, other: Json, k: string)
    requires obj.JObject? && other.JObject? && UniqueKeys(other.fields)
    ensures KeySet(Merge(obj, other).fields) == KeySet(obj.fields) + KeySet(other.fields)
    ensures Get(Merge(obj, other), k) == if Get(other, k).Some? then Get(other, k) else Get(obj, k)
    ensures UniqueKeys(obj.fields) ==> UniqueKeys(Merge(obj, other).fields)
  {
    LookupPutAll(obj.fields, other.fields, k);
    PutAllKeySet(obj.fields, other.fields);
  }

  /** A Map-based object has one entry per distinct key. */
  lemma {:induction false} UniqueKeysSize(fields: seq<Entry>)
    requires UniqueKeys(fields)
    ensures |KeySet(fields)| == |fields|
    decreases |fields|
  {
    if |fields| > 0 {
      KeySetCons(fields);
      UniqueTail(fields);
      UniqueKeysSize(fields[1..]);
    }
  }
}
