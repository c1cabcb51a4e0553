/**
 * `JObject.filter`, `JArray.filter` and `JArray.map`: each builds a new
 * element from the receiver's children with Kotlin's list `filter` / `map`.
 * The receiver is a value here, so it cannot be changed by the call.
 */
module Extensions {
  import opened Elements

  /** `xs.filter(keep)`: the items for which `keep` holds, front to back. */
  function Filter<T>(xs: seq<T>, keep: T -> bool): (r: seq<T>)
    ensures |r| <= |xs|
    decreases |xs|
  {
    if |xs| == 0 then []
    else Filter(xs[..|xs| - 1], keep) + (if keep(xs[|xs| - 1]) then [xs[|xs| - 1]] else [])
  }

  /** `xs.map(f)`: `f` applied to each item, front to back. */
  function Map<T, U>(xs: seq<T>, f: T -> U): (r: seq<U>)
    ensures |r| == |xs|
    decreases |xs|
  {
    if |xs| == 0 then [] else Map(xs[..|xs| - 1], f) + [f(xs[|xs| - 1])]
  }

  /**
   * The filter result is the subsequence of `xs` at the indices `idx`,
   * which rise strictly and are exactly the indices whose item is kept.
   */
  lemma {:induction false} FilterPicks<T>(xs: seq<T>, keep: T -> bool) returns (idx: seq<nat>)
    ensures |idx| == |Filter(xs, keep)|
    ensures forall k :: 0 <= k < |idx| ==> idx[k] < |xs| && xs[idx[k]] == Filter(xs, keep)[k]
    ensures forall k, l :: 0 <= k < l < |idx| ==> idx[k] < idx[l]
    ensures forall i :: 0 <= i < |xs| ==> (keep(xs[i]) <==> i in idx)
    decreases |xs|
  {
    if |xs| == 0 {
      idx := [];
    } else {
      var last := |xs| - 1;
      var init := xs[..last];
      var before := FilterPicks(init, keep);
      forall i | 0 <= i < last ensures xs[i] == init[i] { }
      if keep(xs[last]) {
        idx := before + [last];
        assert Filter(xs, keep) == Filter(init, keep) + [xs[last]];
      } else {
        idx := before;
        assert Filter(xs, keep) == Filter(init, keep) + [];
      }
    }
  }

  /** An item is in the result exactly when it is in the input and kept. */
  lemma {:induction false} FilterMembers<T>(xs: seq<T>, keep: T -> bool, x: T)
    ensures x in Filter(xs, keep) <==> x in xs && keep(x)
    decreases |xs|
  {
    if |xs| > 0 {
      var init := xs[..|xs| - 1];
      FilterMembers(init, keep, x);
      assert xs == init + [xs[|xs| - 1]];
    }
  }

  /** Filtering again with the same predicate changes nothing. */
  lemma {:induction false} FilterIdempotent<T>(xs: seq<T>, keep: T -> bool)
    ensures Filter(Filter(xs, keep), keep) == Filter(xs, keep)
  {
    var r := Filter(xs, keep);
    forall k | 0 <= k < |r| ensures keep(r[k]) {
      FilterMembers(xs, keep, r[k]);
    }
    FilterKeepsAll(r, keep);
  }

  /** When every item is kept, the result is the input. */
  lemma {:induction false} FilterKeepsAll<T>(xs: seq<T>, keep: T -> bool)
    requires forall k :: 0 <= k < |xs| ==> keep(xs[k])
    ensures Filter(xs, keep) == xs
    decreases |xs|
  {
    if |xs| > 0 {
      var init := xs[..|xs| - 1];
      FilterKeepsAll(init, keep);
      assert init + [xs[|xs| - 1]] == xs;
    }
  }

  /** When no item is kept, the result is empty. */
  lemma {:induction false} FilterKeepsNone<T>(xs: seq<T>, keep: T -> bool)
    requires forall k :: 0 <= k < |xs| ==> !keep(xs[k])
    ensures Filter(xs, keep) == []
    decreases |xs|
  {
    if |xs| > 0 {
      FilterKeepsNone(xs[..|xs| - 1], keep);
    }
  }

  /** Item `i` of the mapped list is `f` of item `i`. */
  lemma {:induction false} MapAt<T, U>(xs: seq<T>, f: T -> U, i: nat)
    requires i < |xs|
    ensures Map(xs, f)[i] == f(xs[i])
    decreases |xs|
  {
    if i < |xs| - 1 {
      MapAt(xs[..|xs| - 1], f, i);
    }
  }

  /** `JObject.filter(pred)`: a new object of the properties whose key and value pass. */
  function FilterObject(obj: JElement, pred: (string, JElement) -> bool): (r: JElement)
    requires obj.JObject?
    ensures r.JObject?
  {
    JObject(Filter(obj.properties, (p: Prop) => pred(p.key, p.value)))
  }

  /** `JArray.filter(pred)`: a new array of the elements that pass. */
  function FilterArray(arr: JElement, pred: JElement -> bool): (r: JElement)
    requires arr.JArray?
    ensures r.JArray?
  {
    JArray(Filter(arr.elements, pred))
  }

  /** `JArray.map(transform)`: a new array of the transformed elements. */
  function MapArray(arr: JElement, transform: JElement -> JElement): (r: JElement)
    requires arr.JArray?
    ensures r.JArray?
  {
    JArray(Map(arr.elements, transform))
  }

  /** A property is in the filtered object exactly when it was in the object and passes. */
  lemma FilterObjectMembers(obj: JElement, pred: (string, JElement) -> bool, p: Prop)
    requires obj.JObject?
    ensures p in FilterObject(obj, pred).properties <==> p in obj.properties && pred(p.key, p.value)
  {
    FilterMembers(obj.properties, (q: Prop) => pred(q.key, q.value), p);
  }

  /**
   * The filtered object keeps exactly the passing properties, each occurrence
   * once, in their original order: property `k` of the result is property
   * `idx[k]` of the object, with `idx` rising strictly over the passing indices.
   */
  lemma FilterObjectOrder(obj: JElement, pred: (string, JElement) -> bool) returns (idx: seq<nat>)
    requires obj.JObject?
    ensures |FilterObject(obj, pred).properties| <= |obj.properties|
    ensures |idx| == |FilterObject(obj, pred).properties|
    ensures forall k :: 0 <= k < |idx| ==>
      idx[k] < |obj.properties| && obj.properties[idx[k]] == FilterObject(obj, pred).properties[k]
    ensures forall k, l :: 0 <= k < l < |idx| ==> idx[k] < idx[l]
    ensures forall i :: 0 <= i < |obj.properties| ==>
      (pred(obj.properties[i].key, obj.properties[i].value) <==> i in idx)
  {
    var keep := (p: Prop) => pred(p.key, p.value);
    idx := FilterPicks(obj.properties, keep);
    forall i | 0 <= i < |obj.properties|
      ensures pred(obj.properties[i].key, obj.properties[i].value) <==> i in idx
    {
      assert keep(obj.properties[i]) == pred(obj.properties[i].key, obj.properties[i].value);
    }
  }

  /** The filtered array keeps the passing elements in their order and is never longer. */
  lemma FilterArrayOrder(arr: JElement, pred: JElement -> bool) returns (idx: seq<nat>)
    requires arr.JArray?
    ensures |FilterArray(arr, pred).elements| <= |arr.elements|
    ensures |idx| == |FilterArray(arr, pred).elements|
    ensures forall k :: 0 <= k < |idx| ==>
      idx[k] < |arr.elements| && arr.elements[idx[k]] == FilterArray(arr, pred).elements[k]
    ensures forall k, l :: 0 <= k < l < |idx| ==> idx[k] < idx[l]
    ensures forall i :: 0 <= i < |arr.elements| ==> (pred(arr.elements[i]) <==> i in idx)
  {
    idx := FilterPicks(arr.elements, pred);
  }

  /** The mapped array has the same length and element `i` is `transform` of element `i`. */
  lemma MapArrayAt(arr: JElement, transform: JElement -> JElement)
    requires arr.JArray?
    ensures |MapArray(arr, transform).elements| == |arr.elements|
    ensures forall i :: 0 <= i < |arr.elements| ==> MapArray(arr, transform).elements[i] == transform(arr.elements[i])
  {
    forall i | 0 <= i < |arr.elements| ensures MapArray(arr, transform).elements[i] == transform(arr.elements[i]) {
      MapAt(arr.elements, transform, i);
    }
  }

  /** Filtering out `"secret"` keeps `id` and `name`; doubling `[1, 2, 3]` gives `[2, 4, 6]`. */
  lemma FilterMapExamples()
    ensures FilterObject(JObject([Prop("id", JNumber(1)), Prop("name", JString("Bob")), Prop("secret", JString("xxx"))]),
                         (key: string, value: JElement) => key != "secret")
      == JObject([Prop("id", JNumber(1)), Prop("name", JString("Bob"))])
    ensures MapArray(JArray([JNumber(1), JNumber(2), JNumber(3)]),
                     (e: JElement) => if e.JNumber? then JNumber(e.number * 2) else e)
      == JArray([JNumber(2), JNumber(4), JNumber(6)])
  {
    var pred := (key: string, value: JElement) => key != "secret";
    FilterDropsThird([Prop("id", JNumber(1)), Prop("name", JString("Bob")), Prop("secret", JString("xxx"))],
                     (p: Prop) => pred(p.key, p.value));
    var nums := [JNumber(1), JNumber(2), JNumber(3)];
    var double := (e: JElement) => if e.JNumber? then JNumber(e.number * 2) else e;
    MapAt(nums, double, 0);
    MapAt(nums, double, 1);
    MapAt(nums, double, 2);
  }

  /** Of three items, a filter that keeps the first two and drops the third yields the first two. */
  lemma FilterDropsThird<T>(xs: seq<T>, keep: T -> bool)
    requires |xs| == 3 && keep(xs[0]) && keep(xs[1]) && !keep(xs[2])
    ensures Filter(xs, keep) == [xs[0], xs[1]]
  {
    assert xs[..2] == [xs[0], xs[1]];
    assert xs[..2][..1] == [xs[0]];
    assert Filter(xs, keep) == Filter(xs[..2], keep) + [];
  }
}
