/**
 * The `JElement` tree: `JObject`, `JArray`, `JProperty`, `JString`,
 * `JNumber`, `JBoolean` and `JNull`, each with a mutable `parent` link and
 * the `depth` derived from it, and the `accept` traversal order.
 *
 * Nodes live in an arena: a node is an index into a sequence of `Node`s, a
 * child is referred to by its index, and `parent` is an index too. Children
 * are always built before their parent (`JProperty(key, value)` receives an
 * existing `value`), so every child index is smaller than its owner's and
 * every parent link points to a later node; recursion over children and
 * over the parent chain terminates on these indices.
 *
 * `JElement` (the datatype) is the value of a subtree without parent links:
 * what the data classes' structural equality compares.
 */
module Elements {
  import opened Wrappers
  import JsonValues

  type NodeId = nat

  /** The value of a subtree. `JObject` holds properties only, as `getProperties()` is a `List<JProperty>`. */
  datatype JElement =
    | JObject(properties: seq<Prop>)
    | JArray(elements: seq<JElement>)
    | JProperty(property: Prop)
    | JString(text: string)
    | JNumber(number: int)
    | JBoolean(flag: bool)
    | JNull

  /** The payload of a `JProperty`: its key and its value. */
  datatype Prop = Prop(key: string, value: JElement)

  /** What a node holds; children are node indices. */
  datatype Payload =
    | ObjectNode(properties: seq<NodeId>)
    | ArrayNode(elements: seq<NodeId>)
    | PropertyNode(key: string, value: NodeId)
    | StringNode(text: string)
    | NumberNode(number: int)
    | BooleanNode(flag: bool)
    | NullNode

  /** A node: its payload and `parent` (`None` for a root, the default). */
  datatype Node = Node(payload: Payload, parent: Option<NodeId>)

  function PayloadKind(p: Payload): JsonValues.Kind
  {
    match p
    case ObjectNode(_) => JsonValues.ObjectKind
    case ArrayNode(_) => JsonValues.ArrayKind
    case PropertyNode(_, _) => JsonValues.PropertyKind
    case StringNode(_) => JsonValues.StringKind
    case NumberNode(_) => JsonValues.NumberKind
    case BooleanNode(_) => JsonValues.BooleanKind
    case NullNode => JsonValues.NullKind
  }

  /**
   * Children come before their owner, a parent link points to a later node,
   * and an object holds property nodes only.
   */
  predicate WellFormed(nodes: seq<Node>)
  {
    forall i :: 0 <= i < |nodes| ==>
      && (nodes[i].parent.Some? ==> i < nodes[i].parent.value < |nodes|)
      && (nodes[i].payload.ObjectNode? ==>
            forall k :: 0 <= k < |nodes[i].payload.properties| ==>
              nodes[i].payload.properties[k] < i &&
              IsProperty(nodes, nodes[i].payload.properties[k]))
      && (nodes[i].payload.ArrayNode? ==>
            forall k :: 0 <= k < |nodes[i].payload.elements| ==> nodes[i].payload.elements[k] < i)
      && (nodes[i].payload.PropertyNode? ==> nodes[i].payload.value < i)
  }

  predicate IsProperty(nodes: seq<Node>, i: NodeId)
  {
    i < |nodes| && nodes[i].payload.PropertyNode?
  }

  /* ───────────────────────────── depth ───────────────────────────── */

  /**
   * `depth`: one more than the parent's depth (-1 without a parent), less
   * one again when the parent is a `JProperty`, which is transparent.
   */
  function Depth(nodes: seq<Node>, i: NodeId): (d: int)
    requires WellFormed(nodes) && i < |nodes|
    ensures d >= 0
    decreases |nodes| - i
  {
    var parent := nodes[i].parent;
    1 + (match parent case None => -1 case Some(p) => Depth(nodes, p))
      + (if parent.Some? && IsProperty(nodes, parent.value) then -1 else 0)
  }

  /** The strict ancestors of a node, nearest first, following `parent`. */
  function Ancestors(nodes: seq<Node>, i: NodeId): (a: seq<NodeId>)
    requires WellFormed(nodes) && i < |nodes|
    ensures forall k :: 0 <= k < |a| ==> i < a[k] < |nodes|
    decreases |nodes| - i
  {
    match nodes[i].parent
    case None => []
    case Some(p) => [p] + Ancestors(nodes, p)
  }

  function CountNonProperty(nodes: seq<Node>, ids: seq<NodeId>): nat
  {
    if |ids| == 0 then 0
    else (if IsProperty(nodes, ids[0]) then 0 else 1) + CountNonProperty(nodes, ids[1..])
  }

  /** The three cases of the `depth` getter. */
  lemma DepthRecurrence(nodes: seq<Node>, i: NodeId)
    requires WellFormed(nodes) && i < |nodes|
    ensures nodes[i].parent.None? ==> Depth(nodes, i) == 0
    ensures nodes[i].parent.Some? && IsProperty(nodes, nodes[i].parent.value) ==>
      Depth(nodes, i) == Depth(nodes, nodes[i].parent.value)
    ensures nodes[i].parent.Some? && !IsProperty(nodes, nodes[i].parent.value) ==>
      Depth(nodes, i) == Depth(nodes, nodes[i].parent.value) + 1
  {
  }

  /** `depth` counts the strict ancestors that are not `JProperty` nodes. */
  lemma {:induction false} DepthCountsNonPropertyAncestors(nodes: seq<Node>, i: NodeId)
    requires WellFormed(nodes) && i < |nodes|
    ensures Depth(nodes, i) == CountNonProperty(nodes, Ancestors(nodes, i))
    decreases |nodes| - i
  {
    match nodes[i].parent {
      case None =>
      case Some(p) =>
        DepthCountsNonPropertyAncestors(nodes, p);
        assert ([p] + Ancestors(nodes, p))[1..] == Ancestors(nodes, p);
    }
  }

  /* ───────────────────────── subtree values ───────────────────────── */

  /** The value of the subtree rooted at `i`: what data-class equality compares. */
  function ContentOf(nodes: seq<Node>, i: NodeId): (e: JElement)
    requires WellFormed(nodes) && i < |nodes|
    ensures nodes[i].payload.PropertyNode? <==> e.JProperty?
    decreases i, 1
  {
    match nodes[i].payload
    case ObjectNode(ps) => JObject(PropsOf(nodes, ps, i))
    case ArrayNode(es) => JArray(ContentsOf(nodes, es, i))
    case PropertyNode(k, v) => JProperty(Prop(k, ContentOf(nodes, v)))
    case StringNode(s) => JString(s)
    case NumberNode(n) => JNumber(n)
    case BooleanNode(b) => JBoolean(b)
    case NullNode => JNull
  }

  function ContentsOf(nodes: seq<Node>, ids: seq<NodeId>, bound: nat): (r: seq<JElement>)
    requires WellFormed(nodes) && bound <= |nodes|
    requires forall k :: 0 <= k < |ids| ==> ids[k] < bound
    ensures |r| == |ids|
    decreases bound, 0, |ids|
  {
    if |ids| == 0 then [] else [ContentOf(nodes, ids[0])] + ContentsOf(nodes, ids[1..], bound)
  }

  function PropsOf(nodes: seq<Node>, ids: seq<NodeId>, bound: nat): (r: seq<Prop>)
    requires WellFormed(nodes) && bound <= |nodes|
    requires forall k :: 0 <= k < |ids| ==> ids[k] < bound && nodes[ids[k]].payload.PropertyNode?
    ensures |r| == |ids|
    decreases bound, 0, |ids|
  {
    if |ids| == 0 then [] else [ContentOf(nodes, ids[0]).property] + PropsOf(nodes, ids[1..], bound)
  }

  lemma {:induction false} ContentsOfAt(nodes: seq<Node>, ids: seq<NodeId>, bound: nat, k: nat)
    requires WellFormed(nodes) && bound <= |nodes|
    requires forall j :: 0 <= j < |ids| ==> ids[j] < bound
    requires k < |ids|
    ensures ContentsOf(nodes, ids, bound)[k] == ContentOf(nodes, ids[k])
    decreases |ids|
  {
    if k > 0 {
      ContentsOfAt(nodes, ids[1..], bound, k - 1);
    }
  }

  /* ──────────────────────────── equality ──────────────────────────── */

  /**
   * `a.equals(other)`: false for `null`; `JNull` equals any `JNull`; the
   * data classes compare their constructor fields (lists element by element).
   * The `parent` link is not a constructor field and is never compared.
   */
  function Equals(nodes: seq<Node>, a: NodeId, other: Option<NodeId>): bool
    requires WellFormed(nodes) && a < |nodes|
    requires other.Some? ==> other.value < |nodes|
    decreases a, 1
  {
    match other
    case None => false
    case Some(b) =>
      match nodes[a].payload
      case NullNode => nodes[b].payload.NullNode?
      case StringNode(s) => nodes[b].payload.StringNode? && nodes[b].payload.text == s
      case NumberNode(n) => nodes[b].payload.NumberNode? && nodes[b].payload.number == n
      case BooleanNode(f) => nodes[b].payload.BooleanNode? && nodes[b].payload.flag == f
      case PropertyNode(k, v) =>
        nodes[b].payload.PropertyNode? && nodes[b].payload.key == k &&
        Equals(nodes, v, Some(nodes[b].payload.value))
      case ArrayNode(es) =>
        nodes[b].payload.ArrayNode? && ListEquals(nodes, es, nodes[b].payload.elements, a)
      case ObjectNode(ps) =>
        nodes[b].payload.ObjectNode? && ListEquals(nodes, ps, nodes[b].payload.properties, a)
  }

  /** `List.equals`: same size and equal elements at every index. */
  function ListEquals(nodes: seq<Node>, xs: seq<NodeId>, ys: seq<NodeId>, bound: nat): bool
    requires WellFormed(nodes) && bound <= |nodes|
    requires forall k :: 0 <= k < |xs| ==> xs[k] < bound
    requires forall k :: 0 <= k < |ys| ==> ys[k] < |nodes|
    decreases bound, 0, |xs|
  {
    |xs| == |ys| && (|xs| == 0 || (Equals(nodes, xs[0], Some(ys[0])) && ListEquals(nodes, xs[1..], ys[1..], bound)))
  }

  /** Two nodes are equal exactly when their subtrees have the same value; parent links play no part. */
  lemma {:induction false} EqualsIffSameContent(nodes: seq<Node>, a: NodeId, b: NodeId)
    requires WellFormed(nodes) && a < |nodes| && b < |nodes|
    ensures Equals(nodes, a, Some(b)) <==> ContentOf(nodes, a) == ContentOf(nodes, b)
    decreases a, 1
  {
    match nodes[a].payload {
      case PropertyNode(k, v) =>
        if nodes[b].payload.PropertyNode? {
          EqualsIffSameContent(nodes, v, nodes[b].payload.value);
        }
      case ArrayNode(es) =>
        if nodes[b].payload.ArrayNode? {
          ListEqualsIffSameContents(nodes, es, nodes[b].payload.elements, a, b);
        }
      case ObjectNode(ps) =>
        if nodes[b].payload.ObjectNode? {
          ListEqualsIffSameContents(nodes, ps, nodes[b].payload.properties, a, b);
          PropsOfIffSameContents(nodes, ps, nodes[b].payload.properties, a, b);
        }
      case _ =>
    }
  }

  /**
   * Nothing equals `null`, and a `JNull` equals exactly the other `JNull`s,
   * whatever their parents.
   */
  lemma NullEquality(nodes: seq<Node>, a: NodeId, b: NodeId)
    requires WellFormed(nodes) && a < |nodes| && b < |nodes|
    ensures !Equals(nodes, a, None)
    ensures nodes[a].payload.NullNode? ==> (Equals(nodes, a, Some(b)) <==> nodes[b].payload.NullNode?)
    ensures nodes[a].payload.NullNode? && Equals(nodes, a, Some(b)) ==> ContentOf(nodes, b) == JNull
  {
  }

  lemma {:induction false} ListEqualsIffSameContents(nodes: seq<Node>, xs: seq<NodeId>, ys: seq<NodeId>, bound: nat, bound': nat)
    requires WellFormed(nodes) && bound <= |nodes| && bound' <= |nodes|
    requires forall k :: 0 <= k < |xs| ==> xs[k] < bound
    requires forall k :: 0 <= k < |ys| ==> ys[k] < bound'
    ensures ListEquals(nodes, xs, ys, bound) <==> ContentsOf(nodes, xs, bound) == ContentsOf(nodes, ys, bound')
    decreases bound, 0, |xs|
  {
    if |xs| > 0 && |ys| > 0 {
      EqualsIffSameContent(nodes, xs[0], ys[0]);
      ListEqualsIffSameContents(nodes, xs[1..], ys[1..], bound, bound');
      var cx := ContentsOf(nodes, xs, bound);
      var cy := ContentsOf(nodes, ys, bound');
      assert cx == [cx[0]] + cx[1..] && cy == [cy[0]] + cy[1..];
    }
  }

  /** Two lists of property nodes have the same properties exactly when they have the same contents. */
  lemma {:induction false} PropsOfIffSameContents(nodes: seq<Node>, xs: seq<NodeId>, ys: seq<NodeId>, bound: nat, bound': nat)
    requires WellFormed(nodes) && bound <= |nodes| && bound' <= |nodes|
    requires forall k :: 0 <= k < |xs| ==> xs[k] < bound && nodes[xs[k]].payload.PropertyNode?
    requires forall k :: 0 <= k < |ys| ==> ys[k] < bound' && nodes[ys[k]].payload.PropertyNode?
    ensures PropsOf(nodes, xs, bound) == PropsOf(nodes, ys, bound') <==> ContentsOf(nodes, xs, bound) == ContentsOf(nodes, ys, bound')
    decreases |xs|
  {
    if |xs| > 0 && |ys| > 0 {
      PropsOfIffSameContents(nodes, xs[1..], ys[1..], bound, bound');
      var px, py := PropsOf(nodes, xs, bound), PropsOf(nodes, ys, bound');
      var cx, cy := ContentsOf(nodes, xs, bound), ContentsOf(nodes, ys, bound');
      assert px == [px[0]] + px[1..] && py == [py[0]] + py[1..];
      assert cx == [cx[0]] + cx[1..] && cy == [cy[0]] + cy[1..];
    }
  }

  /* ───────────────────────────── accept ───────────────────────────── */

  /**
   * The order in which `accept` calls the visitor's `visit` overloads, each
   * call named by the node it receives. `descend(id)` is what the visitor's
   * `visit(JObject)` or `visit(JArray)` answers for composite `id`. A leaf
   * is visited alone; a `JProperty` is visited, then its value accepts; a
   * composite is visited and, when the visitor answers true, each child
   * accepts in order.
   */
  function Trace(nodes: seq<Node>, id: NodeId, descend: NodeId -> bool): (t: seq<NodeId>)
    requires WellFormed(nodes) && id < |nodes|
    ensures |t| >= 1 && t[0] == id
    ensures forall k :: 1 <= k < |t| ==> t[k] < id
    decreases id, 1
  {
    match nodes[id].payload
    case ObjectNode(ps) => [id] + (if descend(id) then TraceAll(nodes, ps, descend, id) else [])
    case ArrayNode(es) => [id] + (if descend(id) then TraceAll(nodes, es, descend, id) else [])
    case PropertyNode(_, v) => [id] + Trace(nodes, v, descend)
    case _ => [id]
  }

  /** The children's traces, one after the other, in index order. */
  function TraceAll(nodes: seq<Node>, ids: seq<NodeId>, descend: NodeId -> bool, bound: nat): (t: seq<NodeId>)
    requires WellFormed(nodes) && bound <= |nodes|
    requires forall k :: 0 <= k < |ids| ==> ids[k] < bound
    ensures forall k :: 0 <= k < |t| ==> t[k] < bound
    decreases bound, 0, |ids|
  {
    if |ids| == 0 then []
    else TraceAll(nodes, ids[..|ids| - 1], descend, bound) + Trace(nodes, ids[|ids| - 1], descend)
  }

  /** Accepting one more child appends that child's trace. */
  lemma TraceAllSnoc(nodes: seq<Node>, ids: seq<NodeId>, i: nat, descend: NodeId -> bool, bound: nat)
    requires WellFormed(nodes) && bound <= |nodes|
    requires forall j :: 0 <= j < |ids| ==> ids[j] < bound
    requires i < |ids|
    ensures TraceAll(nodes, ids[..i + 1], descend, bound) ==
      TraceAll(nodes, ids[..i], descend, bound) + Trace(nodes, ids[i], descend)
  {
    assert ids[..i + 1][..i] == ids[..i];
  }

  /** Every child of a composite is visited: its own trace is a block of the composite's. */
  lemma {:induction false} TraceAllVisitsEach(nodes: seq<Node>, ids: seq<NodeId>, descend: NodeId -> bool, bound: nat, k: nat)
    requires WellFormed(nodes) && bound <= |nodes|
    requires forall j :: 0 <= j < |ids| ==> ids[j] < bound
    requires k < |ids|
    ensures ids[k] in TraceAll(nodes, ids, descend, bound)
    decreases |ids|
  {
    var last := |ids| - 1;
    if k == last {
      assert TraceAll(nodes, ids, descend, bound)[|TraceAll(nodes, ids[..last], descend, bound)|] == ids[k];
    } else {
      TraceAllVisitsEach(nodes, ids[..last], descend, bound, k);
    }
  }

  /** `accept` on a leaf calls `visit` once, on that leaf and nothing else. */
  lemma LeafTrace(nodes: seq<Node>, id: NodeId, descend: NodeId -> bool)
    requires WellFormed(nodes) && id < |nodes|
    requires !nodes[id].payload.ObjectNode? && !nodes[id].payload.ArrayNode? && !nodes[id].payload.PropertyNode?
    ensures Trace(nodes, id, descend) == [id]
  {
  }

  /**
   * A composite whose visit answers false is visited alone; one whose visit
   * answers true is followed by each child's trace, in index order, so every
   * child is visited after it.
   */
  lemma CompositeTrace(nodes: seq<Node>, id: NodeId, descend: NodeId -> bool)
    requires WellFormed(nodes) && id < |nodes|
    requires nodes[id].payload.ObjectNode? || nodes[id].payload.ArrayNode?
    ensures !descend(id) ==> Trace(nodes, id, descend) == [id]
    ensures descend(id) && nodes[id].payload.ArrayNode? ==>
      forall k :: 0 <= k < |nodes[id].payload.elements| ==> nodes[id].payload.elements[k] in Trace(nodes, id, descend)[1..]
    ensures descend(id) && nodes[id].payload.ObjectNode? ==>
      forall k :: 0 <= k < |nodes[id].payload.properties| ==> nodes[id].payload.properties[k] in Trace(nodes, id, descend)[1..]
    ensures descend(id) && nodes[id].payload.ArrayNode? ==>
      Trace(nodes, id, descend) == [id] + TraceAll(nodes, nodes[id].payload.elements, descend, id)
    ensures descend(id) && nodes[id].payload.ObjectNode? ==>
      Trace(nodes, id, descend) == [id] + TraceAll(nodes, nodes[id].payload.properties, descend, id)
  {
    if descend(id) {
      var ids := if nodes[id].payload.ArrayNode? then nodes[id].payload.elements else nodes[id].payload.properties;
      assert Trace(nodes, id, descend)[1..] == TraceAll(nodes, ids, descend, id);
      forall k | 0 <= k < |ids|
        ensures ids[k] in Trace(nodes, id, descend)[1..]
      {
        TraceAllVisitsEach(nodes, ids, descend, id, k);
      }
    }
  }

  /** A property is visited first, then its value, which is visited before anything beneath it. */
  lemma PropertyTrace(nodes: seq<Node>, id: NodeId, descend: NodeId -> bool)
    requires WellFormed(nodes) && id < |nodes| && nodes[id].payload.PropertyNode?
    ensures |Trace(nodes, id, descend)| >= 2
    ensures Trace(nodes, id, descend)[1] == nodes[id].payload.value
    ensures Trace(nodes, id, descend) == [id] + Trace(nodes, nodes[id].payload.value, descend)
  {
  }

  /** The node that `accept` is called on is visited exactly once. */
  lemma {:induction false} TraceVisitsRootOnce(nodes: seq<Node>, id: NodeId, descend: NodeId -> bool)
    requires WellFormed(nodes) && id < |nodes|
    ensures multiset(Trace(nodes, id, descend))[id] == 1
  {
    var t := Trace(nodes, id, descend);
    assert t == [id] + t[1..];
    assert id !in t[1..] by {
      forall k | 0 <= k < |t[1..]|
        ensures t[1..][k] != id
      {
        assert t[1..][k] == t[k + 1];
      }
    }
    assert multiset(t) == multiset{id} + multiset(t[1..]);
  }

  /* ────────────────────────────── JArray ────────────────────────────── */

  /** `size`: the number of elements. */
  function Size(nodes: seq<Node>, a: NodeId): nat
    requires a < |nodes| && nodes[a].payload.ArrayNode?
  {
    |nodes[a].payload.elements|
  }

  /** `get(index)`: the element at `index`. */
  function Get(nodes: seq<Node>, a: NodeId, index: nat): NodeId
    requires a < |nodes| && nodes[a].payload.ArrayNode? && index < Size(nodes, a)
  {
    nodes[a].payload.elements[index]
  }

  /** `getElements()`: a copy of the element list. */
  function GetElements(nodes: seq<Node>, a: NodeId): seq<NodeId>
    requires a < |nodes| && nodes[a].payload.ArrayNode?
  {
    nodes[a].payload.elements
  }

  /**
   * The accessors agree with the array's value: `size` is its length,
   * `get(i)` holds its `i`-th element, and `getElements()` lists exactly
   * what `get` answers, in order.
   */
  lemma ArrayAccessors(nodes: seq<Node>, a: NodeId)
    requires WellFormed(nodes) && a < |nodes| && nodes[a].payload.ArrayNode?
    ensures ContentOf(nodes, a).JArray?
    ensures |ContentOf(nodes, a).elements| == Size(nodes, a) == |GetElements(nodes, a)|
    ensures forall i :: 0 <= i < Size(nodes, a) ==>
      GetElements(nodes, a)[i] == Get(nodes, a, i) < a &&
      ContentOf(nodes, a).elements[i] == ContentOf(nodes, Get(nodes, a, i))
  {
    forall i | 0 <= i < Size(nodes, a)
      ensures ContentOf(nodes, a).elements[i] == ContentOf(nodes, Get(nodes, a, i))
    {
      ContentsOfAt(nodes, nodes[a].payload.elements, a, i);
    }
  }

  /* ─────────────────────────── construction ─────────────────────────── */

  /** Every parent link is the work of `JProperty`'s `init`: it names a property holding the node as its value. */
  predicate ParentsAreOwners(nodes: seq<Node>)
  {
    forall i :: 0 <= i < |nodes| && nodes[i].parent.Some? ==>
      IsProperty(nodes, nodes[i].parent.value) && nodes[nodes[i].parent.value].payload.value == i
  }

  /** `JProperty(key, value)`: a new root property, and `value.parent = this`. */
  function WithProperty(nodes: seq<Node>, key: string, value: NodeId): seq<Node>
    requires value < |nodes|
  {
    nodes[value := nodes[value].(parent := Some(|nodes|))] + [Node(PropertyNode(key, value), None)]
  }

  /** Building a property keeps the arena well formed and every parent link the property's own. */
  lemma WithPropertyValid(nodes: seq<Node>, key: string, value: NodeId)
    requires WellFormed(nodes) && ParentsAreOwners(nodes) && value < |nodes|
    ensures WellFormed(WithProperty(nodes, key, value))
    ensures ParentsAreOwners(WithProperty(nodes, key, value))
  {
    var after := WithProperty(nodes, key, value);
    forall i | 0 <= i < |after|
      ensures after[i].payload == (if i < |nodes| then nodes[i].payload else PropertyNode(key, value))
    {
    }
  }

  /** Only parent links change, so every old subtree keeps its value. */
  lemma {:induction false} SamePayloadsSameContent(nodes: seq<Node>, nodes': seq<Node>, i: NodeId)
    requires WellFormed(nodes) && WellFormed(nodes') && i < |nodes| <= |nodes'|
    requires forall j :: 0 <= j < |nodes| ==> nodes'[j].payload == nodes[j].payload
    ensures ContentOf(nodes', i) == ContentOf(nodes, i)
    decreases i, 1
  {
    match nodes[i].payload {
      case ObjectNode(ps) => SamePayloadsSameProps(nodes, nodes', ps, i);
      case ArrayNode(es) => SamePayloadsSameContents(nodes, nodes', es, i);
      case PropertyNode(_, v) => SamePayloadsSameContent(nodes, nodes', v);
      case _ =>
    }
  }

  lemma {:induction false} SamePayloadsSameContents(nodes: seq<Node>, nodes': seq<Node>, ids: seq<NodeId>, bound: nat)
    requires WellFormed(nodes) && WellFormed(nodes') && bound <= |nodes| <= |nodes'|
    requires forall j :: 0 <= j < |nodes| ==> nodes'[j].payload == nodes[j].payload
    requires forall k :: 0 <= k < |ids| ==> ids[k] < bound
    ensures ContentsOf(nodes', ids, bound) == ContentsOf(nodes, ids, bound)
    decreases bound, 0, |ids|
  {
    if |ids| > 0 {
      SamePayloadsSameContent(nodes, nodes', ids[0]);
      SamePayloadsSameContents(nodes, nodes', ids[1..], bound);
    }
  }

  lemma {:induction false} SamePayloadsSameProps(nodes: seq<Node>, nodes': seq<Node>, ids: seq<NodeId>, bound: nat)
    requires WellFormed(nodes) && WellFormed(nodes') && bound <= |nodes| <= |nodes'|
    requires forall j :: 0 <= j < |nodes| ==> nodes'[j].payload == nodes[j].payload
    requires forall k :: 0 <= k < |ids| ==> ids[k] < bound && nodes[ids[k]].payload.PropertyNode?
    ensures PropsOf(nodes', ids, bound) == PropsOf(nodes, ids, bound)
    decreases bound, 0, |ids|
  {
    if |ids| > 0 {
      SamePayloadsSameContent(nodes, nodes', ids[0]);
      SamePayloadsSameProps(nodes, nodes', ids[1..], bound);
    }
  }

  /**
   * After `JProperty(key, value)`: old subtrees keep their values, the new
   * property holds `key` and the value's subtree, and the value's depth is
   * the property's (a property does not add a level).
   */
  lemma WithPropertyEffect(nodes: seq<Node>, key: string, value: NodeId)
    requires WellFormed(nodes) && ParentsAreOwners(nodes) && value < |nodes|
    ensures WellFormed(WithProperty(nodes, key, value))
    ensures forall i :: 0 <= i < |nodes| ==> ContentOf(WithProperty(nodes, key, value), i) == ContentOf(nodes, i)
    ensures ContentOf(WithProperty(nodes, key, value), |nodes|) == JProperty(Prop(key, ContentOf(nodes, value)))
    ensures Depth(WithProperty(nodes, key, value), value) == Depth(WithProperty(nodes, key, value), |nodes|) == 0
  {
    var after := WithProperty(nodes, key, value);
    WithPropertyValid(nodes, key, value);
    forall i | 0 <= i < |nodes|
      ensures ContentOf(after, i) == ContentOf(nodes, i)
    {
      SamePayloadsSameContent(nodes, after, i);
    }
  }

  /**
   * Only `JProperty` sets `parent`, and a property does not add a level, so
   * every node built by the constructors has depth 0.
   */
  lemma {:induction false} OwnedDepthIsZero(nodes: seq<Node>, i: NodeId)
    requires WellFormed(nodes) && ParentsAreOwners(nodes) && i < |nodes|
    ensures Depth(nodes, i) == 0
    decreases |nodes| - i
  {
    if nodes[i].parent.Some? {
      OwnedDepthIsZero(nodes, nodes[i].parent.value);
    }
  }

  /**
   * The element tree under construction. Each `New…` method is one of the
   * source's constructors: it appends the new node, which starts without a
   * parent; `NewProperty` also runs `JProperty`'s `init`.
   */
  class Arena {
    var nodes: seq<Node>

    ghost predicate Valid()
      reads this
    {
      WellFormed(nodes) && ParentsAreOwners(nodes)
    }

    constructor ()
      ensures Valid() && nodes == []
    {
      nodes := [];
    }

    method Append(p: Payload) returns (id: NodeId)
      requires Valid() && !p.PropertyNode?
      requires p.ObjectNode? ==> forall k :: 0 <= k < |p.properties| ==> IsProperty(nodes, p.properties[k])
      requires p.ArrayNode? ==> forall k :: 0 <= k < |p.elements| ==> p.elements[k] < |nodes|
      modifies this
      ensures Valid() && id == |old(nodes)|
      ensures nodes == old(nodes) + [Node(p, None)]
    {
      id := |nodes|;
      nodes := nodes + [Node(p, None)];
      assert forall j :: 0 <= j < id ==> nodes[j] == old(nodes)[j];
    }

    /** `JString(string)`. */
    method NewString(text: string) returns (id: NodeId)
      requires Valid()
      modifies this
      ensures Valid() && id == |old(nodes)| && nodes == old(nodes) + [Node(StringNode(text), None)]
      ensures ContentOf(nodes, id) == JString(text)
    {
      id := Append(StringNode(text));
    }

    /** `JNumber(number)`. */
    method NewNumber(number: int) returns (id: NodeId)
      requires Valid()
      modifies this
      ensures Valid() && id == |old(nodes)| && nodes == old(nodes) + [Node(NumberNode(number), None)]
      ensures ContentOf(nodes, id) == JNumber(number)
    {
      id := Append(NumberNode(number));
    }

    /** `JBoolean(boolean)`. */
    method NewBoolean(flag: bool) returns (id: NodeId)
      requires Valid()
      modifies this
      ensures Valid() && id == |old(nodes)| && nodes == old(nodes) + [Node(BooleanNode(flag), None)]
      ensures ContentOf(nodes, id) == JBoolean(flag)
    {
      id := Append(BooleanNode(flag));
    }

    /** `JNull()`. */
    method NewNull() returns (id: NodeId)
      requires Valid()
      modifies this
      ensures Valid() && id == |old(nodes)| && nodes == old(nodes) + [Node(NullNode, None)]
      ensures ContentOf(nodes, id) == JNull
    {
      id := Append(NullNode);
    }

    /** `JArray(elements)`: the elements are shared, and their `parent` is left as it was. */
    method NewArray(elements: seq<NodeId>) returns (id: NodeId)
      requires Valid() && forall k :: 0 <= k < |elements| ==> elements[k] < |nodes|
      modifies this
      ensures Valid() && id == |old(nodes)| && nodes == old(nodes) + [Node(ArrayNode(elements), None)]
      ensures Size(nodes, id) == |elements| && GetElements(nodes, id) == elements
      ensures forall i :: 0 <= i < |elements| ==> Get(nodes, id, i) == elements[i]
      ensures forall i :: 0 <= i < |old(nodes)| ==> ContentOf(nodes, i) == ContentOf(old(nodes), i)
      ensures ContentOf(nodes, id) == JArray(ContentsOf(old(nodes), elements, id))
    {
      id := Append(ArrayNode(elements));
      forall i | 0 <= i < |old(nodes)|
        ensures ContentOf(nodes, i) == ContentOf(old(nodes), i)
      {
        SamePayloadsSameContent(old(nodes), nodes, i);
      }
      SamePayloadsSameContents(old(nodes), nodes, elements, id);
    }

    /** `JObject(properties)`: the properties are shared, and their `parent` is left as it was. */
    method NewObject(properties: seq<NodeId>) returns (id: NodeId)
      requires Valid() && forall k :: 0 <= k < |properties| ==> IsProperty(nodes, properties[k])
      modifies this
      ensures Valid() && id == |old(nodes)| && nodes == old(nodes) + [Node(ObjectNode(properties), None)]
      ensures forall i :: 0 <= i < |old(nodes)| ==> ContentOf(nodes, i) == ContentOf(old(nodes), i)
      ensures forall k :: 0 <= k < |properties| ==> properties[k] < id && old(nodes)[properties[k]].payload.PropertyNode?
      ensures ContentOf(nodes, id) == JObject(PropsOf(old(nodes), properties, id))
    {
      forall k | 0 <= k < |properties|
        ensures properties[k] < |nodes| && nodes[properties[k]].payload.PropertyNode?
      {
        assert IsProperty(nodes, properties[k]);
      }
      id := Append(ObjectNode(properties));
      forall i | 0 <= i < |old(nodes)|
        ensures ContentOf(nodes, i) == ContentOf(old(nodes), i)
      {
        SamePayloadsSameContent(old(nodes), nodes, i);
      }
      SamePayloadsSameProps(old(nodes), nodes, properties, id);
    }

    /** `JProperty(key, value)`: a new property, whose `init` points `value.parent` at it. */
    method NewProperty(key: string, value: NodeId) returns (id: NodeId)
      requires Valid() && value < |nodes|
      modifies this
      ensures Valid() && id == |old(nodes)| && nodes == WithProperty(old(nodes), key, value)
      ensures forall i :: 0 <= i < |old(nodes)| ==> ContentOf(nodes, i) == ContentOf(old(nodes), i)
      ensures ContentOf(nodes, id) == JProperty(Prop(key, ContentOf(old(nodes), value)))
      ensures Depth(nodes, value) == Depth(nodes, id) == 0
    {
      WithPropertyEffect(nodes, key, value);
      WithPropertyValid(nodes, key, value);
      id := |nodes|;
      nodes := nodes[value := nodes[value].(parent := Some(id))] + [Node(PropertyNode(key, value), None)];
    }
  }
}
