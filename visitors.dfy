/**
 * The visitor side of the element tree: the default `JVisitor` answers and
 * the two concrete visitors, `ArrayTypeValidator` (every array holds
 * elements of one non-null kind) and `KeyValidatorVisitor` (keys are
 * non-blank and unique within each object). Each visitor class carries the
 * `accept` traversal for itself, proved to visit nodes in `Trace` order.
 */
module Visitors {
  import opened Strings
  import JsonValues
  import opened Elements
  import opened KeyRules
  import opened Sequences

  /** The default `visit(JObject)` and `visit(JArray)` answer: descend into the children. */
  function AlwaysDescend(id: NodeId): bool
  {
    true
  }

  /** With the default answers, `accept` reaches every child of every composite it visits. */
  lemma DefaultVisitsChildren(nodes: seq<Node>, id: NodeId)
    requires WellFormed(nodes) && id < |nodes|
    requires nodes[id].payload.ObjectNode? || nodes[id].payload.ArrayNode?
    ensures nodes[id].payload.ArrayNode? ==>
      forall k :: 0 <= k < |nodes[id].payload.elements| ==> nodes[id].payload.elements[k] in Trace(nodes, id, AlwaysDescend)
    ensures nodes[id].payload.ObjectNode? ==>
      forall k :: 0 <= k < |nodes[id].payload.properties| ==> nodes[id].payload.properties[k] in Trace(nodes, id, AlwaysDescend)
  {
    var t := Trace(nodes, id, AlwaysDescend);
    CompositeTrace(nodes, id, AlwaysDescend);
    assert forall x :: x in t[1..] ==> x in t;
  }

  /* ─────────────────────── ArrayTypeValidator ─────────────────────── */

  /** `getElements().filterNot { it is JNull }.map { it::class }.toSet()`. */
  function KindSet(nodes: seq<Node>, es: seq<NodeId>): set<JsonValues.Kind>
    requires forall k :: 0 <= k < |es| ==> es[k] < |nodes|
  {
    set k | 0 <= k < |es| && !nodes[es[k]].payload.NullNode? :: PayloadKind(nodes[es[k]].payload)
  }

  /** All non-null elements have the same kind. */
  predicate SameKind(nodes: seq<Node>, es: seq<NodeId>)
    requires forall k :: 0 <= k < |es| ==> es[k] < |nodes|
  {
    forall i, j ::
      (0 <= i < |es| && 0 <= j < |es| && !nodes[es[i]].payload.NullNode? && !nodes[es[j]].payload.NullNode?) ==>
        PayloadKind(nodes[es[i]].payload) == PayloadKind(nodes[es[j]].payload)
  }

  /** `kinds.size <= 1` means exactly that the non-null elements share one kind. */
  lemma KindSetSmallIffSameKind(nodes: seq<Node>, es: seq<NodeId>)
    requires forall k :: 0 <= k < |es| ==> es[k] < |nodes|
    ensures |KindSet(nodes, es)| <= 1 <==> SameKind(nodes, es)
  {
    var kinds := KindSet(nodes, es);
    if SameKind(nodes, es) && kinds != {} {
      var x :| x in kinds;
      assert kinds == {x};
    }
    if !SameKind(nodes, es) {
      var i, j :| 0 <= i < |es| && 0 <= j < |es| &&
        !nodes[es[i]].payload.NullNode? && !nodes[es[j]].payload.NullNode? &&
        PayloadKind(nodes[es[i]].payload) != PayloadKind(nodes[es[j]].payload);
      var a, b := PayloadKind(nodes[es[i]].payload), PayloadKind(nodes[es[j]].payload);
      assert a in kinds && b in kinds;
      assert kinds == (kinds - {a}) + {a};
      assert b in kinds - {a};
      assert |kinds| == |kinds - {a}| + 1;
    }
  }

  /** What a visit to node `id` leaves of `valid`: arrays must be of one kind; nothing else matters. */
  predicate KindsAgree(nodes: seq<Node>, id: NodeId)
    requires WellFormed(nodes) && id < |nodes|
  {
    nodes[id].payload.ArrayNode? ==> |KindSet(nodes, nodes[id].payload.elements)| <= 1
  }

  /** Every array among `ids` agrees on kinds. */
  predicate KindsAgreeAlong(nodes: seq<Node>, ids: seq<NodeId>)
    requires WellFormed(nodes) && forall k :: 0 <= k < |ids| ==> ids[k] < |nodes|
  {
    forall k :: 0 <= k < |ids| ==> KindsAgree(nodes, ids[k])
  }

  lemma KindsAgreeAlongAppend(nodes: seq<Node>, a: seq<NodeId>, b: seq<NodeId>)
    requires WellFormed(nodes)
    requires forall k :: 0 <= k < |a| ==> a[k] < |nodes|
    requires forall k :: 0 <= k < |b| ==> b[k] < |nodes|
    ensures KindsAgreeAlong(nodes, a + b) <==> KindsAgreeAlong(nodes, a) && KindsAgreeAlong(nodes, b)
  {
    assert forall k :: 0 <= k < |a| ==> (a + b)[k] == a[k];
    assert forall k :: 0 <= k < |b| ==> (a + b)[|a| + k] == b[k];
  }

  /** `valid` after a traversal means every array the traversal visited is homogeneous. */
  lemma ValidMeansHomogeneous(nodes: seq<Node>, id: NodeId)
    requires WellFormed(nodes) && id < |nodes|
    ensures KindsAgreeAlong(nodes, Trace(nodes, id, AlwaysDescend)) <==>
      forall k :: 0 <= k < |Trace(nodes, id, AlwaysDescend)| && nodes[Trace(nodes, id, AlwaysDescend)[k]].payload.ArrayNode? ==>
        SameKind(nodes, nodes[Trace(nodes, id, AlwaysDescend)[k]].payload.elements)
  {
    var t := Trace(nodes, id, AlwaysDescend);
    forall k | 0 <= k < |t| && nodes[t[k]].payload.ArrayNode?
      ensures KindsAgree(nodes, t[k]) <==> SameKind(nodes, nodes[t[k]].payload.elements)
    {
      KindSetSmallIffSameKind(nodes, nodes[t[k]].payload.elements);
    }
  }

  /** Visitor flagging any array that mixes non-null kinds; once false, `valid` stays false. */
  class ArrayTypeValidator {
    var valid: bool

    constructor ()
      ensures valid
    {
      valid := true;
    }

    /** `visit(array)`: while still valid, recheck with this array's kinds; always descend. */
    method VisitArray(f: Arena, arr: NodeId) returns (descend: bool)
      requires WellFormed(f.nodes) && arr < |f.nodes| && f.nodes[arr].payload.ArrayNode?
      modifies this
      ensures descend
      ensures valid == (old(valid) && KindsAgree(f.nodes, arr))
    {
      if valid {
        var kinds := KindSet(f.nodes, f.nodes[arr].payload.elements);
        valid := |kinds| <= 1;
      }
      descend := true;
    }

    /** `visit(obj)`: objects do not affect the check. */
    method VisitObject(f: Arena, obj: NodeId) returns (descend: bool)
      ensures descend
    {
      descend := true;
    }

    /** `node.accept(this)`. */
    method Accept(f: Arena, id: NodeId)
      requires WellFormed(f.nodes) && id < |f.nodes|
      modifies this
      ensures valid == (old(valid) && KindsAgreeAlong(f.nodes, Trace(f.nodes, id, AlwaysDescend)))
      decreases id
    {
      var nodes := f.nodes;
      match nodes[id].payload {
        case ArrayNode(es) =>
          var descend := VisitArray(f, id);
          if descend {
            AcceptChildren(f, es, id);
          }
        case ObjectNode(ps) =>
          var descend := VisitObject(f, id);
          if descend {
            AcceptChildren(f, ps, id);
          }
        case PropertyNode(_, v) =>
          Accept(f, v);
        case _ =>
      }
      var t := Trace(nodes, id, AlwaysDescend);
      assert t == [id] + t[1..];
    }

    /** The children of composite `owner`, in order (`forEach { it.accept(this) }`). */
    method AcceptChildren(f: Arena, ids: seq<NodeId>, owner: NodeId)
      requires WellFormed(f.nodes) && owner < |f.nodes|
      requires forall k :: 0 <= k < |ids| ==> ids[k] < owner
      modifies this
      ensures valid == (old(valid) && KindsAgreeAlong(f.nodes, TraceAll(f.nodes, ids, AlwaysDescend, owner)))
      decreases owner, 0
    {
      var i := 0;
      while i < |ids|
        invariant 0 <= i <= |ids|
        invariant valid == (old(valid) && KindsAgreeAlong(f.nodes, TraceAll(f.nodes, ids[..i], AlwaysDescend, owner)))
      {
        ghost var before := TraceAll(f.nodes, ids[..i], AlwaysDescend, owner);
        Accept(f, ids[i]);
        assert ids[..i + 1][..i] == ids[..i];
        KindsAgreeAlongAppend(f.nodes, before, Trace(f.nodes, ids[i], AlwaysDescend));
        i := i + 1;
      }
      assert ids[..|ids|] == ids;
    }
  }

  /* ─────────────────────── KeyValidatorVisitor ─────────────────────── */

  /** The keys of an object's properties, in order. */
  function ObjectKeys(nodes: seq<Node>, obj: NodeId): seq<string>
    requires WellFormed(nodes) && obj < |nodes| && nodes[obj].payload.ObjectNode?
  {
    var ps := nodes[obj].payload.properties;
    seq(|ps|, k requires 0 <= k < |ps| => nodes[ps[k]].payload.key)
  }

  /** One reported problem: what was found, in an object at which depth. */
  datatype KeyError = KeyError(finding: KeyFinding, depth: int)

  /** The text `result()` gives for an error. */
  function Message(e: KeyError): string
  {
    match e.finding
    case Blank => "Blank key in object at depth " + IntToString(e.depth)
    case Duplicate(key) => "Duplicate key '" + key + "' in object at depth " + IntToString(e.depth)
  }

  /** The texts of the errors, in order. */
  function Render(errors: seq<KeyError>): (r: seq<string>)
    ensures |r| == |errors|
  {
    seq(|errors|, k requires 0 <= k < |errors| => Message(errors[k]))
  }

  /** A blank-key message can be read back for the depth it reports. */
  lemma BlankMessageNamesDepth(depth: int)
    ensures Message(KeyError(Blank, depth))[..29] == "Blank key in object at depth "
    ensures ParseInt(Message(KeyError(Blank, depth))[29..]) == depth
  {
    IntToStringRoundTrip(depth);
    assert Message(KeyError(Blank, depth))[29..] == IntToString(depth);
  }

  /** The findings of one object, each tagged with the object's depth. */
  function Tagged(findings: seq<KeyFinding>, depth: int): (r: seq<KeyError>)
    ensures |r| == |findings|
  {
    seq(|findings|, k requires 0 <= k < |findings| => KeyError(findings[k], depth))
  }

  lemma TaggedAppend(a: seq<KeyFinding>, b: seq<KeyFinding>, depth: int)
    ensures Tagged(a + b, depth) == Tagged(a, depth) + Tagged(b, depth)
  {
  }

  /** The errors for one more key: a blank-key error, then a duplicate-key error, each when due. */
  lemma TaggedStep(earlier: seq<string>, key: string, depth: int)
    ensures Tagged(KeyFindings(earlier + [key]), depth) ==
      Tagged(KeyFindings(earlier), depth)
        + (if IsBlank(key) then [KeyError(Blank, depth)] else [])
        + (if key in earlier then [KeyError(Duplicate(key), depth)] else [])
  {
    var blank: seq<KeyFinding> := if IsBlank(key) then [Blank] else [];
    var repeated: seq<KeyFinding> := if key in earlier then [Duplicate(key)] else [];
    KeyFindingsSnoc(earlier, key);
    TaggedAppend(KeyFindings(earlier), blank, depth);
    TaggedAppend(KeyFindings(earlier) + blank, repeated, depth);
    assert Tagged(blank, depth) == (if IsBlank(key) then [KeyError(Blank, depth)] else []);
    assert Tagged(repeated, depth) == (if key in earlier then [KeyError(Duplicate(key), depth)] else []);
  }

  /** What `visit(obj)` knows after checking key `i`: its `seen` set and its errors so far grow by that key. */
  lemma KeyCheckStep(keys: seq<string>, i: nat, seen: set<string>, depth: int)
    requires i < |keys| && seen == KeySet(keys[..i])
    ensures keys[i] in seen <==> keys[i] in keys[..i]
    ensures keys[i] !in seen ==> seen + {keys[i]} == KeySet(keys[..i + 1])
    ensures keys[i] in seen ==> seen == KeySet(keys[..i + 1])
    ensures Tagged(KeyFindings(keys[..i + 1]), depth) ==
      Tagged(KeyFindings(keys[..i]), depth)
        + (if IsBlank(keys[i]) then [KeyError(Blank, depth)] else [])
        + (if keys[i] in seen then [KeyError(Duplicate(keys[i]), depth)] else [])
  {
    assert keys[..i + 1] == keys[..i] + [keys[i]];
    TaggedStep(keys[..i], keys[i], depth);
  }

  /** The errors one visit to node `id` adds: the key findings of an object, nothing otherwise. */
  function NodeErrors(nodes: seq<Node>, id: NodeId): seq<KeyError>
    requires WellFormed(nodes) && id < |nodes|
  {
    if nodes[id].payload.ObjectNode? then Tagged(KeyFindings(ObjectKeys(nodes, id)), Depth(nodes, id))
    else []
  }

  /** The chunks one after the other. */
  function Concat(chunks: seq<seq<KeyError>>): seq<KeyError>
    decreases |chunks|
  {
    if |chunks| == 0 then [] else Concat(chunks[..|chunks| - 1]) + chunks[|chunks| - 1]
  }

  lemma {:induction false} ConcatAppend(a: seq<seq<KeyError>>, b: seq<seq<KeyError>>)
    ensures Concat(a + b) == Concat(a) + Concat(b)
    decreases |b|
  {
    if |b| > 0 {
      ConcatAppend(a, b[..|b| - 1]);
      assert (a + b)[..|a + b| - 1] == a + b[..|b| - 1];
      assert (a + b)[|a + b| - 1] == b[|b| - 1];
    } else {
      assert a + b == a;
    }
  }

  /** The errors each visit in `ids` adds, visit by visit. */
  function PerVisit(nodes: seq<Node>, ids: seq<NodeId>): (r: seq<seq<KeyError>>)
    requires WellFormed(nodes) && forall k :: 0 <= k < |ids| ==> ids[k] < |nodes|
    ensures |r| == |ids|
    ensures forall k :: 0 <= k < |ids| ==> r[k] == NodeErrors(nodes, ids[k])
  {
    seq(|ids|, k requires 0 <= k < |ids| => NodeErrors(nodes, ids[k]))
  }

  /** The errors a sequence of visits adds, in visit order. */
  function ErrorsAlong(nodes: seq<Node>, ids: seq<NodeId>): seq<KeyError>
    requires WellFormed(nodes) && forall k :: 0 <= k < |ids| ==> ids[k] < |nodes|
  {
    Concat(PerVisit(nodes, ids))
  }

  lemma ErrorsAlongAppend(nodes: seq<Node>, a: seq<NodeId>, b: seq<NodeId>)
    requires WellFormed(nodes)
    requires forall k :: 0 <= k < |a| ==> a[k] < |nodes|
    requires forall k :: 0 <= k < |b| ==> b[k] < |nodes|
    ensures ErrorsAlong(nodes, a + b) == ErrorsAlong(nodes, a) + ErrorsAlong(nodes, b)
  {
    assert PerVisit(nodes, a + b) == PerVisit(nodes, a) + PerVisit(nodes, b);
    ConcatAppend(PerVisit(nodes, a), PerVisit(nodes, b));
  }

  /** Accepting one more child appends the errors along that child's trace. */
  lemma ErrorsAlongSnoc(nodes: seq<Node>, ids: seq<NodeId>, i: nat, bound: nat)
    requires WellFormed(nodes) && bound <= |nodes|
    requires forall j :: 0 <= j < |ids| ==> ids[j] < bound
    requires i < |ids|
    ensures ErrorsAlong(nodes, TraceAll(nodes, ids[..i + 1], AlwaysDescend, bound)) ==
      ErrorsAlong(nodes, TraceAll(nodes, ids[..i], AlwaysDescend, bound)) + ErrorsAlong(nodes, Trace(nodes, ids[i], AlwaysDescend))
  {
    TraceAllSnoc(nodes, ids, i, AlwaysDescend, bound);
    ErrorsAlongAppend(nodes, TraceAll(nodes, ids[..i], AlwaysDescend, bound), Trace(nodes, ids[i], AlwaysDescend));
  }

  /** Along an object's trace: the object's own errors, then those along its properties' traces. */
  lemma ErrorsAlongObject(nodes: seq<Node>, id: NodeId)
    requires WellFormed(nodes) && id < |nodes| && nodes[id].payload.ObjectNode?
    ensures ErrorsAlong(nodes, Trace(nodes, id, AlwaysDescend)) ==
      NodeErrors(nodes, id) + ErrorsAlong(nodes, TraceAll(nodes, nodes[id].payload.properties, AlwaysDescend, id))
  {
    ErrorsAlongHead(nodes, id);
    assert Trace(nodes, id, AlwaysDescend)[1..] == TraceAll(nodes, nodes[id].payload.properties, AlwaysDescend, id);
  }

  /** Along an array's trace: only the errors along its elements' traces. */
  lemma ErrorsAlongArray(nodes: seq<Node>, id: NodeId)
    requires WellFormed(nodes) && id < |nodes| && nodes[id].payload.ArrayNode?
    ensures ErrorsAlong(nodes, Trace(nodes, id, AlwaysDescend)) ==
      ErrorsAlong(nodes, TraceAll(nodes, nodes[id].payload.elements, AlwaysDescend, id))
  {
    var rest := Trace(nodes, id, AlwaysDescend)[1..];
    ErrorsAlongHead(nodes, id);
    assert rest == TraceAll(nodes, nodes[id].payload.elements, AlwaysDescend, id);
    assert NodeErrors(nodes, id) == [];
    EmptyPrefix(ErrorsAlong(nodes, rest));
  }

  /** Along a property's trace: only the errors along its value's trace. */
  lemma ErrorsAlongProperty(nodes: seq<Node>, id: NodeId)
    requires WellFormed(nodes) && id < |nodes| && nodes[id].payload.PropertyNode?
    ensures ErrorsAlong(nodes, Trace(nodes, id, AlwaysDescend)) ==
      ErrorsAlong(nodes, Trace(nodes, nodes[id].payload.value, AlwaysDescend))
  {
    var rest := Trace(nodes, nodes[id].payload.value, AlwaysDescend);
    PropertyTrace(nodes, id, AlwaysDescend);
    ErrorsAlongAppend(nodes, [id], rest);
    ErrorsAlongSingle(nodes, id);
    assert NodeErrors(nodes, id) == [];
    EmptyPrefix(ErrorsAlong(nodes, Trace(nodes, nodes[id].payload.value, AlwaysDescend)));
  }

  /** A leaf's trace carries no error. */
  lemma ErrorsAlongLeaf(nodes: seq<Node>, id: NodeId)
    requires WellFormed(nodes) && id < |nodes|
    requires !nodes[id].payload.ObjectNode? && !nodes[id].payload.ArrayNode? && !nodes[id].payload.PropertyNode?
    ensures ErrorsAlong(nodes, Trace(nodes, id, AlwaysDescend)) == []
  {
    assert Trace(nodes, id, AlwaysDescend) == [id];
    ErrorsAlongSingle(nodes, id);
  }

  /** The node's own errors come first along its trace. */
  lemma ErrorsAlongHead(nodes: seq<Node>, id: NodeId)
    requires WellFormed(nodes) && id < |nodes|
    ensures ErrorsAlong(nodes, Trace(nodes, id, AlwaysDescend)) ==
      NodeErrors(nodes, id) + ErrorsAlong(nodes, Trace(nodes, id, AlwaysDescend)[1..])
  {
    var t := Trace(nodes, id, AlwaysDescend);
    assert t == [id] + t[1..];
    ErrorsAlongAppend(nodes, [id], t[1..]);
    ErrorsAlongSingle(nodes, id);
  }

  lemma ErrorsAlongSingle(nodes: seq<Node>, id: NodeId)
    requires WellFormed(nodes) && id < |nodes|
    ensures ErrorsAlong(nodes, [id]) == NodeErrors(nodes, id)
  {
    var chunks := PerVisit(nodes, [id]);
    assert chunks[..0] == [];
    assert Concat(chunks) == Concat(chunks[..0]) + chunks[0];
  }

  lemma {:induction false} ConcatEmptyIff(chunks: seq<seq<KeyError>>)
    ensures Concat(chunks) == [] <==> forall k :: 0 <= k < |chunks| ==> chunks[k] == []
    decreases |chunks|
  {
    if |chunks| > 0 {
      ConcatEmptyIff(chunks[..|chunks| - 1]);
      assert forall k :: 0 <= k < |chunks| - 1 ==> chunks[..|chunks| - 1][k] == chunks[k];
    }
  }

  /** No error at all exactly when every visited object has non-blank, distinct keys. */
  lemma ErrorsAlongEmptyIff(nodes: seq<Node>, ids: seq<NodeId>)
    requires WellFormed(nodes) && forall k :: 0 <= k < |ids| ==> ids[k] < |nodes|
    ensures ErrorsAlong(nodes, ids) == [] <==>
      forall k :: 0 <= k < |ids| && nodes[ids[k]].payload.ObjectNode? ==>
        NoBlankKey(ObjectKeys(nodes, ids[k])) && DistinctKeys(ObjectKeys(nodes, ids[k]))
  {
    ConcatEmptyIff(PerVisit(nodes, ids));
    forall k | 0 <= k < |ids| && nodes[ids[k]].payload.ObjectNode?
      ensures NodeErrors(nodes, ids[k]) == [] <==>
        NoBlankKey(ObjectKeys(nodes, ids[k])) && DistinctKeys(ObjectKeys(nodes, ids[k]))
    {
      KeyFindingsEmptyIff(ObjectKeys(nodes, ids[k]));
    }
  }

  /** Visitor collecting a message for every blank or repeated key of every object it visits. */
  class KeyValidatorVisitor {
    var errors: seq<KeyError>

    constructor ()
      ensures errors == []
    {
      errors := [];
    }

    /** `visit(obj)`: check the keys in order with a fresh `seen` set; always descend. */
    method VisitObject(f: Arena, obj: NodeId) returns (descend: bool)
      requires WellFormed(f.nodes) && obj < |f.nodes| && f.nodes[obj].payload.ObjectNode?
      modifies this
      ensures descend
      ensures errors == old(errors) + NodeErrors(f.nodes, obj)
    {
      var ps := f.nodes[obj].payload.properties;
      var depth := Depth(f.nodes, obj);
      ghost var keys := ObjectKeys(f.nodes, obj);
      var seen: set<string> := {};
      ghost var found: seq<KeyError> := [];
      var i := 0;
      while i < |ps|
        invariant 0 <= i <= |ps|
        invariant seen == KeySet(keys[..i])
        invariant found == Tagged(KeyFindings(keys[..i]), depth)
        invariant errors == old(errors) + found
      {
        var key := f.nodes[ps[i]].payload.key;
        KeyCheckStep(keys, i, seen, depth);
        if IsBlank(key) {
          AppendAssoc(old(errors), found, [KeyError(Blank, depth)]);
          errors := errors + [KeyError(Blank, depth)];
          found := found + [KeyError(Blank, depth)];
        }
        if key in seen {
          AppendAssoc(old(errors), found, [KeyError(Duplicate(key), depth)]);
          errors := errors + [KeyError(Duplicate(key), depth)];
          found := found + [KeyError(Duplicate(key), depth)];
        } else {
          seen := seen + {key};
        }
        i := i + 1;
      }
      assert keys[..|ps|] == keys;
      descend := true;
    }

    /** `result()`: the messages so far, in the order found. */
    method Result() returns (r: seq<string>)
      ensures r == Render(errors)
    {
      r := [];
      var i := 0;
      while i < |errors|
        invariant 0 <= i <= |errors|
        invariant r == Render(errors[..i])
      {
        r := r + [Message(errors[i])];
        i := i + 1;
      }
      assert errors[..i] == errors;
    }

    /** `node.accept(this)`. */
    method Accept(f: Arena, id: NodeId)
      requires WellFormed(f.nodes) && id < |f.nodes|
      modifies this
      ensures errors == old(errors) + ErrorsAlong(f.nodes, Trace(f.nodes, id, AlwaysDescend))
      decreases id
    {
      ghost var nodes := f.nodes;
      match f.nodes[id].payload {
        case ObjectNode(ps) =>
          ErrorsAlongObject(nodes, id);
          var descend := VisitObject(f, id);
          if descend {
            AcceptChildren(f, ps, id);
          }
          AppendAssoc(old(errors), NodeErrors(nodes, id), ErrorsAlong(nodes, TraceAll(nodes, ps, AlwaysDescend, id)));
        case ArrayNode(es) =>
          ErrorsAlongArray(nodes, id);
          AcceptChildren(f, es, id);
        case PropertyNode(_, v) =>
          ErrorsAlongProperty(nodes, id);
          Accept(f, v);
        case _ =>
          ErrorsAlongLeaf(nodes, id);
          assert old(errors) + [] == old(errors);
      }
    }

    /** The children of composite `owner`, in order. */
    method AcceptChildren(f: Arena, ids: seq<NodeId>, owner: NodeId)
      requires WellFormed(f.nodes) && owner < |f.nodes|
      requires forall k :: 0 <= k < |ids| ==> ids[k] < owner
      modifies this
      ensures errors == old(errors) + ErrorsAlong(f.nodes, TraceAll(f.nodes, ids, AlwaysDescend, owner))
      decreases owner, 0
    {
      ghost var nodes := f.nodes;
      var i := 0;
      while i < |ids|
        invariant 0 <= i <= |ids|
        invariant errors == old(errors) + ErrorsAlong(nodes, TraceAll(nodes, ids[..i], AlwaysDescend, owner))
      {
        ghost var before := ErrorsAlong(nodes, TraceAll(nodes, ids[..i], AlwaysDescend, owner));
        ghost var added := ErrorsAlong(nodes, Trace(nodes, ids[i], AlwaysDescend));
        ErrorsAlongSnoc(nodes, ids, i, owner);
        Accept(f, ids[i]);
        AppendAssoc(old(errors), before, added);
        i := i + 1;
      }
      assert ids[..|ids|] == ids;
    }
  }
}
