/** The host's view of a graph's external values (`NodeDataExternals`): one list per
    class of external value node, each holding the id and value name of every node of
    that class that is marked `UseAsExternal`, in the node table's enumeration order. */
module Externals {
  import opened Wrappers
  import opened ValueTypes
  import opened Nodes
  import opened Graph

  /** The nine lists, named after the fields that hold them. */
  datatype ExternalKind =
    | BoolNodes | ColorNodes | FloatNodes | IntNodes
    | Vector2Nodes | Vector3Nodes | Vector4Nodes
    | AnimationCurveNodes | GradientNodes

  /** A list entry: the node's id and its `ValueName`, which may be `null`. */
  datatype Entry = Entry(nodeId: int, name: Option<string>)

  /** The lists are `null` until the first `InitializeFrom`. */
  datatype Externals =
    | Uninitialised
    | Lists(bools: seq<Entry>, colors: seq<Entry>, floats: seq<Entry>, ints: seq<Entry>,
            vector2s: seq<Entry>, vector3s: seq<Entry>, vector4s: seq<Entry>,
            curves: seq<Entry>, gradients: seq<Entry>)
  {
    function ListOf(kind: ExternalKind): seq<Entry>
      requires Lists?
    {
      match kind
      case BoolNodes => bools
      case ColorNodes => colors
      case FloatNodes => floats
      case IntNodes => ints
      case Vector2Nodes => vector2s
      case Vector3Nodes => vector3s
      case Vector4Nodes => vector4s
      case AnimationCurveNodes => curves
      case GradientNodes => gradients
    }
  }

  /** The list of the value class for a payload tag. */
  function ValueList(t: ValueType): ExternalKind
    requires IsPayloadType(t)
  {
    match t
    case Float => FloatNodes
    case Int => IntNodes
    case Vector2 => Vector2Nodes
    case Vector3 => Vector3Nodes
    case Vector4 => Vector4Nodes
    case Color => ColorNodes
    case Bool => BoolNodes
  }

  /** `GetArray`: the list a node's class belongs to. Only the external value classes
      (the seven value nodes, the curve and the gradient) have one, and every one of
      them does, so the "out of range" throw at the end is unreachable. */
  function ListKind(k: Kind): (r: Option<ExternalKind>)
    ensures r.Some? <==> k.ValueNode? || k.AnimationCurveNode? || k.GradientNode?
    ensures k.ValueNode? ==> r == Some(ValueList(TypeOfValue(k.value)))
    ensures r == Some(AnimationCurveNodes) <==> k.AnimationCurveNode?
    ensures r == Some(GradientNodes) <==> k.GradientNode?
  {
    match k
    case ValueNode(v, _, _, _) => Some(ValueList(TypeOfValue(v)))
    case AnimationCurveNode(_, _, _) => Some(AnimationCurveNodes)
    case GradientNode(_, _, _) => Some(GradientNodes)
    case _ => None
  }

  /** A node that `InitializeFrom` lists under `kind`. */
  predicate IsExternalOf(n: Node, kind: ExternalKind) {
    ListKind(n.kind) == Some(kind) && n.kind.useAsExternal
  }

  function EntryOf(n: Node): Entry
    requires ListKind(n.kind).Some?
  {
    Entry(n.id, n.kind.valueName)
  }

  /** The entries of the nodes of `order` listed under `kind`, in that order. */
  function Collect(g: NodeData, order: seq<int>, kind: ExternalKind): (r: seq<Entry>)
    ensures |r| <= |order|
    ensures |order| > 0 && order[0] in g.nodes && IsExternalOf(g.nodes[order[0]], kind) ==>
      |r| > 0 && r[0] == EntryOf(g.nodes[order[0]])
    decreases |order|
  {
    if |order| == 0 then []
    else
      var rest := Collect(g, order[1..], kind);
      var id := order[0];
      if id in g.nodes && IsExternalOf(g.nodes[id], kind) then [EntryOf(g.nodes[id])] + rest else rest
  }

  function EntryIds(es: seq<Entry>): (r: seq<int>)
    ensures |r| == |es| && forall i :: 0 <= i < |es| ==> r[i] == es[i].nodeId
    decreases |es|
  {
    if |es| == 0 then [] else [es[0].nodeId] + EntryIds(es[1..])
  }

  /** `InitializeFrom`: the lists are cleared and refilled by one pass over the table in
      `order`, its enumeration order; what they held before plays no part. */
  function InitializeFrom(ex: Externals, g: NodeData, order: seq<int>): (r: Externals)
    requires Enumerates(order, g.nodes.Keys)
    ensures r.Lists?
    ensures forall kind :: r.ListOf(kind) == Collect(g, order, kind)
  {
    Lists(Collect(g, order, BoolNodes), Collect(g, order, ColorNodes), Collect(g, order, FloatNodes),
      Collect(g, order, IntNodes), Collect(g, order, Vector2Nodes), Collect(g, order, Vector3Nodes),
      Collect(g, order, Vector4Nodes), Collect(g, order, AnimationCurveNodes), Collect(g, order, GradientNodes))
  }

  /** An entry `InitializeFrom` may produce from `order`: a listed node of `order`, with
      its own id and value name. */
  predicate ListedEntry(g: NodeData, order: seq<int>, kind: ExternalKind, e: Entry) {
    e.nodeId in order && e.nodeId in g.nodes && IsExternalOf(g.nodes[e.nodeId], kind) &&
    e == EntryOf(g.nodes[e.nodeId])
  }

  predicate NoRepeats(s: seq<int>) {
    forall i, j :: 0 <= i < j < |s| ==> s[i] != s[j]
  }

  /** What one pass collects: only listed nodes of `order`, each with its own id and
      value name; every listed node of `order`; and no id twice when `order` has none. */
  lemma {:induction false} CollectContents(g: NodeData, order: seq<int>, kind: ExternalKind)
    requires forall id :: id in g.nodes ==> g.nodes[id].id == id
    ensures forall i :: 0 <= i < |Collect(g, order, kind)| ==> ListedEntry(g, order, kind, Collect(g, order, kind)[i])
    ensures forall id :: id in order && id in g.nodes && IsExternalOf(g.nodes[id], kind) ==>
      id in EntryIds(Collect(g, order, kind))
    ensures NoRepeats(order) ==> NoRepeats(EntryIds(Collect(g, order, kind)))
    decreases |order|
  {
    hide ListKind;
    if |order| > 0 {
      var tail := order[1..];
      CollectContents(g, tail, kind);
      var rest := Collect(g, tail, kind);
      var id := order[0];
      assert forall x :: x in tail ==> x in order;
      assert forall x :: x in order ==> x == id || x in tail;
      if NoRepeats(order) {
        forall i, j | 0 <= i < j < |tail| ensures tail[i] != tail[j] {
          assert tail[i] == order[i + 1] && tail[j] == order[j + 1];
        }
        assert id !in tail by {
          forall k | 0 <= k < |tail| ensures tail[k] != id {
            assert tail[k] == order[k + 1];
          }
        }
      }
      forall i | 0 <= i < |rest| ensures ListedEntry(g, order, kind, rest[i]) {
        assert ListedEntry(g, tail, kind, rest[i]);
      }
      if id in g.nodes && IsExternalOf(g.nodes[id], kind) {
        CollectListed(g, order, kind);
      } else {
        assert Collect(g, order, kind) == rest;
      }
    }
  }

  /** The step of `CollectContents` where the first node of `order` is listed. */
  lemma {:induction false} CollectListed(g: NodeData, order: seq<int>, kind: ExternalKind)
    requires forall id :: id in g.nodes ==> g.nodes[id].id == id
    requires |order| > 0 && order[0] in g.nodes && IsExternalOf(g.nodes[order[0]], kind)
    requires forall i :: 0 <= i < |Collect(g, order[1..], kind)| ==>
      ListedEntry(g, order, kind, Collect(g, order[1..], kind)[i])
    requires forall id :: id in order[1..] && id in g.nodes && IsExternalOf(g.nodes[id], kind) ==>
      id in EntryIds(Collect(g, order[1..], kind))
    requires NoRepeats(order) ==> order[0] !in order[1..] && NoRepeats(EntryIds(Collect(g, order[1..], kind)))
    requires forall i :: 0 <= i < |Collect(g, order[1..], kind)| ==> Collect(g, order[1..], kind)[i].nodeId in order[1..]
    ensures forall i :: 0 <= i < |Collect(g, order, kind)| ==> ListedEntry(g, order, kind, Collect(g, order, kind)[i])
    ensures forall id :: id in order && id in g.nodes && IsExternalOf(g.nodes[id], kind) ==>
      id in EntryIds(Collect(g, order, kind))
    ensures NoRepeats(order) ==> NoRepeats(EntryIds(Collect(g, order, kind)))
  {
    hide ListKind;
    var tail := order[1..];
    var rest := Collect(g, tail, kind);
    var id := order[0];
    var e := EntryOf(g.nodes[id]);
    var r := [e] + rest;
    assert Collect(g, order, kind) == r;
    assert e.nodeId == id;
    assert ListedEntry(g, order, kind, e);
    forall i | 0 <= i < |r| ensures ListedEntry(g, order, kind, r[i]) {
      if i > 0 {
        assert r[i] == rest[i - 1];
      }
    }
    assert forall x :: x in order ==> x == id || x in tail;
    forall x | x in EntryIds(rest) ensures x in EntryIds(r) {
      var i :| 0 <= i < |rest| && EntryIds(rest)[i] == x;
      assert EntryIds(r)[i + 1] == x;
    }
    assert EntryIds(r)[0] == id;
    if NoRepeats(order) {
      ListedKeepsDistinct(g, order, kind);
    }
  }

  /** The no-repeats part of the step of `CollectContents`. */
  lemma {:induction false} ListedKeepsDistinct(g: NodeData, order: seq<int>, kind: ExternalKind)
    requires forall id :: id in g.nodes ==> g.nodes[id].id == id
    requires |order| > 0 && order[0] in g.nodes && IsExternalOf(g.nodes[order[0]], kind)
    requires NoRepeats(order) && order[0] !in order[1..] && NoRepeats(EntryIds(Collect(g, order[1..], kind)))
    requires forall i :: 0 <= i < |Collect(g, order[1..], kind)| ==> Collect(g, order[1..], kind)[i].nodeId in order[1..]
    ensures NoRepeats(EntryIds(Collect(g, order, kind)))
  {
    hide ListKind, ListedEntry;
    var tail := order[1..];
    var rest := Collect(g, tail, kind);
    var id := order[0];
    var r := [EntryOf(g.nodes[id])] + rest;
    assert Collect(g, order, kind) == r;
    forall i, j | 0 <= i < j < |r| ensures EntryIds(r)[i] != EntryIds(r)[j] {
      assert r[j] == rest[j - 1];
      assert rest[j - 1].nodeId in tail;
      if i > 0 {
        assert r[i] == rest[i - 1];
        assert EntryIds(rest)[i - 1] != EntryIds(rest)[j - 1];
      }
    }
  }

  /** After `InitializeFrom`, the list of each class holds exactly the nodes of that class
      marked `UseAsExternal`, each once, each entry carrying the node's id and
      `ValueName`. */
  lemma {:induction false} ExternalsContents(ex: Externals, g: NodeData, order: seq<int>, kind: ExternalKind)
    requires Valid(g) && Enumerates(order, g.nodes.Keys)
    ensures var list := InitializeFrom(ex, g, order).ListOf(kind);
      (forall id :: (id in g.nodes && IsExternalOf(g.nodes[id], kind)) <==> id in EntryIds(list)) &&
      (forall i :: 0 <= i < |list| ==> list[i].nodeId in g.nodes && list[i] == EntryOf(g.nodes[list[i].nodeId])) &&
      NoRepeats(EntryIds(list))
  {
    hide ListKind, Collect, EntryOf;
    CollectContents(g, order, kind);
    var list := Collect(g, order, kind);
    assert InitializeFrom(ex, g, order).ListOf(kind) == list;
    forall id | id in EntryIds(list) ensures id in g.nodes && IsExternalOf(g.nodes[id], kind) {
      var i :| 0 <= i < |list| && EntryIds(list)[i] == id;
      assert ListedEntry(g, order, kind, list[i]);
    }
    forall i | 0 <= i < |list| ensures list[i].nodeId in g.nodes && list[i] == EntryOf(g.nodes[list[i].nodeId]) {
      assert ListedEntry(g, order, kind, list[i]);
    }
  }
}
