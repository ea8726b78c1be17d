/** Default constants (`DefaultNode`): attaching a default-constant node to an input left
    unconnected (`ToDefault`, `InitDefaults`), and the text payload of the seven default
    classes. */
module Defaults {
  import opened Wrappers
  import opened Text
  import opened ValueTypes
  import opened Links
  import opened Nodes
  import opened Graph
  import NC = NodeCollector

  /** The graph and link `ToDefault` leaves. */
  datatype Defaulted = Defaulted(graph: NodeData, link: Link)

  /** A link is served: it is connected to a user node, never takes defaults, points at
      a node whose declared type it accepts, or is unconnected because its type has no
      default class. */
  predicate Served(g: NodeData, l: Link) {
    NoDefaults(l) || IsConnected(l) ||
    (l.nodeId in g.nodes && NC.ValidateTypes(l.ty, g.nodes[l.nodeId].outputType)) ||
    (l.nodeId == NoNodeId && NC.DefaultKindFor(l.ty).None?)
  }

  /** `h` only adds nodes to `g`. */
  predicate Extends(g: NodeData, h: NodeData) {
    forall k :: k in g.nodes ==> k in h.nodes && h.nodes[k] == g.nodes[k]
  }

  /** `h` keeps every node of `g`, with its kind and declared type; links may differ. */
  predicate Grows(g: NodeData, h: NodeData) {
    forall k :: k in g.nodes ==> k in h.nodes && h.nodes[k].kind == g.nodes[k].kind && h.nodes[k].outputType == g.nodes[k].outputType
  }

  /** Every node of `g` has the links and declared type its class requires. */
  predicate AllShaped(g: NodeData) {
    forall k :: k in g.nodes ==> Shaped(g.nodes[k])
  }

  /** The second half of `ToDefault`: the found node is kept when the link accepts its
      declared type; otherwise a new default node for the link's type is created (there
      is none for a type without a default class). Both the link's node and its
      remembered default become the result. */
  function Attach(g: NodeData, l: Link, found: Option<Node>): (r: Result<Defaulted>)
    ensures Valid(g) ==> r.Success? && Valid(r.value.graph)
    ensures r.Success? ==> Extends(g, r.value.graph) && r.value.graph.outputs == g.outputs && r.value.graph.lastId == g.lastId
    ensures Valid(g) && Closed(g) ==> Closed(r.value.graph)
    ensures r.Success? && AllShaped(g) ==> AllShaped(r.value.graph)
    ensures r.Success? ==> r.value.link == l.(nodeId := r.value.link.nodeId, lastDefault := r.value.link.nodeId)
    ensures found.Some? && NC.ValidateTypes(l.ty, found.value.outputType) ==>
      r == Success(Defaulted(g, l.(nodeId := found.value.id, lastDefault := found.value.id)))
    ensures r.Success? && !(found.Some? && NC.ValidateTypes(l.ty, found.value.outputType)) ==>
      CreateDefaultNode(g, l.ty).Success? &&
      var c := CreateDefaultNode(g, l.ty).value;
      r.value.graph == c.0 && r.value.link.nodeId == (if c.1.Some? then c.1.value.id else NoNodeId)
  {
    if found.Some? && NC.ValidateTypes(l.ty, found.value.outputType) then
      Success(Defaulted(g, l.(nodeId := found.value.id, lastDefault := found.value.id)))
    else
      var c :- CreateDefaultNode(g, l.ty);
      var id := if c.1.Some? then c.1.value.id else NoNodeId;
      Success(Defaulted(c.0, l.(nodeId := id, lastDefault := id)))
  }

  /** `ToDefault` as the source writes it: the remembered id is computed (the link's own
      default when it has one, else its last default), but the lookup then reads the
      link's current id. An unconnected link therefore never finds its last default. */
  function ToDefaultAsWritten(g: NodeData, l: Link): (r: Result<Defaulted>)
    ensures Valid(g) ==> r.Success? && Valid(r.value.graph)
    ensures r.Success? ==> Extends(g, r.value.graph) && r.value.graph.outputs == g.outputs && r.value.graph.lastId == g.lastId
    ensures Valid(g) && Closed(g) ==> Closed(r.value.graph)
    ensures r.Success? && AllShaped(g) ==> AllShaped(r.value.graph)
    ensures r.Success? ==> r.value.link.ty == l.ty && r.value.link.settings == l.settings
    ensures NoDefaults(l) || IsConnected(l) ==> r == Success(Defaulted(g, l))
    ensures Valid(g) ==> Served(r.value.graph, r.value.link)
    ensures Valid(g) ==> r.value.link.nodeId == NoNodeId || r.value.link.nodeId in r.value.graph.nodes || r.value.link == l
  {
    if NoDefaults(l) || l.nodeId > NoNodeId then Success(Defaulted(g, l))
    else
      var remembered := if l.nodeId < NoNodeId then l.nodeId else l.lastDefault;
      var found := if remembered < NoNodeId then GetNode(g, l.nodeId) else None;
      Attach(g, l, found)
  }

  /** As written, an unconnected link never gets its remembered default back: it is
      given a node created for the occasion (or none), never the one it remembers. */
  lemma {:induction false} AsWrittenForgetsLastDefault(g: NodeData, l: Link)
    requires Valid(g) && !NoDefaults(l) && l.nodeId == NoNodeId && l.lastDefault in g.nodes
    ensures ToDefaultAsWritten(g, l).value.link.nodeId != l.lastDefault
    ensures ToDefaultAsWritten(g, l).value.link.nodeId !in g.nodes
  {
  }

  /** `ToDefault` as evidently intended: the lookup reads the remembered id, so an
      unconnected link whose last default still exists and fits is reattached to it. */
  function ToDefault(g: NodeData, l: Link): (r: Result<Defaulted>)
    ensures Valid(g) ==> r.Success? && Valid(r.value.graph)
    ensures r.Success? ==> Extends(g, r.value.graph) && r.value.graph.outputs == g.outputs && r.value.graph.lastId == g.lastId
    ensures Valid(g) && Closed(g) ==> Closed(r.value.graph)
    ensures r.Success? && AllShaped(g) ==> AllShaped(r.value.graph)
    ensures r.Success? ==> r.value.link.ty == l.ty && r.value.link.settings == l.settings
    ensures NoDefaults(l) || IsConnected(l) ==> r == Success(Defaulted(g, l))
    ensures Valid(g) ==> Served(r.value.graph, r.value.link)
    ensures Valid(g) ==> r.value.link.nodeId == NoNodeId || r.value.link.nodeId in r.value.graph.nodes || r.value.link == l
  {
    if NoDefaults(l) || l.nodeId > NoNodeId then Success(Defaulted(g, l))
    else
      var remembered := if l.nodeId < NoNodeId then l.nodeId else l.lastDefault;
      var found := if remembered < NoNodeId then GetNode(g, remembered) else None;
      Attach(g, l, found)
  }

  /** Corrected, an unconnected link whose last default still exists and fits gets it
      back, and nothing is created. */
  lemma {:induction false} ToDefaultRestoresLastDefault(g: NodeData, l: Link)
    requires Valid(g) && !NoDefaults(l) && l.nodeId == NoNodeId
    requires l.lastDefault < NoNodeId && l.lastDefault in g.nodes
    requires NC.ValidateTypes(l.ty, g.nodes[l.lastDefault].outputType)
    ensures ToDefault(g, l) == Success(Defaulted(g, l.(nodeId := l.lastDefault)))
  {
  }

  /** Both versions keep a default the link is connected to when it still fits, and
      agree on every link that is connected or has no remembered default. */
  lemma {:induction false} VersionsAgreeUnlessUnconnected(g: NodeData, l: Link)
    requires l.nodeId != NoNodeId || l.lastDefault >= NoNodeId
    ensures ToDefaultAsWritten(g, l) == ToDefault(g, l)
  {
  }

  /** A float input whose remembered float default (-3) still exists: as written it gets
      a new node -4, corrected it is reattached to -3. */
  lemma {:induction false} ForgottenDefaultExample()
    ensures var c := CreateDefaultNode(EmptyGraph, Float).value;
      var l := Link(NoNodeId, Float, DefaultSettings, -3);
      c.1 == Some(c.0.nodes[-3]) &&
      ToDefaultAsWritten(c.0, l).value.link.nodeId == -4 &&
      ToDefault(c.0, l).value.link.nodeId == -3
  {
    var c := CreateDefaultNode(EmptyGraph, Float).value;
    var l := Link(NoNodeId, Float, DefaultSettings, -3);
    EmptyGraphValid();
    assert c.1.value.id == -3;
    assert c.0.nodes[-3].outputType == Float;
    ToDefaultRestoresLastDefault(c.0, l);
  }

  // ----- InitDefaults -----

  /** Which id `ToDefault`'s lookup reads: the link's current id, as the source does, or
      the remembered one, as evidently intended. */
  datatype Lookup = CurrentId | RememberedId

  /** `ToDefault` with the chosen lookup; both versions keep every promise below. */
  function ToDefaultBy(lookup: Lookup, g: NodeData, l: Link): (r: Result<Defaulted>)
    ensures Valid(g) ==> r.Success? && Valid(r.value.graph)
    ensures r.Success? ==> Extends(g, r.value.graph) && r.value.graph.outputs == g.outputs && r.value.graph.lastId == g.lastId
    ensures Valid(g) && Closed(g) ==> Closed(r.value.graph)
    ensures r.Success? && AllShaped(g) ==> AllShaped(r.value.graph)
    ensures r.Success? ==> r.value.link.ty == l.ty && r.value.link.settings == l.settings
    ensures NoDefaults(l) || IsConnected(l) ==> r == Success(Defaulted(g, l))
    ensures Valid(g) ==> Served(r.value.graph, r.value.link)
    ensures Valid(g) ==> r.value.link.nodeId == NoNodeId || r.value.link.nodeId in r.value.graph.nodes || r.value.link == l
  {
    match lookup
    case CurrentId => ToDefaultAsWritten(g, l)
    case RememberedId => ToDefault(g, l)
  }

  /** `InitDefaults(node, nodeData)`'s loop: `ToDefault` on each link in turn, with the
      lookup `lookup` (`CurrentId` is the loop as the source runs it). */
  function DefaultLinks(lookup: Lookup, g: NodeData, inputs: seq<Link>): (r: Result<(NodeData, seq<Link>)>)
    ensures Valid(g) ==> r.Success? && Valid(r.value.0)
    ensures r.Success? ==> Extends(g, r.value.0) && r.value.0.outputs == g.outputs && r.value.0.lastId == g.lastId
    ensures Valid(g) && Closed(g) ==> Closed(r.value.0)
    ensures r.Success? && AllShaped(g) ==> AllShaped(r.value.0)
    ensures r.Success? ==> |r.value.1| == |inputs|
    ensures r.Success? ==> forall i :: 0 <= i < |inputs| ==> r.value.1[i].ty == inputs[i].ty && r.value.1[i].settings == inputs[i].settings
    ensures Valid(g) ==> forall i :: 0 <= i < |inputs| ==> Served(r.value.0, r.value.1[i])
    ensures Valid(g) ==> forall i :: 0 <= i < |inputs| ==>
      r.value.1[i].nodeId == NoNodeId || r.value.1[i].nodeId in r.value.0.nodes || r.value.1[i] == inputs[i]
    decreases |inputs|
  {
    if inputs == [] then Success((g, []))
    else
      var first :- ToDefaultBy(lookup, g, inputs[0]);
      var rest :- DefaultLinks(lookup, first.graph, inputs[1..]);
      if Valid(g) then
        assert Grows(first.graph, rest.0);
        ServedGrows(first.graph, rest.0, first.link);
        Success((rest.0, [first.link] + rest.1))
      else Success((rest.0, [first.link] + rest.1))
  }

  lemma {:induction false} GrowsTransitive(a: NodeData, b: NodeData, c: NodeData)
    requires Grows(a, b) && Grows(b, c)
    ensures Grows(a, c)
  {
  }

  /** A served link stays served as the graph grows. */
  lemma {:induction false} ServedGrows(g: NodeData, h: NodeData, l: Link)
    requires Served(g, l) && Grows(g, h)
    requires l.nodeId == NoNodeId ==> NoNodeId !in h.nodes
    ensures Served(h, l)
  {
  }

  /** `InitDefaults(node, nodeData)`: every link of the node is served afterwards, and
      the graph only gains default nodes, whichever lookup `ToDefault` uses. */
  function InitNodeDefaults(lookup: Lookup, g: NodeData, id: int): (r: Result<NodeData>)
    requires id in g.nodes
    ensures Valid(g) ==> r.Success? && Valid(r.value)
    ensures Valid(g) && Closed(g) ==> Closed(r.value)
    ensures r.Success? ==> Grows(g, r.value) && r.value.outputs == g.outputs && r.value.lastId == g.lastId
    ensures r.Success? ==> r.value.nodes[id] == g.nodes[id].(inputs := r.value.nodes[id].inputs)
    ensures r.Success? ==> |r.value.nodes[id].inputs| == |g.nodes[id].inputs|
    ensures Valid(g) ==> forall i :: 0 <= i < |r.value.nodes[id].inputs| ==> Served(r.value, r.value.nodes[id].inputs[i])
    ensures r.Success? ==> forall k :: k in g.nodes && k != id ==> r.value.nodes[k] == g.nodes[k]
  {
    var d :- DefaultLinks(lookup, g, g.nodes[id].inputs);
    WriteLinks(g, d.0, id, d.1);
    Success(d.0.(nodes := d.0.nodes[id := g.nodes[id].(inputs := d.1)]))
  }

  /** Node `id` of `g` written into the extended table `d` with new links: every node of
      `g` keeps its class and declared type, the others are untouched, and the table
      stays valid, and closed when each new link is unconnected, points into `d`, or is
      the link `g` already had. */
  lemma {:induction false} WriteLinks(g: NodeData, d: NodeData, id: int, links: seq<Link>)
    requires id in g.nodes && Extends(g, d) && |links| == |g.nodes[id].inputs|
    ensures var h := d.(nodes := d.nodes[id := g.nodes[id].(inputs := links)]);
      Grows(g, h) && (forall k :: k in g.nodes && k != id ==> h.nodes[k] == g.nodes[k]) &&
      (Valid(d) ==> Valid(h)) &&
      (Closed(g) && Closed(d) &&
       (forall i :: 0 <= i < |links| ==> links[i].nodeId == NoNodeId || links[i].nodeId in d.nodes || links[i] == g.nodes[id].inputs[i])
       ==> Closed(h))
  {
    var h := d.(nodes := d.nodes[id := g.nodes[id].(inputs := links)]);
    if Closed(g) && Closed(d) &&
       (forall i :: 0 <= i < |links| ==> links[i].nodeId == NoNodeId || links[i].nodeId in d.nodes || links[i] == g.nodes[id].inputs[i]) {
      forall k, i | k in h.nodes && 0 <= i < |h.nodes[k].inputs|
        ensures h.nodes[k].inputs[i].nodeId == NoNodeId || h.nodes[k].inputs[i].nodeId in h.nodes
      {
        if k == id && links[i] == g.nodes[id].inputs[i] {
          assert g.nodes[id].inputs[i].nodeId == NoNodeId || g.nodes[id].inputs[i].nodeId in g.nodes;
        }
      }
    }
  }

  /** `InitDefaults(node, nodeData)` keeps every node shaped: the node keeps its class,
      declared type and number of links, and the default nodes it creates are shaped. */
  lemma {:induction false} InitNodeDefaultsShaped(lookup: Lookup, g: NodeData, id: int)
    requires id in g.nodes && AllShaped(g)
    ensures InitNodeDefaults(lookup, g, id).Success? ==> AllShaped(InitNodeDefaults(lookup, g, id).value)
  {
    var n := g.nodes[id];
    var d := DefaultLinks(lookup, g, n.inputs);
    if d.Success? {
      var h := InitNodeDefaults(lookup, g, id).value;
      forall k | k in h.nodes ensures Shaped(h.nodes[k]) {
        if k == id {
          assert h.nodes[k] == n.(inputs := d.value.1);
        } else {
          assert h.nodes[k] == d.value.0.nodes[k];
        }
      }
    }
  }

  /** Every input of node `id` is served. */
  predicate NodeServed(g: NodeData, id: int)
    requires id in g.nodes
  {
    forall i :: 0 <= i < |g.nodes[id].inputs| ==> Served(g, g.nodes[id].inputs[i])
  }

  /** `InitDefaults(nodeData)`: `InitDefaults(node, nodeData)` for each node of a snapshot
      taken before the pass (`order`, the dictionary's enumeration), so the default
      nodes the pass creates are not themselves visited. */
  function InitAllDefaults(lookup: Lookup, g: NodeData, order: seq<int>): (r: Result<NodeData>)
    requires forall i :: 0 <= i < |order| ==> order[i] in g.nodes
    ensures Valid(g) ==> r.Success? && Valid(r.value)
    ensures Valid(g) && Closed(g) ==> Closed(r.value)
    ensures r.Success? ==> Grows(g, r.value) && r.value.outputs == g.outputs
    ensures r.Success? ==> forall k :: k in g.nodes && k !in order ==> r.value.nodes[k] == g.nodes[k]
    decreases |order|
  {
    if order == [] then Success(g)
    else
      var h :- InitNodeDefaults(lookup, g, order[0]);
      TailStays(g, h, order);
      var rest :- InitAllDefaults(lookup, h, order[1..]);
      GrowsTransitive(g, h, rest);
      assert forall k :: k in g.nodes && k !in order ==> k != order[0] && k !in order[1..];
      Success(rest)
  }

  /** The rest of the snapshot is still in the table after one node's defaults. */
  lemma {:induction false} TailStays(g: NodeData, h: NodeData, order: seq<int>)
    requires order != [] && Grows(g, h)
    requires forall i :: 0 <= i < |order| ==> order[i] in g.nodes
    ensures forall i :: 0 <= i < |order[1..]| ==> order[1..][i] in h.nodes
  {
    forall i | 0 <= i < |order[1..]| ensures order[1..][i] in h.nodes {
      assert order[1..][i] == order[i + 1] && order[i + 1] in g.nodes;
    }
  }

  /** After `InitDefaults(nodeData)` every input of every node of the snapshot is
      served. */
  lemma {:induction false} InitAllDefaultsServes(lookup: Lookup, g: NodeData, order: seq<int>)
    requires Valid(g) && forall i :: 0 <= i < |order| ==> order[i] in g.nodes
    ensures forall i :: 0 <= i < |order| ==> NodeServed(InitAllDefaults(lookup, g, order).value, order[i])
    decreases |order|
  {
    hide DefaultLinks, ToDefaultBy, ToDefault, ToDefaultAsWritten, Attach, CreateDefaultNode, NodeServed, Served;
    if order != [] {
      var h := InitNodeDefaults(lookup, g, order[0]).value;
      TailStays(g, h, order);
      var rest := InitAllDefaults(lookup, h, order[1..]).value;
      InitAllDefaultsUnfold(lookup, g, order);
      InitAllDefaultsServes(lookup, h, order[1..]);
      NodeServedKept(h, rest, order[0], order[1..]);
      assert forall i :: 0 <= i < |order| ==> order[i] == order[0] || order[i] in order[1..];
    }
  }

  /** One step of `InitDefaults(nodeData)`'s loop. */
  lemma {:induction false} InitAllDefaultsUnfold(lookup: Lookup, g: NodeData, order: seq<int>)
    requires Valid(g) && order != [] && forall i :: 0 <= i < |order| ==> order[i] in g.nodes
    ensures var h := InitNodeDefaults(lookup, g, order[0]).value;
      (forall i :: 0 <= i < |order[1..]| ==> order[1..][i] in h.nodes) &&
      InitAllDefaults(lookup, g, order) == InitAllDefaults(lookup, h, order[1..])
  {
    TailStays(g, InitNodeDefaults(lookup, g, order[0]).value, order);
  }

  /** A node whose links were served stays so while the pass goes on over the other
      nodes; if the pass revisits it, the revisit serves it again. */
  lemma {:induction false} NodeServedKept(h: NodeData, rest: NodeData, id: int, order: seq<int>)
    requires Valid(rest) && id in h.nodes && NodeServed(h, id) && Grows(h, rest)
    requires id !in order ==> rest.nodes[id] == h.nodes[id]
    requires forall i :: 0 <= i < |order| ==> order[i] in rest.nodes && NodeServed(rest, order[i])
    ensures NodeServed(rest, id)
  {
    if id in order {
      var i :| 0 <= i < |order| && order[i] == id;
    } else {
      forall i | 0 <= i < |rest.nodes[id].inputs|
        ensures Served(rest, rest.nodes[id].inputs[i])
      {
        ServedGrows(h, rest, h.nodes[id].inputs[i]);
      }
    }
  }

  // ----- payload text -----

  /** `Serialize()` of the seven default classes: `t` or `f` for a bool, the decimal
      number for an int, and the float components joined by '|' for the others. */
  function DefaultPayload(v: Value): (r: string)
  {
    match v
    case BoolValue(b) => BoolToString(b)
    case IntValue(n) => IntToString(n)
    case _ => Join(FloatComponents(v), '|')
  }

  /** How many '|'-separated items a payload of tag `t` occupies. */
  function PayloadWidth(t: ValueType): (w: nat)
    requires IsPayloadType(t)
    ensures w >= 1
  {
    if t == Bool || t == Int then 1 else ComponentCount(t)
  }

  /** `Deserialize(lines)` of the default class for tag `t`: the record split at '|',
      whose items from index 2 on are the payload. Too few items (an index out of range)
      or an item that does not parse is a failure; items past the payload are ignored. */
  function DefaultFromLines(t: ValueType, lines: seq<string>): (r: Result<Value>)
    requires IsPayloadType(t)
    ensures |lines| < 2 + PayloadWidth(t) ==> r.Failure?
    ensures r.Success? ==> TypeOfValue(r.value) == t
    ensures t == Bool && |lines| >= 3 ==> r == Success(BoolValue(lines[2] == "t"))
    ensures r.Success? && t != Bool && t != Int ==> FloatComponents(r.value) == lines[2..2 + PayloadWidth(t)]
  {
    if |lines| < 2 + PayloadWidth(t) then Failure("index out of range")
    else if t == Bool then Success(BoolValue(ParseBool(lines[2])))
    else if t == Int then
      match ParseInt(lines[2])
      case None => Failure("not an int")
      case Some(n) => Success(IntValue(n))
    else
      match ParseFloats(lines[2..2 + ComponentCount(t)])
      case None => Failure("not a float")
      case Some(cs) => Success(FromComponents(t, cs))
  }

  /** What a default node writes, it reads back, whatever the type id and node id in
      front of it: the record `typeId|nodeId|payload` split at '|' restores the value. */
  lemma {:induction false} PayloadRoundTrip(v: Value, typeId: string, nodeId: string)
    ensures DefaultFromLines(TypeOfValue(v), [typeId, nodeId] + Split(DefaultPayload(v), '|')) == Success(v)
  {
    if v.BoolValue? || v.IntValue? {
      ScalarPayloadRoundTrip(v, typeId, nodeId);
    } else {
      FloatPayloadRoundTrip(v, typeId, nodeId);
    }
  }

  lemma {:induction false} ScalarPayloadRoundTrip(v: Value, typeId: string, nodeId: string)
    requires v.BoolValue? || v.IntValue?
    ensures DefaultFromLines(TypeOfValue(v), [typeId, nodeId] + Split(DefaultPayload(v), '|')) == Success(v)
  {
    hide FloatComponents, FromComponents, ParseFloats, Join;
    SplitNoSeparator(DefaultPayload(v), '|');
    if v.BoolValue? {
      BoolRoundTrip(v.flag);
    } else {
      IntRoundTrip(v.number);
    }
  }

  lemma {:induction false} FloatPayloadRoundTrip(v: Value, typeId: string, nodeId: string)
    requires !v.BoolValue? && !v.IntValue?
    ensures DefaultFromLines(TypeOfValue(v), [typeId, nodeId] + Split(DefaultPayload(v), '|')) == Success(v)
  {
    hide ParseBool, ParseInt, BoolToString, IntToString, TrimStart, TrimEnd, ParseSigned;
    var t := TypeOfValue(v);
    var lines := [typeId, nodeId] + Split(DefaultPayload(v), '|');
    var cs := FloatComponents(v);
    forall i | 0 <= i < |cs| ensures '|' !in cs[i] {
      assert IsFloatText(cs[i]);
    }
    SplitJoin(cs, '|');
    assert DefaultPayload(v) == Join(cs, '|');
    assert lines[2..] == Split(DefaultPayload(v), '|') == cs;
    assert lines[2..2 + ComponentCount(t)] == cs;
    assert FromComponents(t, cs) == v;
  }

  /** A default payload never contains the record separator '#'. */
  lemma {:induction false} PayloadHasNoRecordSeparator(v: Value)
    ensures '#' !in DefaultPayload(v)
  {
    if !v.BoolValue? && !v.IntValue? {
      JoinAvoids(FloatComponents(v), '|', '#');
    }
  }
}
