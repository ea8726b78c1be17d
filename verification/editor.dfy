/** The editor window's graph operations (`NodeEditorWindow.RebuildGraph`, `CreateNode`,
    `RemoveNode`, `RemoveSelected`): after every edit the sinks are re-typed, compiled
    and re-selected as the graph's outputs. */
module Editor {
  import opened Wrappers
  import opened ValueTypes
  import opened Links
  import opened Nodes
  import opened Graph
  import opened Processors
  import T = Typing
  import D = Defaults
  import Ex = Externals

  /** What a rebuild leaves: the graph (with its new `Outputs`), the processors, the
      prepared `_processors` slots, and the refreshed external-value lists. */
  datatype Rebuilt = Rebuilt(graph: NodeData, procs: Procs, slots: seq<Option<int>>, externals: Ex.Externals)

  // ----- enumeration orders -----

  /** The nodes of `g` with ids from `lo` to `hi`, ascending. */
  function KeysBetween(g: NodeData, lo: int, hi: int): (r: seq<int>)
    ensures forall i :: 0 <= i < |r| ==> r[i] in g.nodes && lo <= r[i] <= hi
    ensures forall k :: k in g.nodes && lo <= k <= hi ==> k in r
    ensures forall i, j :: 0 <= i < j < |r| ==> r[i] < r[j]
    decreases hi - lo
  {
    if lo > hi then []
    else
      var rest := KeysBetween(g, lo + 1, hi);
      if lo in g.nodes then [lo] + rest else rest
  }

  /** The order in which `GetAllNodes` enumerates the table after an edit. A `Dictionary`
      enumerates in insertion and free-slot order, which the model does not fix: the
      caller passes `order`, and it is used whenever it lists every node once. Only for
      an `order` that does not is a stand-in, the ascending ids, taken. */
  function Enumeration(g: NodeData, order: seq<int>): (r: seq<int>)
    ensures Valid(g) ==> Enumerates(r, g.nodes.Keys)
    ensures Enumerates(order, g.nodes.Keys) ==> r == order
  {
    if Enumerates(order, g.nodes.Keys) then order else KeysBetween(g, g.lastDefaultId, g.lastId)
  }

  /** The dead ends of the node list, in the list's order: the enumeration order of the
      `HashSet` that `GetDeadEnds` fills from the list and only removes from. */
  function DeadEndOrder(g: NodeData, all: seq<int>, nodes: seq<int>): (r: seq<int>)
    ensures forall k :: k in r <==> k in nodes && !FedBy(g, all, k)
    ensures |r| <= |nodes|
    ensures forall i :: 0 <= i < |r| ==> r[i] in nodes
    ensures Distinct(nodes) ==> Distinct(r)
  {
    if nodes == [] then []
    else
      var rest := DeadEndOrder(g, all, nodes[1..]);
      assert forall k :: k in nodes <==> k == nodes[0] || k in nodes[1..];
      DistinctTail(nodes);
      DistinctTail([nodes[0]] + rest);
      assert ([nodes[0]] + rest)[1..] == rest;
      if FedBy(g, all, nodes[0]) then rest else [nodes[0]] + rest
  }

  /** The ordered dead ends hold exactly what `GetDeadEnds` returns. */
  method DeadEndsAgree(g: NodeData, order: seq<int>) returns (dead: set<int>)
    requires forall i :: 0 <= i < |order| ==> order[i] in g.nodes
    ensures forall k :: k in dead <==> k in DeadEndOrder(g, order, order)
  {
    dead := GetDeadEnds(g, order);
  }

  // ----- RebuildGraph -----

  /** How one dead end fared in `RebuildGraph`: the graph after its full type pass, the
      processors, the processor it compiled to, and whether it became an output. */
  datatype Admission = Admission(graph: NodeData, procs: Procs, processor: Option<int>, admitted: bool)

  /** One iteration of `RebuildGraph`'s loop: a cycle-protected type pass starting from an
      empty path, compilation, and the output test. The sink becomes an output iff
      `ValidateNodes` holds, its processor is not null, that processor has a `VoidOut`,
      and its declared (not cached) type is not Error. */
  function AdmitSink(g: NodeData, procs: Procs, id: int, fuel: nat): (r: Result<Admission>)
    requires T.WellFormed(g) && id in g.nodes
    ensures r.Success? ==> T.WellFormed(r.value.graph) && T.SameFrame(g, r.value.graph) && Grew(procs, r.value.procs)
    ensures r.Success? ==> T.LinksWithin(g, r.value.graph)
    ensures r.Success? && Owned(g, procs) ==> Owned(g, r.value.procs)
    ensures r.Success? && r.value.processor.Some? ==>
      r.value.processor == Some(id) && r.value.graph.nodes[id].cachedType != Error
    ensures r.Success? ==> (r.value.admitted <==>
      SinkValid(r.value.graph, id) && Runnable(r.value.procs, r.value.processor) && r.value.graph.nodes[id].outputType != Error)
  {
    var pass := T.UpdateTypes(g, id, {});
    var (compiled, pr) :- GetNodeProcessor(pass.graph, procs, id, fuel);
    var admitted := SinkValid(pass.graph, id) && Runnable(compiled, pr) && pass.graph.nodes[id].outputType != Error;
    Success(Admission(pass.graph, compiled, pr, admitted))
  }

  /** The outputs `RebuildGraph`'s loop collects from the dead ends `ids`, in order. */
  function AdmitSinks(g: NodeData, procs: Procs, ids: seq<int>, fuel: nat): (r: Result<(NodeData, Procs, seq<int>)>)
    requires T.WellFormed(g) && forall i :: 0 <= i < |ids| ==> ids[i] in g.nodes
    ensures r.Success? ==> T.WellFormed(r.value.0) && T.SameFrame(g, r.value.0) && Grew(procs, r.value.1)
    ensures r.Success? ==> T.LinksWithin(g, r.value.0)
    ensures r.Success? && Owned(g, procs) ==> Owned(g, r.value.1)
    decreases |ids|
  {
    if ids == [] then Success((g, procs, []))
    else match AdmitSink(g, procs, ids[0], fuel)
      case Failure(e) => Failure(e)
      case Success(a) =>
        TailInside(g, a.graph, ids);
        match AdmitSinks(a.graph, a.procs, ids[1..], fuel)
        case Failure(e) => Failure(e)
        case Success(rest) =>
          GrewTransitive(procs, a.procs, rest.1);
          T.LinksWithinTransitive(g, a.graph, rest.0);
          var outs := if a.admitted then [ids[0]] + rest.2 else rest.2;
          Success((rest.0, rest.1, outs))
  }

  /** The outputs collected are some of the dead ends visited, in their order, so a list
      of dead ends without repeats gives outputs without repeats. */
  lemma {:induction false} AdmitSinksOutputs(g: NodeData, procs: Procs, ids: seq<int>, fuel: nat)
    requires T.WellFormed(g) && forall i :: 0 <= i < |ids| ==> ids[i] in g.nodes
    ensures var r := AdmitSinks(g, procs, ids, fuel);
      r.Success? ==>
        |r.value.2| <= |ids| && (forall k :: k in r.value.2 ==> k in ids) &&
        (Distinct(ids) ==> Distinct(r.value.2))
    decreases |ids|
  {
    hide T.UpdateTypes, GetNodeProcessor, SinkValid, Runnable;
    var r := AdmitSinks(g, procs, ids, fuel);
    if ids != [] && r.Success? {
      var a := AdmitSink(g, procs, ids[0], fuel).value;
      TailInside(g, a.graph, ids);
      AdmitSinksOutputs(a.graph, a.procs, ids[1..], fuel);
      var rest := AdmitSinks(a.graph, a.procs, ids[1..], fuel).value;
      AdmitCons(ids, rest.2, r.value.2);
    }
  }

  /** The dead ends still to visit are still in the table after one sink's pass. */
  lemma {:induction false} TailInside(g: NodeData, h: NodeData, ids: seq<int>)
    requires ids != [] && g.nodes.Keys == h.nodes.Keys
    requires forall i :: 0 <= i < |ids| ==> ids[i] in g.nodes
    ensures forall i :: 0 <= i < |ids[1..]| ==> ids[1..][i] in h.nodes
  {
    forall i | 0 <= i < |ids[1..]| ensures ids[1..][i] in h.nodes {
      assert ids[1..][i] == ids[i + 1];
    }
  }

  /** The bookkeeping of one iteration of `RebuildGraph`'s loop. */
  lemma {:induction false} AdmitCons(ids: seq<int>, rest: seq<int>, outs: seq<int>)
    requires ids != [] && |rest| <= |ids| - 1 && forall k :: k in rest ==> k in ids[1..]
    requires Distinct(ids[1..]) ==> Distinct(rest)
    requires outs == rest || outs == [ids[0]] + rest
    ensures |outs| <= |ids| && forall k :: k in outs ==> k in ids
    ensures Distinct(ids) ==> Distinct(outs)
  {
    DistinctTail(ids);
    assert forall k :: k in ids[1..] ==> k in ids;
    if outs != rest {
      DistinctTail(outs);
      assert outs[0] == ids[0] && outs[1..] == rest;
    }
  }

  /** The invariant the editor keeps between edits: a valid node table with no dangling
      link in which every node is shaped as its class requires. */
  predicate Consistent(g: NodeData) {
    Valid(g) && Closed(g) && T.WellFormed(g)
  }

  /** A pass that keeps the frame and only drops links keeps the invariant. */
  lemma {:induction false} ConsistentWithin(g: NodeData, h: NodeData)
    requires Consistent(g) && T.WellFormed(h) && T.LinksWithin(g, h)
    requires h.nodes.Keys == g.nodes.Keys && h.lastId == g.lastId && h.lastDefaultId == g.lastDefaultId
    ensures Consistent(h)
  {
    forall id, i | id in h.nodes && 0 <= i < |h.nodes[id].inputs|
      ensures h.nodes[id].inputs[i].nodeId == NoNodeId || h.nodes[id].inputs[i].nodeId in h.nodes
    {
      assert id in g.nodes;
    }
  }

  /** `RebuildGraph`: every processor is discarded; each dead end of the node list (in the
      list's order) gets a full type pass and is compiled; the admitted dead ends replace
      `Outputs` wholesale; then `Prepare` runs, and the external-value lists are rebuilt
      from the prepared graph (created first if they were `null`, which makes no
      difference since every list is replaced). The node table keeps its ids and
      counters; `RebuildOutputs`, `RebuildWithin` and `RebuildExternals` state the rest. */
  function RebuildGraph(g: NodeData, order: seq<int>, fuel: nat): (r: Result<Rebuilt>)
    requires T.WellFormed(g) && Enumerates(order, g.nodes.Keys)
    ensures r.Success? ==> r.value.graph.nodes.Keys == g.nodes.Keys
    ensures r.Success? ==> r.value.graph.lastId == g.lastId && r.value.graph.lastDefaultId == g.lastDefaultId
    ensures r.Success? ==> r.value.externals.Lists?
  {
    var dead := DeadEndOrder(g, order, order);
    match AdmitSinks(g, map[], dead, fuel)
    case Failure(e) => Failure(e)
    case Success((h, procs, outs)) =>
      var h' := h.(outputs := outs);
      match Prepare(h', procs, fuel)
      case Failure(e) => Failure(e)
      case Success(prepared) =>
        assert Enumerates(order, prepared.graph.nodes.Keys);
        var ex := Ex.InitializeFrom(Ex.Uninitialised, prepared.graph, order);
        Success(Rebuilt(prepared.graph, prepared.procs, prepared.slots, ex))
  }

  /** The new `Outputs` are dead ends of the graph the rebuild started from, in the node
      list's order and without repeats; each prepared slot is null or the processor of
      its output; every processor belongs to a node. */
  lemma {:induction false} RebuildOutputs(g: NodeData, order: seq<int>, fuel: nat)
    requires T.WellFormed(g) && Enumerates(order, g.nodes.Keys)
    ensures var r := RebuildGraph(g, order, fuel);
      r.Success? ==>
        (forall k :: k in r.value.graph.outputs ==> k in DeadEndOrder(g, order, order)) &&
        Distinct(r.value.graph.outputs) && SlotsFor(r.value.slots, r.value.graph.outputs) &&
        Owned(g, r.value.procs)
  {
    hide AdmitSink, AdmitSinks, Prepare, DeadEndOrder, T.UpdateTypes, GetNodeProcessor;
    DistinctPairwise(order);
    var dead := DeadEndOrder(g, order, order);
    var r := RebuildGraph(g, order, fuel);
    if r.Success? {
      AdmitSinksOutputs(g, map[], dead, fuel);
      var (h, procs, outs) := AdmitSinks(g, map[], dead, fuel).value;
      var prepared := Prepare(h.(outputs := outs), procs, fuel).value;
      assert r.value.graph == prepared.graph && r.value.procs == prepared.procs && r.value.slots == prepared.slots;
    }
  }

  /** The rebuilt graph keeps every node shaped and only drops links. */
  lemma {:induction false} RebuildWithin(g: NodeData, order: seq<int>, fuel: nat)
    requires T.WellFormed(g) && Enumerates(order, g.nodes.Keys)
    ensures var r := RebuildGraph(g, order, fuel);
      r.Success? ==> T.WellFormed(r.value.graph) && T.LinksWithin(g, r.value.graph)
  {
    hide AdmitSink, AdmitSinks, Prepare, DeadEndOrder, T.UpdateTypes, GetNodeProcessor;
    var dead := DeadEndOrder(g, order, order);
    var r := RebuildGraph(g, order, fuel);
    if r.Success? {
      var (h, procs, outs) := AdmitSinks(g, map[], dead, fuel).value;
      var h' := h.(outputs := outs);
      var prepared := Prepare(h', procs, fuel).value;
      assert r.value.graph == prepared.graph;
      T.LinksWithinTransitive(g, h', prepared.graph);
    }
  }

  /** After a rebuild, each external-value list holds exactly the rebuilt graph's nodes
      of its kind marked as external, each once and under its own id and name. */
  lemma {:induction false} RebuildExternals(g: NodeData, order: seq<int>, fuel: nat, kind: Ex.ExternalKind)
    requires Consistent(g) && Enumerates(order, g.nodes.Keys)
    ensures var r := RebuildGraph(g, order, fuel);
      r.Success? ==>
        r.value.externals.Lists? &&
        (var h := r.value.graph;
         var list := r.value.externals.ListOf(kind);
         (forall id :: (id in h.nodes && Ex.IsExternalOf(h.nodes[id], kind)) <==> id in Ex.EntryIds(list)) &&
         (forall i :: 0 <= i < |list| ==> list[i].nodeId in h.nodes && list[i] == Ex.EntryOf(h.nodes[list[i].nodeId])) &&
         Ex.NoRepeats(Ex.EntryIds(list)))
  {
    hide AdmitSink, AdmitSinks, Prepare, DeadEndOrder, T.UpdateTypes, GetNodeProcessor, Ex.InitializeFrom;
    var r := RebuildGraph(g, order, fuel);
    RebuildKeepsConsistent(g, order, fuel);
    if r.Success? {
      var dead := DeadEndOrder(g, order, order);
      var (h, procs, outs) := AdmitSinks(g, map[], dead, fuel).value;
      var prepared := Prepare(h.(outputs := outs), procs, fuel).value;
      assert r.value.externals == Ex.InitializeFrom(Ex.Uninitialised, r.value.graph, order);
      Ex.ExternalsContents(Ex.Uninitialised, r.value.graph, order, kind);
    }
  }

  /** Every outcome of `RebuildGraph` keeps the editor's invariant; its outputs are
      dead ends of the graph it started from. */
  lemma {:induction false} RebuildKeepsConsistent(g: NodeData, order: seq<int>, fuel: nat)
    requires Consistent(g) && Enumerates(order, g.nodes.Keys)
    ensures var r := RebuildGraph(g, order, fuel);
      r.Success? ==>
        Consistent(r.value.graph) &&
        forall k :: k in r.value.graph.outputs ==> k in g.nodes && !FedBy(g, order, k)
  {
    hide RebuildGraph, DeadEndOrder, AdmitSinks, Prepare;
    var r := RebuildGraph(g, order, fuel);
    RebuildWithin(g, order, fuel);
    RebuildOutputs(g, order, fuel);
    if r.Success? {
      ConsistentWithin(g, r.value.graph);
    }
  }

  // ----- edits -----

  /** Removing a node keeps the invariant: the table only loses that node, and every
      other node keeps its class, declared type and number of links. */
  lemma {:induction false} RemoveKeepsConsistent(g: NodeData, id: int)
    requires Consistent(g)
    ensures Consistent(RemoveNode(g, id))
  {
    var h := RemoveNode(g, id);
    forall k | k in h.nodes ensures Shaped(h.nodes[k]) {
      assert |h.nodes[k].inputs| == |g.nodes[k].inputs|;
    }
  }

  /** The first half of `CreateNode(typeID, pos)`: the node is created under the next user
      id, placed, and given its default constants. An unknown type id creates nothing,
      and the placement then dereferences null. */
  function PlaceNode(g: NodeData, typeId: string, pos: Position): (r: Result<(NodeData, int)>)
    requires Consistent(g)
    ensures r.Failure? <==> KindForTypeId(typeId).None?
    ensures r.Success? ==> Consistent(r.value.0) && r.value.0.outputs == g.outputs
    ensures r.Success? ==> r.value.1 == g.lastId + 1 && r.value.1 !in g.nodes && g.nodes.Keys + {r.value.1} <= r.value.0.nodes.Keys
    ensures r.Success? ==> r.value.0.lastId == g.lastId + 1
  {
    var (placed, id) :- Placed(g, typeId, pos);
    D.InitNodeDefaultsShaped(D.CurrentId, placed, id);
    match D.InitNodeDefaults(D.CurrentId, placed, id)
    case Failure(e) => Failure(e)
    case Success(h) => Success((h, id))
  }

  /** The placed node is of the requested class, at the requested position, controllable,
      untyped, and every one of its links is served; every node the graph had is kept
      as it was. */
  lemma {:induction false} PlaceNodeAdds(g: NodeData, typeId: string, pos: Position)
    requires Consistent(g)
    ensures var r := PlaceNode(g, typeId, pos);
      r.Success? ==>
        var n := r.value.0.nodes[r.value.1];
        TypeId(n.kind) == typeId && n.position == pos && n.controllable && n.cachedType == NoType &&
        D.NodeServed(r.value.0, r.value.1) &&
        forall k :: k in g.nodes ==> r.value.0.nodes[k] == g.nodes[k]
  {
    hide CreateNode, CreateNodeWithId, KindForTypeId, Construct, Consistent;
    var r := PlaceNode(g, typeId, pos);
    if r.Success? {
      var (placed, id) := Placed(g, typeId, pos).value;
      assert r.value == (D.InitNodeDefaults(D.CurrentId, placed, id).value, id);
    }
  }

  /** `CreateNode(typeID)` followed by setting the new node's position; an unknown type
      id gives null, and setting its position dereferences it. */
  function Placed(g: NodeData, typeId: string, pos: Position): (r: Result<(NodeData, int)>)
    requires Consistent(g)
    ensures r.Failure? <==> KindForTypeId(typeId).None?
    ensures r.Success? ==>
      var (h, id) := r.value;
      id == g.lastId + 1 && id !in g.nodes && id in h.nodes &&
      h == g.(lastId := id, nodes := g.nodes[id := h.nodes[id]]) &&
      Valid(h) && Closed(h) && D.AllShaped(h)
    ensures r.Success? ==>
      var n := r.value.0.nodes[r.value.1];
      TypeId(n.kind) == typeId && n.position == pos && n.controllable && n.cachedType == NoType
  {
    match CreateNode(g, typeId)
    case Failure(e) => Failure(e)
    case Success((c, made)) =>
      if made.None? then Failure("null reference")
      else
        var id := made.value.id;
        PlacedConsistent(g, typeId, pos);
        Success((c.(nodes := c.nodes[id := made.value.(position := pos)]), id))
  }

  /** The node `CreateNode` adds, once placed, leaves a consistent graph. */
  lemma {:induction false} PlacedConsistent(g: NodeData, typeId: string, pos: Position)
    requires Consistent(g)
    ensures var c := CreateNode(g, typeId).value;
      c.1.Some? ==>
        var placed := c.0.(nodes := c.0.nodes[c.1.value.id := c.1.value.(position := pos)]);
        Valid(placed) && Closed(placed) && D.AllShaped(placed) && c.1.value.id !in g.nodes &&
        placed.nodes == g.nodes[c.1.value.id := c.1.value.(position := pos)]
  {
    hide KindForTypeId, TypeId, Construct, Fresh, CreateNodeWithId;
    var c := CreateNode(g, typeId).value;
    if c.1.Some? {
      var n := c.1.value;
      assert c.0.nodes == g.nodes[n.id := n];
      var placed := c.0.(nodes := c.0.nodes[n.id := n.(position := pos)]);
      assert placed == g.(lastId := n.id, nodes := g.nodes[n.id := n.(position := pos)]);
      AddUnlinked(g, n.(position := pos));
    }
  }

  /** Adding a shaped node that links nothing under the next user id keeps the table
      valid, closed and shaped. */
  lemma {:induction false} AddUnlinked(g: NodeData, n: Node)
    requires Consistent(g) && n.id == g.lastId + 1 && Shaped(n)
    requires forall i :: 0 <= i < |n.inputs| ==> n.inputs[i].nodeId == NoNodeId
    ensures var h := g.(lastId := n.id, nodes := g.nodes[n.id := n]);
      Valid(h) && Closed(h) && D.AllShaped(h) && n.id !in g.nodes
  {
  }

  /** `CreateNode(typeID, pos)`: place the node, then rebuild over the node list in the
      table's enumeration order. The editor's invariant is kept, the table keeps every node it had
      and gains the new one under the next user id. */
  function EditorCreateNode(s: Rebuilt, typeId: string, pos: Position, order: seq<int>, fuel: nat): (r: Result<(Rebuilt, int)>)
    requires Consistent(s.graph)
    ensures KindForTypeId(typeId).None? ==> r.Failure?
    ensures r.Success? ==> Consistent(r.value.0.graph)
    ensures r.Success? ==> r.value.1 == s.graph.lastId + 1 && r.value.1 !in s.graph.nodes
    ensures r.Success? ==> s.graph.nodes.Keys + {r.value.1} <= r.value.0.graph.nodes.Keys
    ensures r.Success? ==> r.value.0.graph.lastId == s.graph.lastId + 1
  {
    match PlaceNode(s.graph, typeId, pos)
    case Failure(e) => Failure(e)
    case Success((h, id)) =>
      RebuildKeepsConsistent(h, Enumeration(h, order), fuel);
      match RebuildGraph(h, Enumeration(h, order), fuel)
      case Failure(e) => Failure(e)
      case Success(rb) => Success((rb, id))
  }

  /** `RemoveNode(node)`: a node the user may not control is left alone and nothing is
      rebuilt; otherwise it leaves the table, every link to it is cut, and the graph is
      rebuilt. */
  function EditorRemoveNode(s: Rebuilt, id: int, order: seq<int>, fuel: nat): (r: Result<Rebuilt>)
    requires Consistent(s.graph) && id in s.graph.nodes
    ensures !s.graph.nodes[id].controllable ==> r == Success(s)
    ensures r.Success? ==> Consistent(r.value.graph)
    ensures r.Success? && s.graph.nodes[id].controllable ==> r.value.graph.nodes.Keys == s.graph.nodes.Keys - {id}
  {
    if !s.graph.nodes[id].controllable then Success(s)
    else
      var h := RemoveNode(s.graph, id);
      RemoveKeepsConsistent(s.graph, id);
      RebuildKeepsConsistent(h, Enumeration(h, order), fuel);
      RebuildGraph(h, Enumeration(h, order), fuel)
  }

  /** The selected nodes the user may control. */
  function Doomed(g: NodeData, selection: seq<int>): set<int> {
    set k | k in selection && k in g.nodes && g.nodes[k].controllable
  }

  /** `RemoveSelected`'s loop over the selection (a set of the graph's nodes, in its
      enumeration order): each controllable node is removed; the others stay. */
  function RemoveControllable(g: NodeData, selection: seq<int>): (r: NodeData)
    requires Distinct(selection) && forall i :: 0 <= i < |selection| ==> selection[i] in g.nodes
    ensures r.nodes.Keys == g.nodes.Keys - Doomed(g, selection)
    ensures forall k :: k in r.nodes ==> r.nodes[k] == g.nodes[k].(inputs := r.nodes[k].inputs)
    ensures Consistent(g) ==> Consistent(r)
    decreases |selection|
  {
    if selection == [] then g
    else
      var id := selection[0];
      var h := if g.nodes[id].controllable then RemoveNode(g, id) else g;
      RemoveStep(g, h, selection);
      var r := RemoveControllable(h, selection[1..]);
      assert Doomed(g, selection) == Doomed(h, selection[1..]) + (if g.nodes[id].controllable then {id} else {});
      r
  }

  /** The bookkeeping of one iteration of `RemoveSelected`'s loop. */
  lemma {:induction false} RemoveStep(g: NodeData, h: NodeData, selection: seq<int>)
    requires selection != [] && Distinct(selection) && forall i :: 0 <= i < |selection| ==> selection[i] in g.nodes
    requires h == (if g.nodes[selection[0]].controllable then RemoveNode(g, selection[0]) else g)
    ensures Distinct(selection[1..]) && forall i :: 0 <= i < |selection[1..]| ==> selection[1..][i] in h.nodes
    ensures Consistent(g) ==> Consistent(h)
    ensures forall k :: k in h.nodes ==> h.nodes[k] == g.nodes[k].(inputs := h.nodes[k].inputs)
    ensures Doomed(g, selection) == Doomed(h, selection[1..]) + (if g.nodes[selection[0]].controllable then {selection[0]} else {})
  {
    DistinctTail(selection);
    if Consistent(g) && g.nodes[selection[0]].controllable {
      RemoveKeepsConsistent(g, selection[0]);
    }
    forall i | 0 <= i < |selection[1..]| ensures selection[1..][i] in h.nodes {
      assert selection[1..][i] == selection[i + 1] != selection[0];
    }
  }

  /** `RemoveSelected`: every controllable selected node is removed, every other node
      stays, and the graph is rebuilt (even when nothing was removed). */
  function RemoveSelected(s: Rebuilt, selection: seq<int>, order: seq<int>, fuel: nat): (r: Result<Rebuilt>)
    requires Consistent(s.graph)
    requires Distinct(selection) && forall i :: 0 <= i < |selection| ==> selection[i] in s.graph.nodes
    ensures r.Success? ==> Consistent(r.value.graph)
    ensures r.Success? ==> r.value.graph.nodes.Keys == s.graph.nodes.Keys - Doomed(s.graph, selection)
  {
    var h := RemoveControllable(s.graph, selection);
    RebuildKeepsConsistent(h, Enumeration(h, order), fuel);
    RebuildGraph(h, Enumeration(h, order), fuel)
  }
}
