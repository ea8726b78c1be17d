/** Compiling the graph into processors (`NodeData.GetNodeProcessor`, `Prepare`,
    `Process`) and the two graph queries the rebuild uses (`GetDeadEnds`,
    `ValidateNodes`). A processor's evaluation functions are not modelled; what is
    modelled is which processor each input slot resolves to, how often each processor was
    requested, and when its accessors were wrapped in the frame cache. */
module Processors {
  import opened Wrappers
  import opened ValueTypes
  import opened Links
  import opened Nodes
  import opened Graph
  import T = Typing
  import V = ValueNodes

  /** A node's `NodeProcessor`: the processors its input slots resolved to (by node id;
      `None` is null), `OutputCount`, how many times `SeveralOutputsOptimisation`
      wrapped its accessors, and whether `InitializeNodeProcessor` gave it a `VoidOut`. */
  datatype Proc = Proc(inputs: seq<Option<int>>, outputCount: nat, wraps: nat, hasVoidOut: bool)

  /** `node.Processor` of every node that has one. */
  type Procs = map<int, Proc>

  /** Only a value node in output mode writes something back, through `VoidOut`. */
  predicate HasVoidOut(n: Node) {
    n.kind.ValueNode? && n.kind.ioMode == V.Output
  }

  /** The processor `GetNodeProcessor` creates: one null slot per input of the node. */
  function NewProc(n: Node): Proc {
    Proc(seq(|n.inputs|, _ => None), 0, 0, HasVoidOut(n))
  }

  /** `OutputCount` of node `id`'s processor, 0 while it has none. */
  function Count(procs: Procs, id: int): nat {
    if id in procs then procs[id].outputCount else 0
  }

  /** Every processor belongs to a node of `g` and has one slot per input of it. */
  predicate Fits(g: NodeData, procs: Procs) {
    forall k :: k in procs ==>
      k in g.nodes && |procs[k].inputs| == |g.nodes[k].inputs| && procs[k].hasVoidOut == HasVoidOut(g.nodes[k])
  }

  /** Every processor belongs to a node of `g`. */
  predicate Owned(g: NodeData, procs: Procs) {
    forall k :: k in procs ==> k in g.nodes
  }

  /** Compilation never drops or replaces a processor: each keeps its slots, and its
      counts only go up. */
  predicate Grew(a: Procs, b: Procs) {
    forall k :: k in a ==>
      k in b && |b[k].inputs| == |a[k].inputs| && b[k].hasVoidOut == a[k].hasVoidOut &&
      b[k].outputCount >= a[k].outputCount && b[k].wraps >= a[k].wraps
  }

  lemma {:induction false} GrewTransitive(a: Procs, b: Procs, c: Procs)
    requires Grew(a, b) && Grew(b, c)
    ensures Grew(a, c)
  {
  }

  /** Why compilation failed: the recursion ran out (a stack overflow in the source) or
      a processor had fewer slots than its node has inputs. */
  const StackOverflow := "stack overflow"
  const OutOfRange := "index out of range"

  /** `GetNodeProcessor(GetNode(id))`, with `fuel` bounding the recursion depth. A
      missing or Error-typed node gives null. Otherwise the node's processor is created
      if it has none, its count goes up, and each input slot is resolved in order; a
      required input that resolves to null makes the call return null at once. A call
      that completes when the count is exactly 2 wraps the accessors. */
  function GetNodeProcessor(g: NodeData, procs: Procs, id: int, fuel: nat): (r: Result<(Procs, Option<int>)>)
    ensures fuel > 0 && (id !in g.nodes || g.nodes[id].cachedType == Error) ==> r == Success((procs, None))
    ensures r.Success? ==> Grew(procs, r.value.0)
    ensures r.Success? && Owned(g, procs) ==> Owned(g, r.value.0)
    ensures r.Success? && Fits(g, procs) ==> Fits(g, r.value.0)
    ensures r.Success? && r.value.1.Some? ==> r.value.1.value == id && id in g.nodes && g.nodes[id].cachedType != Error
    ensures r.Success? && id in g.nodes && g.nodes[id].cachedType != Error ==>
      id in r.value.0 && r.value.0[id].outputCount > Count(procs, id)
    decreases fuel, 0, 0
  {
    if fuel == 0 then Failure(StackOverflow)
    else if id !in g.nodes || g.nodes[id].cachedType == Error then Success((procs, None))
    else
      var (after, complete) :- ResolveInputs(g, Visit(g, procs, id), id, 0, fuel - 1);
      Success(Finish(after, complete, id))
  }

  /** The start of a request for node `id`: its processor is created if it has none, and
      its count goes up by one; no other processor changes. */
  function Visit(g: NodeData, procs: Procs, id: int): (v: Procs)
    requires id in g.nodes
    ensures id in v && v[id].outputCount == Count(procs, id) + 1
    ensures id in procs ==> v[id] == procs[id].(outputCount := procs[id].outputCount + 1)
    ensures id !in procs ==> v[id] == NewProc(g.nodes[id]).(outputCount := 1)
    ensures v.Keys == procs.Keys + {id} && forall k :: k in procs && k != id ==> v[k] == procs[k]
    ensures Grew(procs, v)
    ensures Owned(g, procs) ==> Owned(g, v)
    ensures Fits(g, procs) ==> Fits(g, v)
  {
    var p := if id in procs then procs[id] else NewProc(g.nodes[id]);
    procs[id := p.(outputCount := p.outputCount + 1)]
  }

  /** The end of a request for node `id` whose input loop left `after`: null if a
      required input was null; otherwise `id` itself, and when `id` has now been
      requested exactly twice its accessors are wrapped. */
  function Finish(after: Procs, complete: bool, id: int): (r: (Procs, Option<int>))
    requires id in after
    ensures r.1 == (if complete then Some(id) else None)
    ensures r.0.Keys == after.Keys && forall k :: k in after && k != id ==> r.0[k] == after[k]
    ensures r.0[id] == after[id].(wraps := r.0[id].wraps)
    ensures r.0[id].wraps == after[id].wraps + (if complete && after[id].outputCount == 2 then 1 else 0)
    ensures Grew(after, r.0)
  {
    if !complete then (after, None)
    else if after[id].outputCount == 2 then (after[id := after[id].(wraps := after[id].wraps + 1)], Some(id))
    else (after, Some(id))
  }

  /** The input loop of `GetNodeProcessor` from slot `i` on: each slot is set to what its
      link resolves to; the flag is false when a required input resolved to null. */
  function ResolveInputs(g: NodeData, procs: Procs, id: int, i: nat, fuel: nat): (r: Result<(Procs, bool)>)
    requires id in g.nodes && id in procs && i <= |g.nodes[id].inputs|
    ensures r.Success? ==> Grew(procs, r.value.0) && id in r.value.0
    ensures r.Success? && Owned(g, procs) ==> Owned(g, r.value.0)
    ensures r.Success? && Fits(g, procs) ==> Fits(g, r.value.0)
    decreases fuel, 1, |g.nodes[id].inputs| - i
  {
    var ins := g.nodes[id].inputs;
    if i == |ins| then Success((procs, true))
    else
      var (after, q) :- GetNodeProcessor(g, procs, ins[i].nodeId, fuel);
      if i >= |after[id].inputs| then Failure(OutOfRange)
      else
        var slotted := Slot(g, after, id, i, q);
        if ValueRequired(ins[i]) && q.None? then Success((slotted, false))
        else ResolveInputs(g, slotted, id, i + 1, fuel)
  }

  /** Input slot `i` of node `id`'s processor set to `q`; nothing else changes. */
  function Slot(g: NodeData, procs: Procs, id: int, i: nat, q: Option<int>): (s: Procs)
    requires id in procs && i < |procs[id].inputs|
    ensures s.Keys == procs.Keys && forall k :: k in procs && k != id ==> s[k] == procs[k]
    ensures s[id] == procs[id].(inputs := s[id].inputs) && |s[id].inputs| == |procs[id].inputs|
    ensures s[id].inputs[i] == q && forall j :: 0 <= j < |procs[id].inputs| && j != i ==> s[id].inputs[j] == procs[id].inputs[j]
    ensures Grew(procs, s)
    ensures Owned(g, procs) ==> Owned(g, s)
    ensures Fits(g, procs) ==> Fits(g, s)
  {
    procs[id := procs[id].(inputs := procs[id].inputs[i := q])]
  }

  // ----- on an acyclic graph -----

  /** No processor's accessors are wrapped twice, and one that is wrapped was requested
      at least twice. */
  predicate WrappedOnce(procs: Procs) {
    forall k :: k in procs ==> procs[k].wraps <= 1 && (procs[k].wraps == 1 ==> procs[k].outputCount >= 2)
  }

  /** Every processor of a node ranked at or above `id`, other than `id`'s own, is as it
      was. */
  predicate Untouched(a: Procs, b: Procs, rank: map<int, nat>, id: int)
    requires id in rank
  {
    forall k :: k in a && k != id && k in rank && rank[k] >= rank[id] ==> k in b && b[k] == a[k]
  }

  /** On an acyclic graph a request never re-enters the node it is compiling: it counts
      that node exactly once, touches no node ranked at or above it, wraps accessors at
      most once per processor, and when it returns a processor every required input slot
      of that processor holds one. */
  lemma {:induction false} AcyclicRequest(g: NodeData, rank: map<int, nat>, procs: Procs, id: int, fuel: nat)
    requires T.Ranked(g, rank) && Fits(g, procs) && WrappedOnce(procs)
    requires GetNodeProcessor(g, procs, id, fuel).Success?
    ensures var (after, q) := GetNodeProcessor(g, procs, id, fuel).value;
      WrappedOnce(after) &&
      (id !in g.nodes ==> after == procs) &&
      (id in g.nodes ==> id in rank && Untouched(procs, after, rank, id)) &&
      (id in g.nodes && g.nodes[id].cachedType != Error ==> after[id].outputCount == Count(procs, id) + 1) &&
      (q.Some? ==> forall i :: 0 <= i < |g.nodes[id].inputs| && ValueRequired(g.nodes[id].inputs[i]) ==>
        i < |after[id].inputs| && after[id].inputs[i].Some?)
    decreases fuel, 0, 0
  {
    hide ResolveInputs, Visit, Finish;
    if id in g.nodes && g.nodes[id].cachedType != Error {
      var visited := Visit(g, procs, id);
      VisitKeepsWrappedOnce(g, procs, id);
      AcyclicResolve(g, rank, visited, id, 0, fuel - 1);
      var (after, complete) := ResolveInputs(g, visited, id, 0, fuel - 1).value;
      FinishKeeps(g, rank, procs, visited, after, complete, id);
    } else if id in g.nodes {
      assert id in rank;
    }
  }

  lemma {:induction false} VisitKeepsWrappedOnce(g: NodeData, procs: Procs, id: int)
    requires id in g.nodes && WrappedOnce(procs)
    ensures WrappedOnce(Visit(g, procs, id))
  {
  }

  /** Closing an acyclic request keeps processors wrapped at most once and leaves the
      nodes ranked at or above `id` alone. */
  lemma {:induction false} FinishKeeps(g: NodeData, rank: map<int, nat>, procs: Procs, visited: Procs, after: Procs, complete: bool, id: int)
    requires id in g.nodes && id in rank && Fits(g, procs) && WrappedOnce(procs)
    requires visited == Visit(g, procs, id)
    requires WrappedOnce(after) && Untouched(visited, after, rank, id) && id in after
    requires after[id].outputCount == visited[id].outputCount && after[id].wraps == visited[id].wraps
    requires |after[id].inputs| == |visited[id].inputs|
    requires complete ==> forall j :: 0 <= j < |g.nodes[id].inputs| && ValueRequired(g.nodes[id].inputs[j]) ==> after[id].inputs[j].Some?
    ensures var (r, q) := Finish(after, complete, id);
      WrappedOnce(r) && Untouched(procs, r, rank, id) && r[id].outputCount == Count(procs, id) + 1 &&
      (q.Some? ==> forall i :: 0 <= i < |g.nodes[id].inputs| && ValueRequired(g.nodes[id].inputs[i]) ==>
        i < |r[id].inputs| && r[id].inputs[i].Some?)
  {
    assert |visited[id].inputs| == |g.nodes[id].inputs|;
  }

  /** The input loop of an acyclic request: it keeps `id`'s count, wrap count and the
      slots before `i`, and when it completes every required slot from `i` on holds a
      processor. */
  lemma {:induction false} AcyclicResolve(g: NodeData, rank: map<int, nat>, procs: Procs, id: int, i: nat, fuel: nat)
    requires T.Ranked(g, rank) && Fits(g, procs) && WrappedOnce(procs)
    requires id in g.nodes && id in procs && i <= |g.nodes[id].inputs|
    requires ResolveInputs(g, procs, id, i, fuel).Success?
    ensures var (after, complete) := ResolveInputs(g, procs, id, i, fuel).value;
      WrappedOnce(after) && id in rank && Untouched(procs, after, rank, id) &&
      after[id].outputCount == procs[id].outputCount && after[id].wraps == procs[id].wraps &&
      |after[id].inputs| == |procs[id].inputs| &&
      (forall j :: 0 <= j < i ==> after[id].inputs[j] == procs[id].inputs[j]) &&
      (complete ==> forall j :: i <= j < |g.nodes[id].inputs| && ValueRequired(g.nodes[id].inputs[j]) ==> after[id].inputs[j].Some?)
    decreases fuel, 1, |g.nodes[id].inputs| - i
  {
    hide GetNodeProcessor, Visit, Finish;
    var ins := g.nodes[id].inputs;
    if i < |ins| {
      var c := ins[i].nodeId;
      var (after, q) := GetNodeProcessor(g, procs, c, fuel).value;
      AcyclicRequest(g, rank, procs, c, fuel);
      if c in g.nodes {
        assert rank[c] < rank[id];
      }
      assert after[id] == procs[id];
      var slotted := Slot(g, after, id, i, q);
      hide Slot;
      assert WrappedOnce(slotted);
      assert forall j :: 0 <= j < i ==> slotted[id].inputs[j] == procs[id].inputs[j];
      if !(ValueRequired(ins[i]) && q.None?) {
        AcyclicResolve(g, rank, slotted, id, i + 1, fuel);
        var final := ResolveInputs(g, slotted, id, i + 1, fuel).value.0;
        assert ResolveInputs(g, procs, id, i, fuel).value.0 == final;
        assert forall j :: 0 <= j < i ==> final[id].inputs[j] == slotted[id].inputs[j];
      }
    }
  }

  /** Requesting a node again requests its inputs again: the first input's processor is
      counted once more, even when it already existed. */
  lemma {:induction false} FirstInputRequestedAgain(g: NodeData, procs: Procs, id: int, fuel: nat)
    requires id in g.nodes && g.nodes[id].cachedType != Error && |g.nodes[id].inputs| > 0
    requires g.nodes[id].inputs[0].nodeId in g.nodes && g.nodes[g.nodes[id].inputs[0].nodeId].cachedType != Error
    requires GetNodeProcessor(g, procs, id, fuel).Success?
    ensures var c := g.nodes[id].inputs[0].nodeId;
      Count(GetNodeProcessor(g, procs, id, fuel).value.0, c) > Count(procs, c)
  {
    var c := g.nodes[id].inputs[0].nodeId;
    var visited := Visit(g, procs, id);
    assert Count(visited, c) >= Count(procs, c);
    var sub := GetNodeProcessor(g, visited, c, fuel - 1).value;
    assert Count(sub.0, c) > Count(visited, c);
    var resolved := ResolveInputs(g, visited, id, 0, fuel - 1).value;
    assert Count(resolved.0, c) >= Count(sub.0, c);
  }

  // ----- Prepare and Process -----

  /** What `Prepare` leaves: the graph after its light type passes, the processors, and
      `_processors`, one slot per entry of `Outputs`. */
  datatype Prepared = Prepared(graph: NodeData, procs: Procs, slots: seq<Option<int>>)

  /** `Prepare`: for each sink in `Outputs`, in order, a light type pass and then its
      processor. A sink id with no node is a null dereference; a pass or a compilation
      that does not end is a stack overflow. */
  function Prepare(g: NodeData, procs: Procs, fuel: nat): (r: Result<Prepared>)
    requires T.WellFormed(g)
    ensures r.Success? ==> SlotsFor(r.value.slots, g.outputs) && r.value.graph.outputs == g.outputs
    ensures (exists j :: 0 <= j < |g.outputs| && g.outputs[j] !in g.nodes) ==> r.Failure?
    ensures r.Success? ==> Grew(procs, r.value.procs) && T.WellFormed(r.value.graph)
    ensures r.Success? ==> T.SameFrame(g, r.value.graph) && T.LinksWithin(g, r.value.graph)
    ensures r.Success? && Owned(g, procs) ==> Owned(g, r.value.procs)
  {
    var r := PrepareFrom(g, procs, 0, fuel);
    assert g.outputs[0..] == g.outputs;
    r
  }

  /** `EndInputInit`: the unclaimed graph inputs and outputs are removed, then `Prepare`
      runs. `RemoveNode` leaves `Outputs` alone, so an output removed here that is still
      listed as a sink makes `Prepare` dereference `null`. */
  function EndInputInit(g: NodeData, pending: map<string, int>, names: seq<string>, procs: Procs, fuel: nat): (r: Result<Prepared>)
    requires T.WellFormed(g)
    requires forall i :: 0 <= i < |names| ==> names[i] in pending
    ensures r.Success? ==> forall k :: k in r.value.graph.nodes <==>
      k in g.nodes && (KeptExternal(g, k) || k !in Unclaimed(pending, names))
    ensures r.Success? ==> SlotsFor(r.value.slots, g.outputs) && r.value.graph.outputs == g.outputs
    ensures (exists j :: 0 <= j < |g.outputs| && g.outputs[j] in Unclaimed(pending, names) && !KeptExternal(g, g.outputs[j])) ==>
      r.Failure?
  {
    var h := RemoveUnclaimed(g, pending, names);
    assert T.WellFormed(h) by {
      forall id | id in h.nodes ensures h.nodes[id].id == id && Shaped(h.nodes[id]) {
        assert Shaped(g.nodes[id]);
      }
    }
    Prepare(h, procs, fuel)
  }

  /** Slot `j` of `_processors` is null or the processor of sink `outs[j]`. */
  predicate SlotsFor(slots: seq<Option<int>>, outs: seq<int>) {
    |slots| == |outs| && forall j :: 0 <= j < |slots| ==> slots[j].None? || slots[j] == Some(outs[j])
  }

  lemma {:induction false} SlotsForCons(s: Option<int>, slots: seq<Option<int>>, out: int, outs: seq<int>)
    requires s.None? || s == Some(out)
    requires SlotsFor(slots, outs)
    ensures SlotsFor([s] + slots, [out] + outs)
  {
  }

  /** `Prepare`'s loop from sink `i` on. */
  function PrepareFrom(g: NodeData, procs: Procs, i: nat, fuel: nat): (r: Result<Prepared>)
    requires T.WellFormed(g) && i <= |g.outputs|
    ensures r.Success? ==> SlotsFor(r.value.slots, g.outputs[i..]) && r.value.graph.outputs == g.outputs
    ensures r.Success? ==> forall k :: k in g.outputs[i..] ==> k in g.nodes
    ensures r.Success? ==> Grew(procs, r.value.procs) && T.WellFormed(r.value.graph)
    ensures r.Success? ==> T.SameFrame(g, r.value.graph) && T.LinksWithin(g, r.value.graph)
    ensures r.Success? && Owned(g, procs) ==> Owned(g, r.value.procs)
    decreases |g.outputs| - i
  {
    if i == |g.outputs| then Success(Prepared(g, procs, []))
    else match PrepareSink(g, procs, g.outputs[i], fuel)
      case Failure(e) => Failure(e)
      case Success(step) =>
        match PrepareFrom(step.graph, step.procs, i + 1, fuel)
        case Failure(e) => Failure(e)
        case Success(rest) =>
          PrepareCons(g, i, step, rest);
          GrewTransitive(procs, step.procs, rest.procs);
          T.LinksWithinTransitive(g, step.graph, rest.graph);
          Success(Prepared(rest.graph, rest.procs, step.slots + rest.slots))
  }

  /** The bookkeeping of one iteration of `Prepare`'s loop. */
  lemma {:induction false} PrepareCons(g: NodeData, i: nat, step: Prepared, rest: Prepared)
    requires i < |g.outputs| && step.graph.outputs == g.outputs
    requires |step.slots| == 1 && (step.slots[0].None? || step.slots[0] == Some(g.outputs[i]))
    requires SlotsFor(rest.slots, g.outputs[i + 1..])
    ensures SlotsFor(step.slots + rest.slots, g.outputs[i..])
  {
    assert g.outputs[i..] == [g.outputs[i]] + g.outputs[i + 1..];
    SlotsForCons(step.slots[0], rest.slots, g.outputs[i], g.outputs[i + 1..]);
    assert step.slots == [step.slots[0]];
  }

  /** One iteration of `Prepare`'s loop: the light type pass over sink `id`, then its
      processor, as a one-slot `Prepared`. */
  function PrepareSink(g: NodeData, procs: Procs, id: int, fuel: nat): (r: Result<Prepared>)
    requires T.WellFormed(g)
    ensures r.Success? ==> id in g.nodes && |r.value.slots| == 1 && (r.value.slots[0].None? || r.value.slots[0] == Some(id))
    ensures r.Success? ==> T.WellFormed(r.value.graph) && T.SameFrame(g, r.value.graph) && Grew(procs, r.value.procs)
    ensures r.Success? ==> T.LinksWithin(g, r.value.graph)
    ensures r.Success? && Owned(g, procs) ==> Owned(g, r.value.procs)
  {
    if id !in g.nodes then Failure("null reference")
    else match T.UpdateTypesLight(g, id, fuel)
      case None => Failure(StackOverflow)
      case Some(pass) =>
        var (compiled, q) :- GetNodeProcessor(pass.graph, procs, id, fuel);
        Success(Prepared(pass.graph, compiled, [q]))
  }

  /** What one `Process` tick did: the new frame number, the sinks whose `VoidOut` ran,
      in order, and whether the loop stopped on a null processor or a null `VoidOut`. */
  datatype Tick = Tick(frame: int, calls: seq<int>, failed: bool)

  /** A slot holds a processor with a `VoidOut`. */
  predicate Runnable(procs: Procs, slot: Option<int>) {
    slot.Some? && slot.value in procs && procs[slot.value].hasVoidOut
  }

  /** `Process`: the frame counter goes up exactly once, before anything is evaluated,
      and then each prepared sink's `VoidOut` runs once in `Outputs` order. Before the
      first `Prepare` there is nothing to run. */
  function Process(frame: int, slots: Option<seq<Option<int>>>, procs: Procs): (r: Tick)
    ensures r.frame == frame + 1
    ensures slots.None? ==> r.calls == [] && !r.failed
    ensures slots.Some? ==> |r.calls| <= |slots.value|
    ensures slots.Some? ==> forall j :: 0 <= j < |r.calls| ==> slots.value[j] == Some(r.calls[j])
    ensures slots.Some? ==> (!r.failed <==> forall j :: 0 <= j < |slots.value| ==> Runnable(procs, slots.value[j]))
    ensures slots.Some? && !r.failed ==> |r.calls| == |slots.value|
  {
    match slots
    case None => Tick(frame + 1, [], false)
    case Some(ss) =>
      var (calls, failed) := RunSinks(ss, procs);
      Tick(frame + 1, calls, failed)
  }

  /** The `VoidOut` loop of `Process`. */
  function RunSinks(ss: seq<Option<int>>, procs: Procs): (r: (seq<int>, bool))
    ensures |r.0| <= |ss| && forall j :: 0 <= j < |r.0| ==> ss[j] == Some(r.0[j])
    ensures !r.1 <==> forall j :: 0 <= j < |ss| ==> Runnable(procs, ss[j])
    ensures !r.1 ==> |r.0| == |ss|
  {
    if ss == [] then ([], false)
    else if !Runnable(procs, ss[0]) then ([], true)
    else
      var (calls, failed) := RunSinks(ss[1..], procs);
      assert forall j :: 1 <= j < |ss| ==> ss[j] == ss[1..][j - 1];
      ([ss[0].value] + calls, failed)
  }

  // ----- graph queries -----

  /** Some input of a node listed in `nodes` links to `k`. */
  predicate FedBy(g: NodeData, nodes: seq<int>, k: int) {
    exists i, j :: 0 <= i < |nodes| && nodes[i] in g.nodes && 0 <= j < |g.nodes[nodes[i]].inputs| &&
      g.nodes[nodes[i]].inputs[j].nodeId == k
  }

  /** `GetDeadEnds(nodes)`: the listed nodes that no input of a listed node links to,
      i.e. the sinks of the listed part of the graph. */
  method GetDeadEnds(g: NodeData, nodes: seq<int>) returns (dead: set<int>)
    requires forall i :: 0 <= i < |nodes| ==> nodes[i] in g.nodes
    ensures forall k :: k in dead <==> k in nodes && !FedBy(g, nodes, k)
  {
    dead := set k | k in nodes;
    var i := 0;
    while i < |nodes|
      invariant 0 <= i <= |nodes|
      invariant forall k :: k in dead <==> k in nodes && !FedBy(g, nodes[..i], k)
    {
      var ins := g.nodes[nodes[i]].inputs;
      var j := 0;
      while j < |ins|
        invariant 0 <= j <= |ins|
        invariant forall k :: k in dead <==>
          k in nodes && !FedBy(g, nodes[..i], k) && !(exists jj :: 0 <= jj < j && ins[jj].nodeId == k)
      {
        var inNode := GetNode(g, ins[j].nodeId);
        if inNode.Some? {
          dead := dead - {ins[j].nodeId};
        }
        j := j + 1;
      }
      forall k | FedBy(g, nodes[..i + 1], k)
        ensures FedBy(g, nodes[..i], k) || exists jj :: 0 <= jj < |ins| && ins[jj].nodeId == k
      {
        var a, b :| 0 <= a < i + 1 && nodes[..i + 1][a] in g.nodes && 0 <= b < |g.nodes[nodes[..i + 1][a]].inputs| &&
          g.nodes[nodes[..i + 1][a]].inputs[b].nodeId == k;
        if a < i {
          assert nodes[..i][a] == nodes[a];
        }
      }
      forall k | FedBy(g, nodes[..i], k) ensures FedBy(g, nodes[..i + 1], k) {
        var a, b :| 0 <= a < i && nodes[..i][a] in g.nodes && 0 <= b < |g.nodes[nodes[..i][a]].inputs| &&
          g.nodes[nodes[..i][a]].inputs[b].nodeId == k;
        assert nodes[..i + 1][a] == nodes[..i][a];
      }
      forall jj | 0 <= jj < |ins| ensures FedBy(g, nodes[..i + 1], ins[jj].nodeId) {
        assert nodes[..i + 1][i] == nodes[i];
      }
      i := i + 1;
    }
    assert nodes[..i] == nodes;
  }

  /** What `ValidateNodes` demands of a sink: it exists and is not Error-typed, no
      input is declared Error, and every required input links to an existing node that is
      not Error-typed. */
  predicate SinkValid(g: NodeData, id: int) {
    id in g.nodes && g.nodes[id].cachedType != Error &&
    forall i :: 0 <= i < |g.nodes[id].inputs| ==>
      g.nodes[id].inputs[i].ty != Error &&
      (ValueRequired(g.nodes[id].inputs[i]) ==>
        g.nodes[id].inputs[i].nodeId in g.nodes && g.nodes[g.nodes[id].inputs[i].nodeId].cachedType != Error)
  }

  /** `ValidateNodes(GetNode(id))`, which stops at the first offending input. */
  method ValidateNodes(g: NodeData, id: int) returns (ok: bool)
    ensures ok <==> SinkValid(g, id)
  {
    var node := GetNode(g, id);
    if node.None? || node.value.cachedType == Error {
      return false;
    }
    var ins := node.value.inputs;
    var i := 0;
    while i < |ins|
      invariant 0 <= i <= |ins|
      invariant forall j :: 0 <= j < i ==>
        ins[j].ty != Error && (ValueRequired(ins[j]) ==> ins[j].nodeId in g.nodes && g.nodes[ins[j].nodeId].cachedType != Error)
    {
      if ins[i].ty == Error {
        return false;
      }
      var inNode := GetNode(g, ins[i].nodeId);
      if ValueRequired(ins[i]) && (inNode.None? || inNode.value.cachedType == Error) {
        return false;
      }
      i := i + 1;
    }
    return true;
  }

  /** After a `Prepare` in which every sink compiled to a processor with a `VoidOut`,
      a tick runs the sinks exactly in `Outputs` order and completes. */
  lemma {:induction false} PrepareThenProcess(g: NodeData, procs: Procs, fuel: nat, frame: int)
    requires T.WellFormed(g) && Prepare(g, procs, fuel).Success?
    requires var p := Prepare(g, procs, fuel).value;
      forall j :: 0 <= j < |p.slots| ==> Runnable(p.procs, p.slots[j])
    ensures var p := Prepare(g, procs, fuel).value;
      var tick := Process(frame, Some(p.slots), p.procs);
      tick.calls == g.outputs && !tick.failed && tick.frame == frame + 1
  {
    var p := Prepare(g, procs, fuel).value;
    var tick := Process(frame, Some(p.slots), p.procs);
    assert |tick.calls| == |g.outputs|;
    forall j | 0 <= j < |g.outputs| ensures tick.calls[j] == g.outputs[j] {
      assert p.slots[j] == Some(tick.calls[j]);
    }
  }
}
