/** Type propagation over the graph (`Node.UpdateTypes` and `Node.UpdateTypesLight`).
    Each pass validates a node, computes the types of its inputs by recursing into the
    nodes they link to, applies the node's type rule and caches the result; every node it
    touches is written back into the graph, which the pass threads from call to call. */
module Typing {
  import opened Wrappers
  import opened ValueTypes
  import opened Links
  import opened NodeBase
  import opened Nodes
  import opened Graph
  import V = ValueNodes

  /** Every node is stored under its own id and keeps the shape of its kind, and no node
      has the "no node" id, so an unconnected link finds nothing. */
  predicate WellFormed(g: NodeData) {
    NoNodeId !in g.nodes &&
    forall id :: id in g.nodes ==> g.nodes[id].id == id && Shaped(g.nodes[id])
  }

  /** A pass leaves the node table's ids, the counters and the sink list alone. */
  predicate SameFrame(g: NodeData, h: NodeData) {
    h.nodes.Keys == g.nodes.Keys && h.lastId == g.lastId && h.lastDefaultId == g.lastDefaultId && h.outputs == g.outputs
  }

  /** Every link of `h` is unconnected or connected as the same slot of `g` was: a pass
      may drop connections but never makes new ones. */
  predicate LinksWithin(g: NodeData, h: NodeData) {
    forall k, i :: k in h.nodes && 0 <= i < |h.nodes[k].inputs| ==>
      h.nodes[k].inputs[i].nodeId == NoNodeId ||
      (k in g.nodes && i < |g.nodes[k].inputs| && h.nodes[k].inputs[i].nodeId == g.nodes[k].inputs[i].nodeId)
  }

  lemma {:induction false} LinksWithinTransitive(a: NodeData, b: NodeData, c: NodeData)
    requires LinksWithin(a, b) && LinksWithin(b, c)
    ensures LinksWithin(a, c)
  {
  }

  /** A node replaced by one whose links are positionally its own or unconnected. */
  lemma {:induction false} ReplaceLinksWithin(g: NodeData, id: int, n: Node)
    requires id in g.nodes
    requires forall i :: 0 <= i < |n.inputs| ==>
      n.inputs[i].nodeId == (if i < |g.nodes[id].inputs| then g.nodes[id].inputs[i].nodeId else NoNodeId)
    ensures LinksWithin(g, g.(nodes := g.nodes[id := n]))
  {
  }

  /** Writing back a node whose links are within the links `g` gave it. */
  lemma {:induction false} WriteLinksWithin(g: NodeData, h: NodeData, id: int, n: Node)
    requires LinksWithin(g, h) && id in g.nodes
    requires forall i :: 0 <= i < |n.inputs| ==>
      n.inputs[i].nodeId == NoNodeId || (i < |g.nodes[id].inputs| && n.inputs[i].nodeId == g.nodes[id].inputs[i].nodeId)
    ensures LinksWithin(g, h.(nodes := h.nodes[id := n]))
  {
  }

  /** The graph and type one pass leaves. */
  datatype Pass = Pass(graph: NodeData, ty: ValueType)

  /** The graph and input types one pass over a node's links leaves. */
  datatype InputPass = InputPass(graph: NodeData, types: seq<ValueType>)

  /** The end of a pass: the node's rule applied to its input types, the node as the rule
      leaves it written back with the result cached. */
  function Settle(h: NodeData, v: Node, types: seq<ValueType>): (r: Pass)
    requires WellFormed(h) && v.id in h.nodes && Shaped(v)
    requires |types| >= RuleArity(v.kind) && AllConcrete(types)
    ensures WellFormed(r.graph) && SameFrame(h, r.graph)
    ensures IsConcrete(r.ty) && r.graph.nodes[v.id].cachedType == r.ty
    ensures forall k :: k in h.nodes && k != v.id ==> r.graph.nodes[k] == h.nodes[k]
    ensures var n := r.graph.nodes[v.id];
      forall i :: 0 <= i < |n.inputs| ==> n.inputs[i].nodeId == (if i < |v.inputs| then v.inputs[i].nodeId else NoNodeId)
    ensures forall i :: 0 <= i < |types| && Reads(v.kind, i) && types[i] == Error ==> r.ty == Error
  {
    var (ty, n) := CheckInputsAndGetType(v, types);
    Pass(h.(nodes := h.nodes[v.id := n.(cachedType := ty)]), ty)
  }

  /** `UpdateTypes`: validate the node; if it is already on the current path, cache and
      return `Error`; otherwise add it to the path, type each input (unconnected and
      dangling links read `None`, each connected one recursing with its own copy of the
      extended path), and cache and return what the node's rule makes of them.

      The links recursed into are those the node had after validation: a nested call that
      reaches the node again finds it on the path, so it only revalidates it (which
      changes nothing) and caches `Error`, which the final write replaces. */
  function UpdateTypes(g: NodeData, id: int, path: set<int>): (r: Pass)
    requires WellFormed(g) && id in g.nodes
    ensures WellFormed(r.graph) && SameFrame(g, r.graph) && LinksWithin(g, r.graph)
    ensures IsConcrete(r.ty)
    ensures id in path ==> r.ty == Error
    ensures r.graph.nodes[id].cachedType == r.ty
    decreases g.nodes.Keys - path, 0, 0
  {
    var v := OnValidate(g.nodes[id]);
    ReplaceLinksWithin(g, id, v);
    var g1 := g.(nodes := g.nodes[id := v]);
    if id in path then
      Pass(g1.(nodes := g1.nodes[id := v.(cachedType := Error)]), Error)
    else
      var ins := InputTypes(g1, v.inputs, path + {id});
      var r := Settle(ins.graph, v, ins.types);
      WriteLinksWithin(g1, ins.graph, id, r.graph.nodes[id]);
      assert r.graph == ins.graph.(nodes := ins.graph.nodes[id := r.graph.nodes[id]]);
      LinksWithinTransitive(g, g1, r.graph);
      r
  }

  /** The input loop of `UpdateTypes`, over the links left to type. */
  function InputTypes(g: NodeData, inputs: seq<Link>, path: set<int>): (r: InputPass)
    requires WellFormed(g)
    ensures WellFormed(r.graph) && SameFrame(g, r.graph) && LinksWithin(g, r.graph)
    ensures |r.types| == |inputs| && AllConcrete(r.types)
    ensures forall i :: 0 <= i < |inputs| && inputs[i].nodeId !in g.nodes ==> r.types[i] == NoType
    ensures forall i :: 0 <= i < |inputs| && inputs[i].nodeId in g.nodes && inputs[i].nodeId in path ==> r.types[i] == Error
    decreases g.nodes.Keys - path, 1, |inputs|
  {
    if inputs == [] then InputPass(g, [])
    else
      var first := TypeLink(g, inputs[0], path);
      var rest := InputTypes(first.graph, inputs[1..], path);
      LinksWithinTransitive(g, first.graph, rest.graph);
      InputPass(rest.graph, [first.ty] + rest.types)
  }

  /** The type one link reads: `None` for an unconnected or dangling link, otherwise
      the pass over the node it links to. */
  function TypeLink(g: NodeData, l: Link, path: set<int>): (r: Pass)
    requires WellFormed(g)
    ensures WellFormed(r.graph) && SameFrame(g, r.graph) && LinksWithin(g, r.graph)
    ensures IsConcrete(r.ty)
    ensures l.nodeId !in g.nodes ==> r == Pass(g, NoType)
    ensures l.nodeId in g.nodes && l.nodeId in path ==> r.ty == Error
    decreases g.nodes.Keys - path, 0, 1
  {
    if l.nodeId in g.nodes then UpdateTypes(g, l.nodeId, path) else Pass(g, NoType)
  }

  /** A node with a link its rule reads pointing at a node of the current path, itself
      included, types as `Error`: a cycle through rule-read links is an error wherever
      the pass closes it. */
  lemma {:induction false} ReadOfPathIsError(g: NodeData, id: int, path: set<int>, i: nat)
    requires WellFormed(g) && id in g.nodes
    requires var v := OnValidate(g.nodes[id]);
      i < |v.inputs| && Reads(v.kind, i) && v.inputs[i].nodeId in g.nodes && v.inputs[i].nodeId in path + {id}
    ensures UpdateTypes(g, id, path).ty == Error
  {
  }

  // ----- the light pass -----

  /** `UpdateTypesLight`: the same recursion with no path, so it only terminates on a
      graph without cycles. `fuel` bounds the recursion depth; `None` stands for a pass
      that would recurse without end. */
  function UpdateTypesLight(g: NodeData, id: int, fuel: nat): (r: Option<Pass>)
    requires WellFormed(g) && id in g.nodes
    ensures r.Some? ==> WellFormed(r.value.graph) && SameFrame(g, r.value.graph) && LinksWithin(g, r.value.graph)
    ensures r.Some? ==> IsConcrete(r.value.ty) && r.value.graph.nodes[id].cachedType == r.value.ty
    decreases fuel, 0, 0
  {
    if fuel == 0 then None
    else
      var v := OnValidate(g.nodes[id]);
      ReplaceLinksWithin(g, id, v);
      var g1 := g.(nodes := g.nodes[id := v]);
      var ins :- InputTypesLight(g1, v.inputs, fuel - 1);
      var r := Settle(ins.graph, v, ins.types);
      WriteLinksWithin(g1, ins.graph, id, r.graph.nodes[id]);
      assert r.graph == ins.graph.(nodes := ins.graph.nodes[id := r.graph.nodes[id]]);
      LinksWithinTransitive(g, g1, r.graph);
      Some(r)
  }

  /** The input loop of `UpdateTypesLight`. */
  function InputTypesLight(g: NodeData, inputs: seq<Link>, fuel: nat): (r: Option<InputPass>)
    requires WellFormed(g)
    ensures r.Some? ==> WellFormed(r.value.graph) && SameFrame(g, r.value.graph) && LinksWithin(g, r.value.graph)
    ensures r.Some? ==> |r.value.types| == |inputs| && AllConcrete(r.value.types)
    decreases fuel, 1, |inputs|
  {
    if inputs == [] then Some(InputPass(g, []))
    else
      var first :- TypeLinkLight(g, inputs[0], fuel);
      var rest :- InputTypesLight(first.graph, inputs[1..], fuel);
      LinksWithinTransitive(g, first.graph, rest.graph);
      Some(InputPass(rest.graph, [first.ty] + rest.types))
  }

  /** The type one link reads in the light pass. */
  function TypeLinkLight(g: NodeData, l: Link, fuel: nat): (r: Option<Pass>)
    requires WellFormed(g)
    ensures r.Some? ==> WellFormed(r.value.graph) && SameFrame(g, r.value.graph) && LinksWithin(g, r.value.graph)
    ensures r.Some? ==> IsConcrete(r.value.ty)
    ensures l.nodeId !in g.nodes ==> r == Some(Pass(g, NoType))
    decreases fuel, 0, 1
  {
    if l.nodeId in g.nodes then UpdateTypesLight(g, l.nodeId, fuel) else Some(Pass(g, NoType))
  }

  // ----- the passes as written -----

  /** Every swizzle node's mask has been set. */
  predicate NoUnsetMask(g: NodeData) {
    forall k :: k in g.nodes ==> !UnsetMask(g.nodes[k])
  }

  /** `Settle` with the node's rule as written: it throws exactly where that rule does. */
  function SettleAsWritten(h: NodeData, v: Node, types: seq<ValueType>): (r: Result<Pass>)
    requires WellFormed(h) && v.id in h.nodes && Shaped(v)
    requires |types| >= RuleArity(v.kind) && AllConcrete(types)
    ensures r.Failure? <==> UnsetMask(v) && IsValue(types[0])
    ensures r.Success? ==> r.value == Settle(h, v, types)
    ensures r.Success? && NoUnsetMask(h) && !UnsetMask(v) ==> NoUnsetMask(r.value.graph)
  {
    var (ty, n) :- CheckInputsAsWritten(v, types);
    Success(Pass(h.(nodes := h.nodes[v.id := n.(cachedType := ty)]), ty))
  }

  /** `UpdateTypes` as written. When it returns, it returns what the corrected pass does;
      on a graph whose swizzle masks are all set it always returns, and leaves them set. */
  function UpdateTypesAsWritten(g: NodeData, id: int, path: set<int>): (r: Result<Pass>)
    requires WellFormed(g) && id in g.nodes
    ensures r.Success? ==> r.value == UpdateTypes(g, id, path)
    ensures NoUnsetMask(g) ==> r.Success? && NoUnsetMask(r.value.graph)
    decreases g.nodes.Keys - path, 0, 0
  {
    var v := OnValidate(g.nodes[id]);
    var g1 := g.(nodes := g.nodes[id := v]);
    if id in path then
      Success(Pass(g1.(nodes := g1.nodes[id := v.(cachedType := Error)]), Error))
    else
      var ins :- InputTypesAsWritten(g1, v.inputs, path + {id});
      SettleAsWritten(ins.graph, v, ins.types)
  }

  /** `InputTypes` as written. */
  function InputTypesAsWritten(g: NodeData, inputs: seq<Link>, path: set<int>): (r: Result<InputPass>)
    requires WellFormed(g)
    ensures r.Success? ==> r.value == InputTypes(g, inputs, path)
    ensures NoUnsetMask(g) ==> r.Success? && NoUnsetMask(r.value.graph)
    decreases g.nodes.Keys - path, 1, |inputs|
  {
    if inputs == [] then Success(InputPass(g, []))
    else
      var first :- TypeLinkAsWritten(g, inputs[0], path);
      var rest :- InputTypesAsWritten(first.graph, inputs[1..], path);
      Success(InputPass(rest.graph, [first.ty] + rest.types))
  }

  /** `TypeLink` as written. */
  function TypeLinkAsWritten(g: NodeData, l: Link, path: set<int>): (r: Result<Pass>)
    requires WellFormed(g)
    ensures r.Success? ==> r.value == TypeLink(g, l, path)
    ensures NoUnsetMask(g) ==> r.Success? && NoUnsetMask(r.value.graph)
    decreases g.nodes.Keys - path, 0, 1
  {
    if l.nodeId in g.nodes then UpdateTypesAsWritten(g, l.nodeId, path) else Success(Pass(g, NoType))
  }

  /** `UpdateTypesLight` as written: a throw is a `Failure`, a pass that would recurse
      without end is `Success(None)`. When it does not throw it agrees with the corrected
      light pass, and it never throws on a graph whose swizzle masks are all set. */
  function UpdateTypesLightAsWritten(g: NodeData, id: int, fuel: nat): (r: Result<Option<Pass>>)
    requires WellFormed(g) && id in g.nodes
    ensures r.Success? ==> r.value == UpdateTypesLight(g, id, fuel)
    ensures NoUnsetMask(g) ==> r.Success? && (r.value.Some? ==> NoUnsetMask(r.value.value.graph))
    decreases fuel, 0, 0
  {
    if fuel == 0 then Success(None)
    else
      var v := OnValidate(g.nodes[id]);
      var g1 := g.(nodes := g.nodes[id := v]);
      var ins :- InputTypesLightAsWritten(g1, v.inputs, fuel - 1);
      match ins
      case None => Success(None)
      case Some(p) =>
        var r :- SettleAsWritten(p.graph, v, p.types);
        Success(Some(r))
  }

  /** `InputTypesLight` as written. */
  function InputTypesLightAsWritten(g: NodeData, inputs: seq<Link>, fuel: nat): (r: Result<Option<InputPass>>)
    requires WellFormed(g)
    ensures r.Success? ==> r.value == InputTypesLight(g, inputs, fuel)
    ensures NoUnsetMask(g) ==> r.Success? && (r.value.Some? ==> NoUnsetMask(r.value.value.graph))
    decreases fuel, 1, |inputs|
  {
    if inputs == [] then Success(Some(InputPass(g, [])))
    else
      var first :- TypeLinkLightAsWritten(g, inputs[0], fuel);
      match first
      case None => Success(None)
      case Some(f) =>
        var rest :- InputTypesLightAsWritten(f.graph, inputs[1..], fuel);
        match rest
        case None => Success(None)
        case Some(p) => Success(Some(InputPass(p.graph, [f.ty] + p.types)))
  }

  /** `TypeLinkLight` as written. */
  function TypeLinkLightAsWritten(g: NodeData, l: Link, fuel: nat): (r: Result<Option<Pass>>)
    requires WellFormed(g)
    ensures r.Success? ==> r.value == TypeLinkLight(g, l, fuel)
    ensures NoUnsetMask(g) ==> r.Success? && (r.value.Some? ==> NoUnsetMask(r.value.value.graph))
    decreases fuel, 0, 1
  {
    if l.nodeId in g.nodes then UpdateTypesLightAsWritten(g, l.nodeId, fuel) else Success(Some(Pass(g, NoType)))
  }

  // ----- acyclic graphs -----

  /** `rank` orders the graph: every connected link points at a node of lower rank, so no
      chain of links returns to where it started. */
  predicate Ranked(g: NodeData, rank: map<int, nat>) {
    forall k :: k in g.nodes ==>
      k in rank &&
      forall i :: 0 <= i < |g.nodes[k].inputs| && g.nodes[k].inputs[i].nodeId in g.nodes ==>
        g.nodes[k].inputs[i].nodeId in rank && rank[g.nodes[k].inputs[i].nodeId] < rank[k]
  }

  /** A pass only drops connections, so it keeps the graph ordered. */
  lemma {:induction false} RankedWithin(g: NodeData, h: NodeData, rank: map<int, nat>)
    requires Ranked(g, rank) && LinksWithin(g, h) && h.nodes.Keys == g.nodes.Keys && NoNodeId !in g.nodes
    ensures Ranked(h, rank)
  {
  }

  /** On a graph without cycles the light pass terminates once its fuel exceeds the
      node's rank, and agrees with `UpdateTypes` run with any path of nodes ranked above
      the node: the path never flags a node, so nodes shared by several inputs (a diamond)
      are typed normally, and the path's contents make no difference. */
  lemma {:induction false} LightAgrees(g: NodeData, id: int, path: set<int>, fuel: nat, rank: map<int, nat>)
    requires WellFormed(g) && id in g.nodes && Ranked(g, rank)
    requires fuel > rank[id]
    requires forall p :: p in path && p in g.nodes ==> rank[p] > rank[id]
    ensures UpdateTypesLight(g, id, fuel) == Some(UpdateTypes(g, id, path))
    decreases fuel, 0, 0
  {
    hide InputTypes, InputTypesLight, Settle;
    var v := OnValidate(g.nodes[id]);
    ReplaceLinksWithin(g, id, v);
    var g1 := g.(nodes := g.nodes[id := v]);
    RankedWithin(g, g1, rank);
    assert id !in path;
    assert g1.nodes[id] == v;
    InputsAgree(g1, v.inputs, path + {id}, fuel - 1, rank, rank[id]);
    var ins := InputTypes(g1, v.inputs, path + {id});
    assert InputTypesLight(g1, v.inputs, fuel - 1) == Some(ins);
    assert UpdateTypes(g, id, path) == Settle(ins.graph, v, ins.types);
  }

  lemma {:induction false} InputsAgree(g: NodeData, inputs: seq<Link>, path: set<int>, fuel: nat, rank: map<int, nat>, bound: nat)
    requires WellFormed(g) && Ranked(g, rank)
    requires forall i :: 0 <= i < |inputs| && inputs[i].nodeId in g.nodes ==> rank[inputs[i].nodeId] < bound
    requires fuel >= bound
    requires forall p :: p in path && p in g.nodes ==> rank[p] >= bound
    ensures InputTypesLight(g, inputs, fuel) == Some(InputTypes(g, inputs, path))
    decreases fuel, 1, |inputs|
  {
    hide UpdateTypes, UpdateTypesLight;
    if inputs != [] {
      var first := TypeLink(g, inputs[0], path);
      if inputs[0].nodeId in g.nodes {
        LightAgrees(g, inputs[0].nodeId, path, fuel, rank);
      }
      RankedWithin(g, first.graph, rank);
      InputsAgree(first.graph, inputs[1..], path, fuel, rank, bound);
    }
  }

  // ----- the unset swizzle mask -----

  /** A swizzle node 1, its mask never set, reading a Vector3 value node 2. */
  function SwizzleOnVector3(): (g: NodeData)
    ensures WellFormed(g) && !NoUnsetMask(g)
  {
    var value := Node(2, ValueNode(Vector3Value("0", "0", "0"), V.NotIO, None, false), [], Position(0, 0), Vector3, NoType, true);
    var swizzle := Node(1, VecSwizzleNode(None), [Link(2, AutoValue, NoDefaultsFlag, NoNodeId)], Position(0, 100), Float, NoType, true);
    var g := NodeData(map[1 := swizzle, 2 := value], 2, InitialLastDefaultId, []);
    assert UnsetMask(g.nodes[1]);
    g
  }

  /** The pass over the Vector3 value node, from a path that does not hold it: it has no
      inputs, types as Vector3, and the pass as written returns the same. */
  lemma {:induction false} Vector3ValuePass(g: NodeData, path: set<int>)
    requires WellFormed(g) && 2 in g.nodes && 2 !in path
    requires g.nodes[2] == SwizzleOnVector3().nodes[2]
    ensures UpdateTypes(g, 2, path).ty == Vector3
    ensures UpdateTypesAsWritten(g, 2, path) == Success(UpdateTypes(g, 2, path))
  {
    var v := OnValidate(g.nodes[2]);
    assert v.inputs == [] && !UnsetMask(v);
    var g1 := g.(nodes := g.nodes[2 := v]);
    assert InputTypes(g1, [], path + {2}) == InputPass(g1, []);
    assert CheckInputsAndGetType(v, []).0 == Vector3;
  }

  /** The swizzle's one link, typed from a path holding only the swizzle: it reads the
      Vector3, and the loop as written returns the same. */
  lemma {:induction false} SwizzleInputTypes(g: NodeData, inputs: seq<Link>)
    requires WellFormed(g) && 2 in g.nodes && g.nodes[2] == SwizzleOnVector3().nodes[2]
    requires inputs == SwizzleOnVector3().nodes[1].inputs
    ensures InputTypes(g, inputs, {1}).types == [Vector3]
    ensures InputTypesAsWritten(g, inputs, {1}) == Success(InputTypes(g, inputs, {1}))
  {
    Vector3ValuePass(g, {1});
    var p := UpdateTypes(g, 2, {1});
    assert TypeLink(g, inputs[0], {1}) == p;
    assert InputTypes(p.graph, [], {1}) == InputPass(p.graph, []);
    assert InputTypesAsWritten(p.graph, [], {1}) == Success(InputPass(p.graph, []));
  }

  /** One step of both passes started from an empty path: validate, type the inputs with
      the node on the path, then settle. */
  lemma {:induction false} FirstStep(g: NodeData, id: int)
    requires WellFormed(g) && id in g.nodes
    ensures var v := OnValidate(g.nodes[id]);
      var g1 := g.(nodes := g.nodes[id := v]);
      var ins := InputTypes(g1, v.inputs, {id});
      UpdateTypes(g, id, {}) == Settle(ins.graph, v, ins.types) &&
      (InputTypesAsWritten(g1, v.inputs, {id}) == Success(ins) ==>
        UpdateTypesAsWritten(g, id, {}) == SettleAsWritten(ins.graph, v, ins.types))
  {
    assert {} + {id} == {id};
  }

  /** As written, the type pass from the swizzle throws once it has typed the Vector3
      feeding it; the corrected pass types the swizzle as a float read from `x`. */
  lemma {:induction false} UnsetMaskPassThrows()
    ensures UpdateTypesAsWritten(SwizzleOnVector3(), 1, {}).Failure?
    ensures UpdateTypes(SwizzleOnVector3(), 1, {}).ty == Float
  {
    var g := SwizzleOnVector3();
    var v := OnValidate(g.nodes[1]);
    assert v.inputs == g.nodes[1].inputs && UnsetMask(v);
    var g1 := g.(nodes := g.nodes[1 := v]);
    SwizzleInputTypes(g1, v.inputs);
    FirstStep(g, 1);
    Op.UnsetMaskThrows();
    hide OnValidate, InputTypes, InputTypesAsWritten, UpdateTypes, UpdateTypesAsWritten;
    assert RuleType(v, [Vector3]) == Float by {
      assert OperationsFileRuleType(v.kind, [Vector3]) == Op.SwizzleTypeOrEmpty(None, [Vector3]).0;
    }
  }
}
