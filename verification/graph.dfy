/** The graph arena (`NodeData`'s node table): nodes keyed by id, the two id counters,
    creation of user and default-constant nodes, removal with link scrubbing, the typed
    accessors of value nodes, and the reuse of named graph inputs and outputs. */
module Graph {
  import opened Wrappers
  import opened ValueTypes
  import opened Links
  import opened Nodes
  import V = ValueNodes
  import NC = NodeCollector

  /** The counters' initial values: the first user node gets id 2, the first default
      constant id -3. */
  const InitialLastId: int := 1
  const InitialLastDefaultId: int := -2

  /** The node table, the last ids handed out in each direction, and the ids of the
      nodes that `Prepare` turns into processors. */
  datatype NodeData = NodeData(nodes: map<int, Node>, lastId: int, lastDefaultId: int, outputs: seq<int>)

  const EmptyGraph: NodeData := NodeData(map[], InitialLastId, InitialLastDefaultId, [])

  /** No element is listed twice: the enumeration order of a set of ids. */
  predicate Distinct(s: seq<int>) {
    s == [] || (s[|s| - 1] !in s[..|s| - 1] && Distinct(s[..|s| - 1]))
  }

  /** Without repeats means any two positions hold different ids. */
  lemma {:induction false} DistinctPairwise(s: seq<int>)
    ensures Distinct(s) <==> forall i, j :: 0 <= i < j < |s| ==> s[i] != s[j]
    decreases |s|
  {
    if s != [] {
      var n := |s| - 1;
      DistinctPairwise(s[..n]);
      assert forall i :: 0 <= i < n ==> s[..n][i] == s[i];
    }
  }

  /** A list without repeats, seen from its head: the head is not repeated and the rest
      has no repeats. */
  lemma {:induction false} DistinctTail(s: seq<int>)
    requires s != []
    ensures Distinct(s) <==> s[0] !in s[1..] && Distinct(s[1..])
  {
    DistinctPairwise(s);
    DistinctPairwise(s[1..]);
    assert forall i :: 0 <= i < |s| - 1 ==> s[1..][i] == s[i + 1];
  }

  /** A node table as the counters build it: every node is stored under its own id, no
      node has the "no node" id, user ids never pass `lastId` and default ids never pass
      `lastDefaultId`. */
  predicate Valid(g: NodeData) {
    g.lastId >= InitialLastId && g.lastDefaultId <= InitialLastDefaultId &&
    forall id :: id in g.nodes ==>
      g.nodes[id].id == id && id != NoNodeId &&
      (id > NoNodeId ==> id <= g.lastId) && (id < NoNodeId ==> g.lastDefaultId <= id)
  }

  /** Every connected link points at a node of the table. */
  predicate Closed(g: NodeData) {
    forall id, i :: id in g.nodes && 0 <= i < |g.nodes[id].inputs| ==>
      g.nodes[id].inputs[i].nodeId == NoNodeId || g.nodes[id].inputs[i].nodeId in g.nodes
  }

  lemma {:induction false} EmptyGraphValid()
    ensures Valid(EmptyGraph) && Closed(EmptyGraph)
  {
  }

  /** `order` lists every element of `s` exactly once: a dictionary's enumeration order. */
  predicate Enumerates<T>(order: seq<T>, s: set<T>) {
    (forall i :: 0 <= i < |order| ==> order[i] in s) &&
    (forall x :: x in s ==> x in order) &&
    (forall i, j :: 0 <= i < j < |order| ==> order[i] != order[j])
  }

  /** `GetNode`: the stored node, or nothing. A link's node is looked up by its id, so the
      "no node" id and any dangling id find nothing. */
  function GetNode(g: NodeData, id: int): (r: Option<Node>)
    ensures r.Some? <==> id in g.nodes
    ensures r.Some? ==> r.value == g.nodes[id]
  {
    if id in g.nodes then Some(g.nodes[id]) else None
  }

  /** In a valid graph an unconnected link finds no node. */
  lemma {:induction false} NoNodeIdFindsNothing(g: NodeData)
    requires Valid(g)
    ensures GetNode(g, NoNodeId).None?
  {
  }

  /** `GetAllNodes`: the stored nodes in enumeration order. */
  function GetAllNodes(g: NodeData, order: seq<int>): (r: seq<Node>)
    requires Enumerates(order, g.nodes.Keys)
    ensures |r| == |g.nodes|
    ensures forall id :: id in g.nodes ==> g.nodes[id] in r
    ensures forall i :: 0 <= i < |r| ==> r[i] in g.nodes.Values
  {
    EnumerationLength(order, g.nodes.Keys);
    var r := seq(|order|, i requires 0 <= i < |order| => g.nodes[order[i]]);
    assert forall id :: id in g.nodes ==> g.nodes[id] in r by {
      forall id | id in g.nodes
        ensures g.nodes[id] in r
      {
        var k :| 0 <= k < |order| && order[k] == id;
        assert r[k] == g.nodes[id];
      }
    }
    r
  }

  lemma {:induction false} EnumerationLength<T>(order: seq<T>, s: set<T>)
    requires Enumerates(order, s)
    ensures |order| == |s|
    decreases |order|
  {
    if order != [] {
      var x := order[|order| - 1];
      var rest := order[..|order| - 1];
      assert Enumerates(rest, s - {x}) by {
        forall y | y in s - {x}
          ensures y in rest
        {
          var k :| 0 <= k < |order| && order[k] == y;
          assert k < |order| - 1;
          assert rest[k] == y;
        }
      }
      EnumerationLength(rest, s - {x});
    }
  }

  // ----- creation -----

  /** `CreateNode(typeID, nodeID)`: an unknown type id creates nothing and leaves the
      table alone; a known one constructs the class with the given id and adds it, which
      fails when the id is taken. */
  function CreateNodeWithId(g: NodeData, typeId: string, id: int): (r: Result<(NodeData, Option<Node>)>)
    ensures r.Failure? <==> KindForTypeId(typeId).Some? && id in g.nodes
    ensures r.Success? && r.value.1.None? ==> KindForTypeId(typeId).None? && r.value.0 == g
    ensures r.Success? && r.value.1.Some? ==>
      var n := r.value.1.value;
      TypeId(n.kind) == typeId && n.id == id && Shaped(n) &&
      (forall i :: 0 <= i < |n.inputs| ==> n.inputs[i].nodeId == NoNodeId) &&
      r.value.0 == g.(nodes := g.nodes[id := n])
    ensures r.Success? && Closed(g) ==> Closed(r.value.0)
  {
    match KindForTypeId(typeId)
    case None => Success((g, None))
    case Some(k) =>
      if id in g.nodes then Failure("a node with this id already exists")
      else
        var n := Construct(k, id);
        Success((g.(nodes := g.nodes[id := n]), Some(n)))
  }

  /** `CreateNode(typeID)`: the id counter moves first, whether or not the type id is
      known; in a valid graph the new id is above every user id, so the insertion never
      fails and the graph stays valid. */
  function CreateNode(g: NodeData, typeId: string): (r: Result<(NodeData, Option<Node>)>)
    ensures r.Success? ==> r.value.0.lastId == g.lastId + 1 && r.value.0.lastDefaultId == g.lastDefaultId
    ensures r.Success? ==> r.value.0.outputs == g.outputs
    ensures r.Success? && r.value.1.Some? ==> r.value.1.value.id == g.lastId + 1
    ensures Valid(g) ==> r.Success? && Valid(r.value.0)
    ensures Valid(g) && Closed(g) ==> Closed(r.value.0)
    ensures r.Success? ==> (r.value.1.Some? <==> KindForTypeId(typeId).Some?)
    ensures Valid(g) && r.value.1.Some? ==> forall id :: id in g.nodes ==> id < r.value.1.value.id || id < NoNodeId
  {
    var id := g.lastId + 1;
    CreateNodeWithId(g.(lastId := id), typeId, id)
  }

  /** `CreateDefaultNode`: a tag with no default class creates nothing and leaves the
      counter alone; otherwise the default counter moves down and the constant node for
      the tag is added under the new id. */
  function CreateDefaultNode(g: NodeData, t: ValueType): (r: Result<(NodeData, Option<Node>)>)
    ensures r.Success? && r.value.1.None? ==> NC.DefaultKindFor(t).None? && r.value.0 == g
    ensures r.Success? && r.value.1.Some? ==>
      var n := r.value.1.value;
      n.id == g.lastDefaultId - 1 && n.kind.DefaultNode? && Shaped(n) &&
      NC.ValidateTypes(t, n.outputType) && (forall i :: 0 <= i < |n.inputs| ==> !IsConnected(n.inputs[i])) &&
      r.value.0 == g.(nodes := g.nodes[n.id := n], lastDefaultId := n.id)
    ensures Valid(g) ==> r.Success? && Valid(r.value.0)
    ensures Valid(g) && Closed(g) ==> Closed(r.value.0)
    ensures Valid(g) ==> (r.value.1.Some? <==> NC.DefaultKindFor(t).Some?)
  {
    match NC.DefaultKindFor(t)
    case None => Success((g, None))
    case Some(p) =>
      var id := g.lastDefaultId - 1;
      if id in g.nodes then Failure("a node with this id already exists")
      else
        var n := Construct(FreshDefaultNode(p), id);
        NC.DefaultKindValidates(t);
        Success((g.(nodes := g.nodes[id := n], lastDefaultId := id), Some(n)))
  }

  /** Ids handed out by successive creations: user ids strictly ascend above 1, default
      ids strictly descend below -2, so the two never meet and never equal the "no node"
      id. */
  lemma {:induction false} CreationIdsSeparate(g: NodeData, typeId: string, t: ValueType)
    requires Valid(g)
    ensures var r := CreateNode(g, typeId); r.value.1.Some? ==> r.value.1.value.id > InitialLastId
    ensures var r := CreateDefaultNode(g, t); r.value.1.Some? ==> r.value.1.value.id < InitialLastDefaultId
  {
  }

  // ----- removal -----

  /** One node's links with every reference to `id` reset to "no node". */
  function Scrub(inputs: seq<Link>, id: int): (r: seq<Link>)
    ensures |r| == |inputs|
    ensures forall i :: 0 <= i < |r| ==> r[i].nodeId != id || id == NoNodeId
    ensures forall i :: 0 <= i < |r| && inputs[i].nodeId != id ==> r[i] == inputs[i]
    ensures forall i :: 0 <= i < |r| ==> r[i].ty == inputs[i].ty && r[i].settings == inputs[i].settings && r[i].lastDefault == inputs[i].lastDefault
  {
    seq(|inputs|, i requires 0 <= i < |inputs| =>
      if inputs[i].nodeId == id then inputs[i].(nodeId := NoNodeId) else inputs[i])
  }

  /** `RemoveNode`: every link to the node is reset to "no node" (its remembered default
      is kept), then the node leaves the table. Nothing else changes. */
  function RemoveNode(g: NodeData, id: int): (r: NodeData)
    ensures r.nodes.Keys == g.nodes.Keys - {id}
    ensures r.lastId == g.lastId && r.lastDefaultId == g.lastDefaultId && r.outputs == g.outputs
    ensures forall k, i :: k in r.nodes && 0 <= i < |r.nodes[k].inputs| ==> r.nodes[k].inputs[i].nodeId != id || id == NoNodeId
    ensures forall k :: k in r.nodes ==> r.nodes[k] == g.nodes[k].(inputs := r.nodes[k].inputs)
    ensures forall k :: k in r.nodes ==> |r.nodes[k].inputs| == |g.nodes[k].inputs|
    ensures forall k, i :: k in r.nodes && 0 <= i < |g.nodes[k].inputs| && g.nodes[k].inputs[i].nodeId != id ==>
      i < |r.nodes[k].inputs| && r.nodes[k].inputs[i] == g.nodes[k].inputs[i]
    ensures Valid(g) ==> Valid(r)
    ensures Closed(g) ==> Closed(r)
  {
    g.(nodes := map k | k in g.nodes && k != id :: g.nodes[k].(inputs := Scrub(g.nodes[k].inputs, id)))
  }

  /** Removing a node nothing links to undoes its creation: the table is as it was before
      `CreateNode`. */
  lemma {:induction false} CreateThenRemove(g: NodeData, typeId: string)
    requires Valid(g) && Closed(g)
    requires CreateNode(g, typeId).value.1.Some?
    ensures var r := CreateNode(g, typeId).value;
      RemoveNode(r.0, r.1.value.id).nodes == g.nodes
  {
    var r := CreateNode(g, typeId).value;
    var id := r.1.value.id;
    var h := RemoveNode(r.0, id);
    forall k | k in g.nodes
      ensures h.nodes[k] == g.nodes[k]
    {
      var inputs := g.nodes[k].inputs;
      forall i | 0 <= i < |inputs|
        ensures inputs[i].nodeId != id
      {
        assert inputs[i].nodeId == NoNodeId || inputs[i].nodeId in g.nodes;
      }
      assert Scrub(inputs, id) == inputs;
    }
  }

  // ----- typed accessors -----

  /** The value-node class check of `GetBool` … `SetVector4`: the node is a value node
      carrying a value of the tag. */
  predicate HoldsValueOf(g: NodeData, id: int, t: ValueType) {
    id in g.nodes && g.nodes[id].kind.ValueNode? && TypeOfValue(g.nodes[id].kind.value) == t
  }

  /** `GetBool` … `GetVector4`: the value of a value node of the tag; any other node, or
      none, is a "Wrong type" failure. */
  function GetValue(g: NodeData, id: int, t: ValueType): (r: Result<Value>)
    ensures r.Success? <==> HoldsValueOf(g, id, t)
    ensures r.Success? ==> TypeOfValue(r.value) == t
  {
    if HoldsValueOf(g, id, t) then Success(g.nodes[id].kind.value) else Failure("Wrong type")
  }

  /** `SetBool` … `SetVector4`: replaces the value of a value node of the value's tag and
      touches nothing else; any other node, or none, is a "Wrong type" failure. */
  function SetValue(g: NodeData, id: int, v: Value): (r: Result<NodeData>)
    ensures r.Success? <==> HoldsValueOf(g, id, TypeOfValue(v))
    ensures r.Success? ==>
      r.value.nodes.Keys == g.nodes.Keys && r.value.lastId == g.lastId &&
      r.value.lastDefaultId == g.lastDefaultId && r.value.outputs == g.outputs
    ensures r.Success? ==> forall k :: k in g.nodes && k != id ==> r.value.nodes[k] == g.nodes[k]
  {
    if HoldsValueOf(g, id, TypeOfValue(v)) then
      var n := g.nodes[id];
      Success(g.(nodes := g.nodes[id := n.(kind := n.kind.(value := v))]))
    else Failure("Wrong type")
  }

  /** Set then get returns the value set, and leaves every other node's value readable as
      before. */
  lemma {:induction false} SetThenGet(g: NodeData, id: int, v: Value, other: int, t: ValueType)
    requires SetValue(g, id, v).Success?
    ensures GetValue(SetValue(g, id, v).value, id, TypeOfValue(v)) == Success(v)
    ensures other != id ==> GetValue(SetValue(g, id, v).value, other, t) == GetValue(g, other, t)
  {
  }

  /** Writing back the value just read changes nothing. */
  lemma {:induction false} GetThenSet(g: NodeData, id: int, t: ValueType)
    requires GetValue(g, id, t).Success?
    ensures SetValue(g, id, GetValue(g, id, t).value) == Success(g)
  {
    var n := g.nodes[id];
    assert n.(kind := n.kind.(value := n.kind.value)) == n;
    assert g.nodes[id := n] == g.nodes;
  }

  // ----- graph inputs and outputs -----

  /** A value node serving as a graph input or output. */
  predicate IsIONode(g: NodeData, id: int) {
    id in g.nodes && g.nodes[id].kind.ValueNode? && g.nodes[id].kind.ioMode != V.NotIO
  }

  /** Two entries of `order` are graph inputs or outputs with the same name. */
  predicate SharedIOName(g: NodeData, order: seq<int>) {
    exists i, j :: 0 <= i < j < |order| && IsIONode(g, order[i]) && IsIONode(g, order[j]) &&
      g.nodes[order[i]].kind.valueName == g.nodes[order[j]].kind.valueName
  }

  /** An entry of `order` is a graph input or output whose name is `null`. */
  predicate NamelessIO(g: NodeData, order: seq<int>) {
    exists i :: 0 <= i < |order| && IsIONode(g, order[i]) && g.nodes[order[i]].kind.valueName.None?
  }

  /** `BeginInputInit`: the graph's inputs and outputs by name, gathered in enumeration
      order. `Add` throws on a `null` name and on a name already gathered. */
  function BeginInputInit(g: NodeData, order: seq<int>): (r: Result<map<string, int>>)
    ensures r.Failure? ==> SharedIOName(g, order) || NamelessIO(g, order)
    ensures r.Success? ==> forall name :: name in r.value ==>
      r.value[name] in order && IsIONode(g, r.value[name]) && g.nodes[r.value[name]].kind.valueName == Some(name)
    ensures r.Success? ==> forall i :: 0 <= i < |order| && IsIONode(g, order[i]) ==>
      var name := g.nodes[order[i]].kind.valueName;
      name.Some? && name.value in r.value && r.value[name.value] == order[i]
    decreases |order|
  {
    if order == [] then Success(map[])
    else
      var prefix := order[..|order| - 1];
      var x := order[|order| - 1];
      var pending :- (SharedPrefix(g, order); BeginInputInit(g, prefix));
      if !IsIONode(g, x) then Success(pending)
      else
        match g.nodes[x].kind.valueName
        case None => Failure("ArgumentNullException")
        case Some(name) =>
          if name in pending then
            var k :| 0 <= k < |prefix| && prefix[k] == pending[name];
            assert order[k] == prefix[k];
            assert IsIONode(g, order[k]) && IsIONode(g, order[|order| - 1]);
            Failure("a graph input or output with this name already exists")
          else Success(pending[name := x])
  }

  /** A name shared, or a `null` name met, within a prefix is one within the whole order. */
  lemma {:induction false} SharedPrefix(g: NodeData, order: seq<int>)
    requires order != []
    ensures SharedIOName(g, order[..|order| - 1]) ==> SharedIOName(g, order)
    ensures NamelessIO(g, order[..|order| - 1]) ==> NamelessIO(g, order)
  {
    var prefix := order[..|order| - 1];
    if SharedIOName(g, prefix) {
      var i, j :| 0 <= i < j < |prefix| && IsIONode(g, prefix[i]) && IsIONode(g, prefix[j]) &&
        g.nodes[prefix[i]].kind.valueName == g.nodes[prefix[j]].kind.valueName;
      assert order[i] == prefix[i] && order[j] == prefix[j];
    }
    if NamelessIO(g, prefix) {
      var i :| 0 <= i < |prefix| && IsIONode(g, prefix[i]) && g.nodes[prefix[i]].kind.valueName.None?;
      assert order[i] == prefix[i];
    }
  }

  /** Over an enumeration that lists each node once, `BeginInputInit` throws exactly when
      a graph input or output has a `null` name or two of them share a name. */
  lemma {:induction false} BeginInputInitFails(g: NodeData, order: seq<int>)
    requires forall i, j :: 0 <= i < j < |order| ==> order[i] != order[j]
    ensures BeginInputInit(g, order).Failure? <==> SharedIOName(g, order) || NamelessIO(g, order)
  {
  }

  /** The result of `CteateIO`: the graph, the names still unclaimed, the claimed node's
      id, and whether it had to be created. */
  datatype IOClaim = IOClaim(graph: NodeData, pending: map<string, int>, id: int, created: bool)

  /** Sets the IO mode of a value node; any other id leaves the graph alone. */
  function SetIOMode(g: NodeData, id: int, mode: V.IOMode): (r: NodeData)
    ensures r.nodes.Keys == g.nodes.Keys && r.lastId == g.lastId && r.lastDefaultId == g.lastDefaultId && r.outputs == g.outputs
    ensures forall k :: k in g.nodes && k != id ==> r.nodes[k] == g.nodes[k]
    ensures id in g.nodes && g.nodes[id].kind.ValueNode? ==>
      r.nodes[id] == g.nodes[id].(kind := g.nodes[id].kind.(ioMode := mode))
    ensures Valid(g) ==> Valid(r)
    ensures Closed(g) ==> Closed(r)
  {
    if id in g.nodes && g.nodes[id].kind.ValueNode? then
      var n := g.nodes[id];
      g.(nodes := g.nodes[id := n.(kind := n.kind.(ioMode := mode))])
    else g
  }

  /** `CteateIO`: a tag without a value node class throws; a name still unclaimed since
      `BeginInputInit` reuses that node, claiming it; any other name creates a new value
      node of the tag with that name. Either way the node takes the requested mode. */
  function CreateIO(g: NodeData, pending: map<string, int>, t: ValueType, name: string, mode: V.IOMode): (r: Result<IOClaim>)
    ensures Valid(g) ==> (r.Success? <==> NC.IOTypeFor(t).Some?)
    ensures r.Success? ==> name !in r.value.pending && r.value.graph.outputs == g.outputs
    ensures r.Success? && name in pending ==>
      var c := r.value;
      !c.created && c.id == pending[name] && c.pending == pending - {name} &&
      c.graph.nodes.Keys == g.nodes.Keys && c.graph.lastId == g.lastId
    ensures r.Success? && name !in pending ==>
      var c := r.value;
      c.created && c.id == g.lastId + 1 && c.pending == pending &&
      c.graph.nodes.Keys == g.nodes.Keys + {c.id} && c.graph.lastId == c.id &&
      var k := c.graph.nodes[c.id].kind;
      k.ValueNode? && OwnType(k) == t && k.valueName == Some(name) && k.ioMode == mode
    ensures r.Success? ==> forall k :: k in g.nodes && k != r.value.id ==> r.value.graph.nodes[k] == g.nodes[k]
    ensures r.Success? && Valid(g) ==> Valid(r.value.graph)
    ensures r.Success? && Closed(g) ==> Closed(r.value.graph)
  {
    if NC.IOTypeFor(t).None? then Failure("Wrong ValueType")
    else if name in pending then
      var id := pending[name];
      Success(IOClaim(SetIOMode(g, id, mode), pending - {name}, id, false))
    else
      var (h, id) :- CreateNamed(g, t, name, mode);
      Success(IOClaim(h, pending, id, true))
  }

  /** The creating branch of `CteateIO`: a new value node of tag `t` under the next user
      id, carrying the name and mode. */
  function CreateNamed(g: NodeData, t: ValueType, name: string, mode: V.IOMode): (r: Result<(NodeData, int)>)
    requires IsPayloadType(t)
    ensures Valid(g) ==> r.Success?
    ensures r.Success? ==>
      var (h, id) := r.value;
      id == g.lastId + 1 && h.outputs == g.outputs &&
      h.nodes.Keys == g.nodes.Keys + {id} && h.lastId == id && h.lastDefaultId == g.lastDefaultId &&
      (forall k :: k in g.nodes && k != id ==> h.nodes[k] == g.nodes[k]) &&
      var k := h.nodes[id].kind;
      k.ValueNode? && OwnType(k) == t && k.valueName == Some(name) && k.ioMode == mode
    ensures r.Success? && Valid(g) ==> Valid(r.value.0)
    ensures r.Success? && Closed(g) ==> Closed(r.value.0)
  {
    ValueClassRoundTrip(t);
    var c :- CreateNode(g, ValueClassName(t));
    var n := c.1.value;
    var named := n.(kind := n.kind.(valueName := Some(name), ioMode := mode));
    Success((c.0.(nodes := c.0.nodes[n.id := named]), n.id))
  }

  /** The node of an unclaimed name survives `EndInputInit` when it is marked as an
      external value. */
  predicate KeptExternal(g: NodeData, id: int) {
    id in g.nodes && g.nodes[id].kind.ValueNode? && g.nodes[id].kind.useAsExternal
  }

  /** The ids still unclaimed under the names listed. */
  function Unclaimed(pending: map<string, int>, names: seq<string>): set<int>
    requires forall i :: 0 <= i < |names| ==> names[i] in pending
  {
    set i | 0 <= i < |names| :: pending[names[i]]
  }

  /** `EndInputInit`'s removals: every node left unclaimed is removed unless it is marked
      as an external value; everything else stays, and the kept nodes only lose links to
      removed ones. */
  function RemoveUnclaimed(g: NodeData, pending: map<string, int>, names: seq<string>): (r: NodeData)
    requires forall i :: 0 <= i < |names| ==> names[i] in pending
    ensures forall k :: k in r.nodes <==> k in g.nodes && (KeptExternal(g, k) || k !in Unclaimed(pending, names))
    ensures forall k :: k in r.nodes ==>
      r.nodes[k] == g.nodes[k].(inputs := r.nodes[k].inputs) && |r.nodes[k].inputs| == |g.nodes[k].inputs|
    ensures r.lastId == g.lastId && r.lastDefaultId == g.lastDefaultId && r.outputs == g.outputs
    ensures Valid(g) ==> Valid(r)
    ensures Closed(g) ==> Closed(r)
    decreases |names|
  {
    if names == [] then g
    else
      var id := pending[names[0]];
      var g1 := if KeptExternal(g, id) then g else RemoveNode(g, id);
      assert forall i :: 0 <= i < |names| - 1 ==> names[1..][i] == names[i + 1];
      assert Unclaimed(pending, names) == {id} + Unclaimed(pending, names[1..]) by {
        forall x | x in Unclaimed(pending, names)
          ensures x == id || x in Unclaimed(pending, names[1..])
        {
          var i :| 0 <= i < |names| && pending[names[i]] == x;
          if i > 0 {
            assert names[1..][i - 1] == names[i];
          }
        }
      }
      RemoveUnclaimed(g1, pending, names[1..])
  }

  /** Gathering and then removing at once, with no name claimed in between, removes
      exactly the graph inputs and outputs that are not used as external values. */
  lemma {:induction false} NothingClaimedRemovesIO(g: NodeData, order: seq<int>, names: seq<string>)
    requires forall k :: k in g.nodes ==> k in order
    requires BeginInputInit(g, order).Success?
    requires forall name :: name in BeginInputInit(g, order).value <==> name in names
    ensures var pending := BeginInputInit(g, order).value;
      forall k :: k in RemoveUnclaimed(g, pending, names).nodes <==>
        k in g.nodes && (!IsIONode(g, k) || KeptExternal(g, k))
  {
    var pending := BeginInputInit(g, order).value;
    forall k | k in g.nodes && IsIONode(g, k)
      ensures k in Unclaimed(pending, names)
    {
      var i :| 0 <= i < |order| && order[i] == k;
      var name := g.nodes[k].kind.valueName.value;
      var j :| 0 <= j < |names| && names[j] == name;
      assert pending[names[j]] == k;
    }
    forall k | k in Unclaimed(pending, names)
      ensures IsIONode(g, k)
    {
      var j :| 0 <= j < |names| && pending[names[j]] == k;
    }
  }
}
