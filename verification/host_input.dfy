/** The host's copy of a graph's external values (`NodeDataInput`): one array per list of
    `NodeDataExternals`, sized to the list by `FixArray` (which keeps the common prefix
    and reads the new slots from the nodes) and pushed back into the nodes by `SetTo`. */
module HostInput {
  import opened Wrappers
  import opened ValueTypes
  import opened Nodes
  import opened Graph
  import opened Externals
  import V = ValueNodes

  /** An element of one of the host's arrays: a value node's value, a curve or a
      gradient. */
  datatype HostValue = PlainValue(value: Value) | CurveValue(curve: V.Curve) | GradientValue(gradient: V.Gradient)

  /** The element type of the array that goes with each list. */
  predicate Fits(kind: ExternalKind, v: HostValue) {
    match kind
    case AnimationCurveNodes => v.CurveValue?
    case GradientNodes => v.GradientValue?
    case _ => v.PlainValue? && ValueList(TypeOfValue(v.value)) == kind
  }

  predicate AllFit(kind: ExternalKind, vs: seq<HostValue>) {
    forall i :: 0 <= i < |vs| ==> Fits(kind, vs[i])
  }

  /** The nine arrays, each possibly `null`. */
  datatype HostArrays = HostArrays(
    bools: Option<seq<HostValue>>, colors: Option<seq<HostValue>>, floats: Option<seq<HostValue>>,
    ints: Option<seq<HostValue>>, vector2s: Option<seq<HostValue>>, vector3s: Option<seq<HostValue>>,
    vector4s: Option<seq<HostValue>>, curves: Option<seq<HostValue>>, gradients: Option<seq<HostValue>>)
  {
    function ArrayOf(kind: ExternalKind): Option<seq<HostValue>> {
      match kind
      case BoolNodes => bools
      case ColorNodes => colors
      case FloatNodes => floats
      case IntNodes => ints
      case Vector2Nodes => vector2s
      case Vector3Nodes => vector3s
      case Vector4Nodes => vector4s
      case AnimationCurveNodes => curves
      case GradientNodes => gradients
    }

    function With(kind: ExternalKind, a: Option<seq<HostValue>>): (r: HostArrays)
      ensures r.ArrayOf(kind) == a
      ensures forall k :: k != kind ==> r.ArrayOf(k) == ArrayOf(k)
    {
      match kind
      case BoolNodes => this.(bools := a)
      case ColorNodes => this.(colors := a)
      case FloatNodes => this.(floats := a)
      case IntNodes => this.(ints := a)
      case Vector2Nodes => this.(vector2s := a)
      case Vector3Nodes => this.(vector3s := a)
      case Vector4Nodes => this.(vector4s := a)
      case AnimationCurveNodes => this.(curves := a)
      case GradientNodes => this.(gradients := a)
    }
  }

  /** A new `NodeDataInput`: every array `null`. */
  const NoArrays: HostArrays := HostArrays(None, None, None, None, None, None, None, None, None)

  /** Every present array holds elements of its list's type. */
  predicate WellTyped(arrays: HostArrays) {
    forall k :: arrays.ArrayOf(k).Some? ==> AllFit(k, arrays.ArrayOf(k).value)
  }

  // ----- one node -----

  /** `GetValue` of an external node: the value node's value, or a copy of the curve or
      gradient. */
  function HostValueOf(k: Kind): (v: HostValue)
    requires ListKind(k).Some?
    ensures Fits(ListKind(k).value, v)
  {
    if k.ValueNode? then PlainValue(k.value)
    else if k.AnimationCurveNode? then CurveValue(k.curve)
    else GradientValue(k.gradient)
  }

  /** `SetValue` of an external node: the element replaces the value, curve or gradient;
      the class, name and `UseAsExternal` stay. */
  function WithHostValue(k: Kind, v: HostValue): (r: Kind)
    requires ListKind(k).Some? && Fits(ListKind(k).value, v)
    ensures ListKind(r) == ListKind(k) && HostValueOf(r) == v
    ensures r.valueName == k.valueName && r.useAsExternal == k.useAsExternal
  {
    if k.ValueNode? then k.(value := v.value)
    else if k.AnimationCurveNode? then k.(curve := v.curve)
    else k.(gradient := v.gradient)
  }

  /** Writing back what `GetValue` returns changes nothing. */
  lemma {:induction false} WriteOwnValue(k: Kind)
    requires ListKind(k).Some?
    ensures WithHostValue(k, HostValueOf(k)) == k
  {
  }

  /** The node of `id` exists and belongs to the list `kind`: the cast to `IGetSet<T>`
      succeeds. */
  predicate Readable(g: NodeData, id: int, kind: ExternalKind) {
    id in g.nodes && ListKind(g.nodes[id].kind) == Some(kind)
  }

  predicate AllReadable(g: NodeData, links: seq<Entry>, kind: ExternalKind) {
    forall i :: 0 <= i < |links| ==> Readable(g, links[i].nodeId, kind)
  }

  /** `h` is `g` with at most the nodes of `ids` given new values: same ids, counters
      and outputs, every node of the same class, and every other node as it was. */
  predicate Rewrites(g: NodeData, h: NodeData, ids: seq<int>) {
    h.nodes.Keys == g.nodes.Keys && h.lastId == g.lastId &&
    h.lastDefaultId == g.lastDefaultId && h.outputs == g.outputs &&
    (forall k :: k in g.nodes ==> ListKind(h.nodes[k].kind) == ListKind(g.nodes[k].kind)) &&
    (forall k :: k in g.nodes && k !in ids ==> h.nodes[k] == g.nodes[k])
  }

  /** `((IGetSet<T>)nodeData.GetNode(link)).GetValue()`: a missing node is a null
      reference and a node of another class an invalid cast. */
  function ReadHost(g: NodeData, id: int, kind: ExternalKind): (r: Result<HostValue>)
    ensures r.Success? <==> Readable(g, id, kind)
    ensures r.Success? ==> Fits(kind, r.value)
  {
    if id !in g.nodes then Failure("null reference")
    else if ListKind(g.nodes[id].kind) != Some(kind) then Failure("invalid cast")
    else Success(HostValueOf(g.nodes[id].kind))
  }

  /** `((IGetSet<T>)data.GetNode(link)).SetValue(v)`: fails as reading does, and
      otherwise changes that one node's value, after which reading it gives `v`. */
  function WriteHost(g: NodeData, id: int, kind: ExternalKind, v: HostValue): (r: Result<NodeData>)
    requires Fits(kind, v)
    ensures r.Success? <==> Readable(g, id, kind)
    ensures r.Success? ==> ReadHost(r.value, id, kind) == Success(v) && Rewrites(g, r.value, [id])
  {
    if id !in g.nodes then Failure("null reference")
    else if ListKind(g.nodes[id].kind) != Some(kind) then Failure("invalid cast")
    else
      var n := g.nodes[id];
      Success(g.(nodes := g.nodes[id := n.(kind := WithHostValue(n.kind, v))]))
  }

  /** On a value node the host's write is the typed setter `SetFloat` … `SetVector4`:
      both fail on the same nodes and agree where they succeed. */
  lemma {:induction false} WriteIsSetValue(g: NodeData, id: int, x: Value)
    ensures WriteHost(g, id, ValueList(TypeOfValue(x)), PlainValue(x)).Success? <==> SetValue(g, id, x).Success?
    ensures SetValue(g, id, x).Success? ==> WriteHost(g, id, ValueList(TypeOfValue(x)), PlainValue(x)) == SetValue(g, id, x)
  {
    var t := TypeOfValue(x);
    if id in g.nodes {
      var k := g.nodes[id].kind;
      assert ListKind(k) == Some(ValueList(t)) <==> k.ValueNode? && TypeOfValue(k.value) == t;
    }
  }

  // ----- FixArray -----

  /** The values of the nodes of `links`, in order; the first unreadable one fails. */
  function ReadAll(g: NodeData, links: seq<Entry>, kind: ExternalKind): (r: Result<seq<HostValue>>)
    ensures r.Success? <==> AllReadable(g, links, kind)
    ensures r.Success? ==> (|r.value| == |links| &&
      forall i :: 0 <= i < |links| ==> ReadHost(g, links[i].nodeId, kind) == Success(r.value[i]))
    decreases |links|
  {
    if |links| == 0 then Success([])
    else
      var v :- ReadHost(g, links[0].nodeId, kind);
      var rest :- ReadAll(g, links[1..], kind);
      assert forall i :: 1 <= i < |links| ==> links[i] == links[1..][i - 1];
      Success([v] + rest)
  }

  /** `FixArray`: a `null` array counts as empty; an array of the list's length is kept
      as it is; otherwise the new array has the list's length, keeps the common prefix
      and reads the remaining slots from the nodes. */
  function FixArray(held: Option<seq<HostValue>>, links: seq<Entry>, g: NodeData, kind: ExternalKind): (r: Result<seq<HostValue>>)
    ensures |held.GetOr([])| == |links| ==> r == Success(held.GetOr([]))
    ensures r.Failure? <==>
      |held.GetOr([])| < |links| &&
      !(forall i :: |held.GetOr([])| <= i < |links| ==> ReadHost(g, links[i].nodeId, kind).Success?)
    ensures r.Success? ==> |r.value| == |links|
    ensures r.Success? ==> forall i :: 0 <= i < |links| && i < |held.GetOr([])| ==> r.value[i] == held.GetOr([])[i]
    ensures r.Success? ==> forall i :: |held.GetOr([])| <= i < |links| ==>
      ReadHost(g, links[i].nodeId, kind) == Success(r.value[i])
  {
    var a := held.GetOr([]);
    if |a| == |links| then Success(a)
    else
      var m := if |links| < |a| then |links| else |a|;
      assert forall i :: m <= i < |links| ==> links[i] == links[m..][i - m];
      var tail :- ReadAll(g, links[m..], kind);
      Success(a[..m] + tail)
  }

  /** The arrays in the order `Initialize` fixes them. */
  const InitOrder: seq<ExternalKind> := [FloatNodes, IntNodes, BoolNodes, ColorNodes,
    Vector2Nodes, Vector3Nodes, Vector4Nodes, AnimationCurveNodes, GradientNodes]

  lemma {:induction false} EveryKindFixed(k: ExternalKind)
    ensures k in InitOrder
  {
    match k
    case FloatNodes => assert InitOrder[0] == k;
    case IntNodes => assert InitOrder[1] == k;
    case BoolNodes => assert InitOrder[2] == k;
    case ColorNodes => assert InitOrder[3] == k;
    case Vector2Nodes => assert InitOrder[4] == k;
    case Vector3Nodes => assert InitOrder[5] == k;
    case Vector4Nodes => assert InitOrder[6] == k;
    case AnimationCurveNodes => assert InitOrder[7] == k;
    case GradientNodes => assert InitOrder[8] == k;
  }

  /** `FixArray` on the arrays of `kinds`, in turn; the first failure ends it. */
  function FixEach(arrays: HostArrays, ex: Externals, g: NodeData, kinds: seq<ExternalKind>): (r: Result<HostArrays>)
    requires ex.Lists?
    requires forall i, j :: 0 <= i < j < |kinds| ==> kinds[i] != kinds[j]
    ensures r.Success? <==> forall k :: k in kinds ==> FixArray(arrays.ArrayOf(k), ex.ListOf(k), g, k).Success?
    ensures r.Success? ==> forall k :: k in kinds ==>
      r.value.ArrayOf(k) == Some(FixArray(arrays.ArrayOf(k), ex.ListOf(k), g, k).value)
    ensures r.Success? ==> forall k :: k !in kinds ==> r.value.ArrayOf(k) == arrays.ArrayOf(k)
    decreases |kinds|
  {
    if |kinds| == 0 then Success(arrays)
    else
      var k := kinds[0];
      var a :- FixArray(arrays.ArrayOf(k), ex.ListOf(k), g, k);
      var next := arrays.With(k, Some(a));
      assert forall x :: x in kinds <==> x == k || x in kinds[1..];
      assert k !in kinds[1..] by {
        forall i | 0 <= i < |kinds[1..]| ensures kinds[1..][i] != k {
          assert kinds[1..][i] == kinds[i + 1];
        }
      }
      FixEach(next, ex, g, kinds[1..])
  }

  /** `Initialize`: nothing while the lists are `null`; otherwise every array is fixed
      to its list, and any unreadable node fails. */
  function Initialize(arrays: HostArrays, ex: Externals, g: NodeData): (r: Result<HostArrays>)
    ensures ex.Uninitialised? ==> r == Success(arrays)
    ensures ex.Lists? ==> (r.Success? <==> forall k :: FixArray(arrays.ArrayOf(k), ex.ListOf(k), g, k).Success?)
    ensures ex.Lists? && r.Success? ==> forall k ::
      r.value.ArrayOf(k) == Some(FixArray(arrays.ArrayOf(k), ex.ListOf(k), g, k).value) &&
      |r.value.ArrayOf(k).value| == |ex.ListOf(k)|
  {
    if ex.Uninitialised? then Success(arrays)
    else
      assert forall k :: k in InitOrder by {
        forall k ensures k in InitOrder {
          EveryKindFixed(k);
        }
      }
      FixEach(arrays, ex, g, InitOrder)
  }

  /** `NodeDataInput.InitializeFrom`: when the graph's lists are `null` they are built
      first (`NodeData.Initialize`), then the arrays are fixed to them. The lists the
      graph ends up with are returned alongside. */
  function InitializeInput(arrays: HostArrays, graphLists: Externals, g: NodeData, order: seq<int>): (r: Result<(HostArrays, Externals)>)
    requires Enumerates(order, g.nodes.Keys)
    ensures r.Success? ==> r.value.1.Lists?
    ensures graphLists.Lists? ==> r.Success? ==> r.value.1 == graphLists
    ensures r.Success? ==> forall k :: r.value.0.ArrayOf(k).Some? && |r.value.0.ArrayOf(k).value| == |r.value.1.ListOf(k)|
  {
    var ex := if graphLists.Uninitialised? then InitializeFrom(graphLists, g, order) else graphLists;
    var fixed :- Initialize(arrays, ex, g);
    Success((fixed, ex))
  }

  // ----- SetTo -----

  /** Writes `vs[i]` into the node of `links[i]`, for each i in turn. */
  function WriteAll(g: NodeData, vs: seq<HostValue>, links: seq<Entry>, kind: ExternalKind): (r: Result<NodeData>)
    requires |vs| == |links| && AllFit(kind, vs)
    ensures r.Success? <==> AllReadable(g, links, kind)
    ensures r.Success? ==> Rewrites(g, r.value, EntryIds(links))
    decreases |links|
  {
    if |links| == 0 then Success(g)
    else
      var h :- WriteHost(g, links[0].nodeId, kind, vs[0]);
      var r := WriteAll(h, vs[1..], links[1..], kind);
      ReadableStep(g, h, links, kind);
      if r.Success? then
        TailIds(links);
        RewritesChain(g, h, r.value, [links[0].nodeId], EntryIds(links[1..]), EntryIds(links));
        r
      else r
  }

  /** The ids of a list are its first id and those of the rest. */
  lemma {:induction false} TailIds(links: seq<Entry>)
    requires |links| > 0
    ensures forall x :: x in [links[0].nodeId] ==> x in EntryIds(links)
    ensures forall x :: x in EntryIds(links[1..]) ==> x in EntryIds(links)
  {
    var tail := links[1..];
    assert EntryIds(links)[0] == links[0].nodeId;
    forall x | x in EntryIds(tail) ensures x in EntryIds(links) {
      var i :| 0 <= i < |tail| && EntryIds(tail)[i] == x;
      assert EntryIds(links)[i + 1] == x;
    }
  }

  /** A rewrite keeps every node readable under the list it was readable under. */
  lemma {:induction false} RewritesKeepReadable(g: NodeData, h: NodeData, ids: seq<int>, id: int, kind: ExternalKind)
    requires Rewrites(g, h, ids)
    ensures Readable(h, id, kind) <==> Readable(g, id, kind)
  {
  }

  /** One write keeps the remaining links readable exactly when they were. */
  lemma {:induction false} ReadableStep(g: NodeData, h: NodeData, links: seq<Entry>, kind: ExternalKind)
    requires |links| > 0 && Readable(g, links[0].nodeId, kind) && Rewrites(g, h, [links[0].nodeId])
    ensures AllReadable(g, links, kind) <==> AllReadable(h, links[1..], kind)
  {
    hide ListKind, Rewrites, Readable;
    var tail := links[1..];
    forall i | 0 <= i < |tail| ensures Readable(g, tail[i].nodeId, kind) <==> Readable(h, tail[i].nodeId, kind) {
      RewritesKeepReadable(g, h, [links[0].nodeId], tail[i].nodeId, kind);
    }
    if AllReadable(h, tail, kind) {
      forall i | 0 <= i < |links| ensures Readable(g, links[i].nodeId, kind) {
        if i > 0 {
          assert links[i] == tail[i - 1];
        }
      }
    }
    if AllReadable(g, links, kind) {
      forall i | 0 <= i < |tail| ensures Readable(h, tail[i].nodeId, kind) {
        assert tail[i] == links[i + 1];
      }
    }
  }

  /** `Set`: the first min(array length, list length) elements go to their nodes in
      order; a `null` array is a null reference. */
  function Set(held: Option<seq<HostValue>>, links: seq<Entry>, g: NodeData, kind: ExternalKind): (r: Result<NodeData>)
    requires held.Some? ==> AllFit(kind, held.value)
    ensures held.None? ==> r.Failure?
    ensures r.Success? ==> Rewrites(g, r.value, EntryIds(links))
  {
    match held
    case None => Failure("null reference")
    case Some(a) =>
      var n := if |a| < |links| then |a| else |links|;
      assert forall i :: 0 <= i < n ==> EntryIds(links[..n])[i] == EntryIds(links)[i];
      assert forall x :: x in EntryIds(links[..n]) ==> x in EntryIds(links);
      WriteAll(g, a[..n], links[..n], kind)
  }

  /** `Set` pushes the first min(array length, list length) elements in order: it
      succeeds exactly when those entries can be read, and with no id listed twice each
      of those nodes then reads back its element. */
  lemma {:induction false} SetPushesPrefix(a: seq<HostValue>, links: seq<Entry>, g: NodeData, kind: ExternalKind)
    requires AllFit(kind, a)
    ensures var n := if |a| < |links| then |a| else |links|;
      (Set(Some(a), links, g, kind).Success? <==> AllReadable(g, links[..n], kind)) &&
      (Set(Some(a), links, g, kind).Success? && NoRepeats(EntryIds(links)) ==>
        forall i :: 0 <= i < n ==> ReadHost(Set(Some(a), links, g, kind).value, links[i].nodeId, kind) == Success(a[i]))
  {
    hide WriteAll, AllReadable, ReadHost, ListKind, WriteHost, Rewrites;
    var n := if |a| < |links| then |a| else |links|;
    assert Set(Some(a), links, g, kind) == WriteAll(g, a[..n], links[..n], kind);
    if Set(Some(a), links, g, kind).Success? && NoRepeats(EntryIds(links)) {
      assert NoRepeats(EntryIds(links[..n])) by {
        assert forall i :: 0 <= i < n ==> EntryIds(links[..n])[i] == EntryIds(links)[i];
      }
      WriteAllLands(g, a[..n], links[..n], kind);
    }
  }

  /** With no id listed twice, each written node reads back the element written to it. */
  lemma {:induction false} WriteAllLands(g: NodeData, vs: seq<HostValue>, links: seq<Entry>, kind: ExternalKind)
    requires |vs| == |links| && AllFit(kind, vs) && NoRepeats(EntryIds(links))
    requires WriteAll(g, vs, links, kind).Success?
    ensures forall i :: 0 <= i < |links| ==> ReadHost(WriteAll(g, vs, links, kind).value, links[i].nodeId, kind) == Success(vs[i])
    decreases |links|
  {
    hide ListKind, WriteHost, Rewrites, ReadHost, NoRepeats;
    if |links| > 0 {
      var tail := links[1..];
      var h := WriteAllFirst(g, vs, links, kind);
      HeadNotInTail(links);
      WriteAllLands(h, vs[1..], tail, kind);
      var r := WriteAll(h, vs[1..], tail, kind).value;
      RewrittenElsewhere(h, r, EntryIds(tail), links[0].nodeId, kind);
      forall i | 0 <= i < |links| ensures ReadHost(r, links[i].nodeId, kind) == Success(vs[i]) {
        if i > 0 {
          assert links[i] == tail[i - 1];
        }
      }
    }
  }

  /** The first write of `WriteAll`, and the writes that follow it. */
  lemma {:induction false} WriteAllFirst(g: NodeData, vs: seq<HostValue>, links: seq<Entry>, kind: ExternalKind) returns (h: NodeData)
    requires |vs| == |links| > 0 && AllFit(kind, vs)
    requires WriteAll(g, vs, links, kind).Success?
    ensures WriteHost(g, links[0].nodeId, kind, vs[0]) == Success(h)
    ensures ReadHost(h, links[0].nodeId, kind) == Success(vs[0])
    ensures WriteAll(h, vs[1..], links[1..], kind).Success?
    ensures WriteAll(g, vs, links, kind) == WriteAll(h, vs[1..], links[1..], kind)
  {
    hide ListKind, Rewrites, ReadHost;
    assert Readable(g, links[0].nodeId, kind);
    h := WriteHost(g, links[0].nodeId, kind, vs[0]).value;
  }

  /** Without repeats, the first id is not among the rest, which have none either. */
  lemma {:induction false} HeadNotInTail(links: seq<Entry>)
    requires |links| > 0 && NoRepeats(EntryIds(links))
    ensures links[0].nodeId !in EntryIds(links[1..]) && NoRepeats(EntryIds(links[1..]))
  {
    var tail := links[1..];
    forall i | 0 <= i < |tail| ensures EntryIds(tail)[i] == EntryIds(links)[i + 1] != links[0].nodeId {
      assert EntryIds(links)[0] == links[0].nodeId;
    }
  }

  /** A node outside the rewritten ones reads as before. */
  lemma {:induction false} RewrittenElsewhere(g: NodeData, h: NodeData, ids: seq<int>, id: int, kind: ExternalKind)
    requires Rewrites(g, h, ids) && id !in ids
    ensures ReadHost(h, id, kind) == ReadHost(g, id, kind)
  {
  }

  /** The arrays in the order `SetTo` pushes them. */
  const SetOrder: seq<ExternalKind> := [BoolNodes, ColorNodes, FloatNodes, IntNodes,
    Vector2Nodes, Vector3Nodes, Vector4Nodes, AnimationCurveNodes, GradientNodes]

  lemma {:induction false} EveryKindPushed(k: ExternalKind)
    ensures k in SetOrder
  {
    match k
    case BoolNodes => assert SetOrder[0] == k;
    case ColorNodes => assert SetOrder[1] == k;
    case FloatNodes => assert SetOrder[2] == k;
    case IntNodes => assert SetOrder[3] == k;
    case Vector2Nodes => assert SetOrder[4] == k;
    case Vector3Nodes => assert SetOrder[5] == k;
    case Vector4Nodes => assert SetOrder[6] == k;
    case AnimationCurveNodes => assert SetOrder[7] == k;
    case GradientNodes => assert SetOrder[8] == k;
  }

  /** The ids of the lists of `kinds`, one list after the other. */
  function ListedIds(ex: Externals, kinds: seq<ExternalKind>): (r: seq<int>)
    requires ex.Lists?
    ensures forall k, x :: k in kinds && x in EntryIds(ex.ListOf(k)) ==> x in r
    ensures forall x :: x in r ==> exists k :: k in kinds && x in EntryIds(ex.ListOf(k))
    decreases |kinds|
  {
    if |kinds| == 0 then []
    else
      var rest := ListedIds(ex, kinds[1..]);
      assert forall k :: k in kinds <==> k == kinds[0] || k in kinds[1..];
      EntryIds(ex.ListOf(kinds[0])) + rest
  }

  /** Rewriting some nodes and then others rewrites at most both. */
  lemma {:induction false} RewritesChain(g: NodeData, h: NodeData, r: NodeData, a: seq<int>, b: seq<int>, all: seq<int>)
    requires Rewrites(g, h, a) && Rewrites(h, r, b)
    requires forall x :: x in a ==> x in all
    requires forall x :: x in b ==> x in all
    ensures Rewrites(g, r, all)
  {
    hide ListKind;
  }

  /** `Set` on the arrays of `kinds`, in turn. */
  function SetEach(arrays: HostArrays, ex: Externals, g: NodeData, kinds: seq<ExternalKind>): (r: Result<NodeData>)
    requires ex.Lists? && WellTyped(arrays)
    ensures r.Success? ==> forall k :: k in kinds ==> arrays.ArrayOf(k).Some?
    ensures r.Success? ==> Rewrites(g, r.value, ListedIds(ex, kinds))
    decreases |kinds|
  {
    if |kinds| == 0 then Success(g)
    else
      var k := kinds[0];
      var h :- Set(arrays.ArrayOf(k), ex.ListOf(k), g, k);
      var r := SetEach(arrays, ex, h, kinds[1..]);
      assert forall x :: x in kinds <==> x == k || x in kinds[1..];
      assert ListedIds(ex, kinds) == EntryIds(ex.ListOf(k)) + ListedIds(ex, kinds[1..]);
      if r.Success? then
        RewritesChain(g, h, r.value, EntryIds(ex.ListOf(k)), ListedIds(ex, kinds[1..]), ListedIds(ex, kinds));
        r
      else r
  }

  /** `SetTo`: nothing while the lists are `null`; otherwise every array is pushed into
      the nodes of its list, and no other node changes. A `null` array fails. */
  function SetTo(arrays: HostArrays, ex: Externals, g: NodeData): (r: Result<NodeData>)
    requires WellTyped(arrays)
    ensures ex.Uninitialised? ==> r == Success(g)
    ensures ex.Lists? && r.Success? ==> forall k :: arrays.ArrayOf(k).Some?
    ensures ex.Lists? && r.Success? ==> Rewrites(g, r.value, ListedIds(ex, SetOrder))
  {
    if ex.Uninitialised? then Success(g)
    else
      var r := SetEach(arrays, ex, g, SetOrder);
      if r.Success? then
        assert forall k :: arrays.ArrayOf(k).Some? by {
          forall k ensures arrays.ArrayOf(k).Some? {
            EveryKindPushed(k);
          }
        }
        r
      else r
  }

  // ----- a round without changes -----

  /** Every element `ReadAll` returns fits its list. */
  lemma {:induction false} ReadAllFits(g: NodeData, links: seq<Entry>, kind: ExternalKind)
    requires ReadAll(g, links, kind).Success?
    ensures AllFit(kind, ReadAll(g, links, kind).value)
  {
    hide ListKind;
    var vs := ReadAll(g, links, kind).value;
    forall i | 0 <= i < |vs| ensures Fits(kind, vs[i]) {
      assert ReadHost(g, links[i].nodeId, kind) == Success(vs[i]);
    }
  }

  /** `FixArray` keeps an array well typed. */
  lemma {:induction false} FixArrayFits(held: Option<seq<HostValue>>, links: seq<Entry>, g: NodeData, kind: ExternalKind)
    requires held.Some? ==> AllFit(kind, held.value)
    ensures FixArray(held, links, g, kind).Success? ==> AllFit(kind, FixArray(held, links, g, kind).value)
  {
    hide ListKind, ReadAll;
    var r := FixArray(held, links, g, kind);
    if r.Success? {
      var a := held.GetOr([]);
      forall i | 0 <= i < |r.value| ensures Fits(kind, r.value[i]) {
        if i < |a| {
          assert r.value[i] == a[i];
        } else {
          assert ReadHost(g, links[i].nodeId, kind) == Success(r.value[i]);
        }
      }
    }
  }

  /** `Initialize` keeps the arrays well typed. */
  lemma {:induction false} InitializeWellTyped(arrays: HostArrays, ex: Externals, g: NodeData)
    requires WellTyped(arrays)
    ensures Initialize(arrays, ex, g).Success? ==> WellTyped(Initialize(arrays, ex, g).value)
  {
    hide ListKind, FixArray, AllFit;
    var r := Initialize(arrays, ex, g);
    if r.Success? && ex.Lists? {
      forall k | r.value.ArrayOf(k).Some? ensures AllFit(k, r.value.ArrayOf(k).value) {
        FixArrayFits(arrays.ArrayOf(k), ex.ListOf(k), g, k);
      }
    }
  }

  /** A `null` array is fixed by reading every node of the list. */
  lemma {:induction false} FixFromNothing(links: seq<Entry>, g: NodeData, kind: ExternalKind)
    ensures FixArray(None, links, g, kind) == ReadAll(g, links, kind)
  {
    hide ListKind, ReadAll;
    if |links| > 0 {
      assert links[0..] == links;
      var r := ReadAll(g, links, kind);
      if r.Success? {
        assert [][..0] + r.value == r.value;
      }
    }
  }

  /** Writing back what was read from readable nodes changes nothing, whatever repeats
      the list holds. */
  lemma {:induction false} WriteBack(g: NodeData, links: seq<Entry>, kind: ExternalKind)
    requires AllReadable(g, links, kind)
    ensures ReadAll(g, links, kind).Success? && AllFit(kind, ReadAll(g, links, kind).value)
    ensures WriteAll(g, ReadAll(g, links, kind).value, links, kind) == Success(g)
    decreases |links|
  {
    hide ListKind, Rewrites;
    ReadAllFits(g, links, kind);
    if |links| > 0 {
      var vs := ReadAll(g, links, kind).value;
      var tail := links[1..];
      var id := links[0].nodeId;
      assert Readable(g, id, kind);
      var n := g.nodes[id];
      WriteOwnValue(n.kind);
      assert vs[0] == HostValueOf(n.kind);
      assert n.(kind := WithHostValue(n.kind, vs[0])) == n;
      assert g.nodes[id := n] == g.nodes;
      assert WriteHost(g, id, kind, vs[0]) == Success(g);
      assert AllReadable(g, tail, kind) by {
        forall i | 0 <= i < |tail| ensures Readable(g, tail[i].nodeId, kind) {
          assert tail[i] == links[i + 1];
        }
      }
      WriteBack(g, tail, kind);
      assert vs[1..] == ReadAll(g, tail, kind).value;
    }
  }

  /** Pushing arrays that hold exactly what their readable lists' nodes hold changes
      nothing. */
  lemma {:induction false} SetEachUnchanged(arrays: HostArrays, ex: Externals, g: NodeData, kinds: seq<ExternalKind>)
    requires ex.Lists? && WellTyped(arrays)
    requires forall k :: (AllReadable(g, ex.ListOf(k), k) && ReadAll(g, ex.ListOf(k), k).Success? &&
      arrays.ArrayOf(k) == Some(ReadAll(g, ex.ListOf(k), k).value))
    ensures SetEach(arrays, ex, g, kinds) == Success(g)
    decreases |kinds|
  {
    hide ListKind, Rewrites, AllReadable, WellTyped;
    if |kinds| > 0 {
      var k := kinds[0];
      var links := ex.ListOf(k);
      WriteBack(g, links, k);
      var a := ReadAll(g, links, k).value;
      assert arrays.ArrayOf(k) == Some(a);
      assert a[..|links|] == a && links[..|links|] == links;
      assert Set(arrays.ArrayOf(k), links, g, k) == Success(g);
      SetEachUnchanged(arrays, ex, g, kinds[1..]);
    }
  }

  /** A fresh host input initialised from a valid graph reads every listed node, is well
      typed, and pushed straight back leaves the graph as it was. */
  lemma {:induction false} InitializeThenSetTo(g: NodeData, order: seq<int>)
    requires Valid(g) && Enumerates(order, g.nodes.Keys)
    ensures InitializeInput(NoArrays, Uninitialised, g, order).Success?
    ensures var r := InitializeInput(NoArrays, Uninitialised, g, order).value;
      WellTyped(r.0) && SetTo(r.0, r.1, g) == Success(g)
  {
    hide ListKind, Rewrites, FixArray, ReadAll, SetEach, Collect;
    var ex := InitializeFrom(Uninitialised, g, order);
    forall k ensures AllReadable(g, ex.ListOf(k), k) {
      ExternalsContents(Uninitialised, g, order, k);
      forall i | 0 <= i < |ex.ListOf(k)| ensures Readable(g, ex.ListOf(k)[i].nodeId, k) {
        assert IsExternalOf(g.nodes[ex.ListOf(k)[i].nodeId], k);
      }
    }
    forall k ensures FixArray(NoArrays.ArrayOf(k), ex.ListOf(k), g, k) == ReadAll(g, ex.ListOf(k), k) &&
      ReadAll(g, ex.ListOf(k), k).Success? {
      FixFromNothing(ex.ListOf(k), g, k);
    }
    assert WellTyped(NoArrays);
    InitializeWellTyped(NoArrays, ex, g);
    var fixed := Initialize(NoArrays, ex, g).value;
    assert InitializeInput(NoArrays, Uninitialised, g, order) == Success((fixed, ex));
    SetEachUnchanged(fixed, ex, g, SetOrder);
  }
}
