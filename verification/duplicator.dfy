/** The editor's `Duplicator.Duplicate(selection)`: every controllable selected node gets
    one copy under a fresh user id, shifted down below the selection; a link between two
    selected nodes is carried over to the copies; afterwards the copies are the
    selection. */
module Duplication {
  import opened Wrappers
  import opened ValueTypes
  import opened Links
  import opened Nodes
  import opened Graph
  import V = ValueNodes
  import Op = OperationNodes

  /** What `Duplicate` leaves: the graph and the new selection, in its enumeration
      order. */
  datatype Duplicated = Duplicated(graph: NodeData, selection: seq<int>)

  /** Which link array a copy starts from: the constructor's (as the source does it) or
      the original's with every connection cut (as evidently intended). */
  datatype Version = AsWritten | Corrected

  /** The kind of a copy: the class's constructor runs, then the fields the class lists
      in `DrawProperties` are copied over. A value node copies only `Value`, the curve
      and gradient nodes only their curve and gradient, and a default node nothing, so
      names and the external flag are not carried over. */
  function CopyKind(k: Kind): (c: Kind)
    ensures TypeId(c) == TypeId(k)
    ensures !(k.ValueNode? || k.AnimationCurveNode? || k.GradientNode? || k.DefaultNode?) ==> c == k
  {
    match k
    case ValueNode(v, _, _, _) => ValueNode(v, V.NotIO, None, false)
    case AnimationCurveNode(curve, _, _) => AnimationCurveNode(curve, None, false)
    case GradientNode(gradient, _, _) => GradientNode(gradient, None, false)
    case DefaultNode(_) => Fresh(k)
    case _ => k
  }

  /** A node the editor offers for copying (a controllable value node is not an IO node,
      has no name and is not external) is copied with all its settings. */
  lemma {:induction false} CopyKeepsPlainKinds(k: Kind)
    requires k.ValueNode? ==> k.ioMode == V.NotIO && k.valueName == None && !k.useAsExternal
    requires (k.AnimationCurveNode? || k.GradientNode?) ==> k.valueName == None && !k.useAsExternal
    requires !k.DefaultNode?
    ensures CopyKind(k) == k
  {
  }

  // ----- the selection -----

  /** The selection after the nodes that are not controllable are dropped, in the
      selection's order. */
  function Kept(g: NodeData, selection: seq<int>): (r: seq<int>)
    requires forall i :: 0 <= i < |selection| ==> selection[i] in g.nodes
    ensures forall k :: k in r <==> k in selection && g.nodes[k].controllable
    ensures forall i :: 0 <= i < |r| ==> r[i] in g.nodes && g.nodes[r[i]].controllable
    ensures Distinct(selection) ==> Distinct(r)
    decreases |selection|
  {
    if selection == [] then []
    else
      var n := |selection| - 1;
      var rest := Kept(g, selection[..n]);
      assert forall k :: k in selection <==> k == selection[n] || k in selection[..n];
      assert (rest + [selection[n]])[..|rest|] == rest;
      if g.nodes[selection[n]].controllable then rest + [selection[n]] else rest
  }

  /** The smallest vertical position among the listed nodes. */
  function MinY(g: NodeData, s: seq<int>): (r: int)
    requires s != [] && forall i :: 0 <= i < |s| ==> s[i] in g.nodes
    ensures forall i :: 0 <= i < |s| ==> r <= g.nodes[s[i]].position.y
    ensures exists i :: 0 <= i < |s| && r == g.nodes[s[i]].position.y
    decreases |s|
  {
    if |s| == 1 then g.nodes[s[0]].position.y
    else
      var m := MinY(g, s[..|s| - 1]);
      var y := g.nodes[s[|s| - 1]].position.y;
      if y < m then y else m
  }

  /** The largest vertical position among the listed nodes. */
  function MaxY(g: NodeData, s: seq<int>): (r: int)
    requires s != [] && forall i :: 0 <= i < |s| ==> s[i] in g.nodes
    ensures forall i :: 0 <= i < |s| ==> g.nodes[s[i]].position.y <= r
    ensures exists i :: 0 <= i < |s| && r == g.nodes[s[i]].position.y
    decreases |s|
  {
    if |s| == 1 then g.nodes[s[0]].position.y
    else
      var m := MaxY(g, s[..|s| - 1]);
      var y := g.nodes[s[|s| - 1]].position.y;
      if y > m then y else m
  }

  /** The vertical offset of the copies: the selection's height plus 64, so every copy
      lies below every original. */
  function Shift(g: NodeData, s: seq<int>): (r: int)
    requires s != [] && forall i :: 0 <= i < |s| ==> s[i] in g.nodes
    ensures r >= 64
  {
    MaxY(g, s) - MinY(g, s) + 64
  }

  /** Shifted by `Shift`, any listed node lies below every listed node. */
  lemma {:induction false} ShiftPlacesBelow(g: NodeData, s: seq<int>, i: int, j: int)
    requires s != [] && forall i :: 0 <= i < |s| ==> s[i] in g.nodes
    requires 0 <= i < |s| && 0 <= j < |s|
    ensures g.nodes[s[i]].position.y + Shift(g, s) > g.nodes[s[j]].position.y
  {
  }

  /** The ids the copies receive: `CreateNode` hands out `base`, `base + 1`, ... in the
      order the kept selection is enumerated. */
  function CopyIds(s: seq<int>, base: int): (m: map<int, int>)
    requires Distinct(s)
    ensures forall k :: k in m <==> k in s
    ensures forall j :: 0 <= j < |s| ==> s[j] in m && m[s[j]] == base + j
    decreases |s|
  {
    if s == [] then map[]
    else
      var n := |s| - 1;
      var rest := CopyIds(s[..n], base);
      assert forall j :: 0 <= j < n ==> s[j] == s[..n][j] && s[j] != s[n];
      assert forall k :: k in s <==> k == s[n] || k in s[..n];
      rest[s[n] := base + n]
  }

  /** The ids after `last`, in the order `CreateNode` hands them out. */
  function IdsAfter(last: int, n: nat): (r: seq<int>)
    ensures |r| == n && forall j :: 0 <= j < n ==> r[j] == last + 1 + j
  {
    if n == 0 then [] else IdsAfter(last, n - 1) + [last + n]
  }

  /** The ids `n` successive `CreateNode` calls hand out after `last`. */
  function NewIds(last: int, n: nat): (r: set<int>)
    ensures forall x :: x in r <==> last < x <= last + n
  {
    if n == 0 then {} else NewIds(last, n - 1) + {last + n}
  }

  lemma {:induction false} NewIdsCons(last: int, n: nat)
    ensures NewIds(last, n + 1) == {last + 1} + NewIds(last + 1, n)
  {
  }

  // ----- one copy -----

  /** The links with every connection cut. */
  function Cut(links: seq<Link>): (r: seq<Link>)
    ensures |r| == |links|
    ensures forall i :: 0 <= i < |r| ==> r[i] == links[i].(nodeId := NoNodeId, lastDefault := NoNodeId)
  {
    if links == [] then [] else Cut(links[..|links| - 1]) + [links[|links| - 1].(nodeId := NoNodeId, lastDefault := NoNodeId)]
  }

  /** The copy of `o` right after `CreateNode`, the move and the property copy, before any
      link is carried over. */
  function Blank(o: Node, id: int, shift: int, version: Version): (b: Node)
    ensures b.id == id && b.kind == CopyKind(o.kind) && b.controllable && b.cachedType == NoType
    ensures b.position == Position(o.position.x + 1, o.position.y + shift)
    ensures version == Corrected ==> b.inputs == Cut(o.inputs)
  {
    var f := Fresh(o.kind);
    Node(id, CopyKind(o.kind), StartLinks(o, version), Position(o.position.x + 1, o.position.y + shift), ConstructorOutputType(f), NoType, true)
  }

  /** The links a copy starts from: its constructor's, or the original's cut. */
  function StartLinks(o: Node, version: Version): (r: seq<Link>)
    ensures version == Corrected ==> |r| == |o.inputs|
  {
    match version
    case AsWritten => ConstructorInputs(Fresh(o.kind))
    case Corrected => Cut(o.inputs)
  }

  /** The blank copy is the node `CreateNode` constructs for the original's class, moved,
      with the listed properties copied and, in the corrected version, the original's
      links cut. */
  lemma {:induction false} BlankIsConstructed(o: Node, id: int, shift: int, version: Version)
    ensures var b := Construct(o.kind, id);
      Blank(o, id, shift, version) == b.(kind := CopyKind(o.kind), position := Position(o.position.x + 1, o.position.y + shift),
        inputs := if version == AsWritten then b.inputs else Cut(o.inputs))
  {
  }

  /** Where a link of an original points once copied: at the copy of its source when the
      source was copied too, and nowhere otherwise. */
  function Target(l: Link, copies: map<int, int>): int {
    if l.nodeId in copies then copies[l.nodeId] else NoNodeId
  }

  /** The link loop for one copy, from input `i` on: every input of the original whose
      source is in the kept selection is carried over at the same index of the copy; an
      index past the copy's links throws. */
  function Relink(c: Node, o: Node, copies: map<int, int>, i: nat): (r: Result<Node>)
    requires i <= |o.inputs|
    ensures r.Success? ==> r.value.id == c.id && |r.value.inputs| == |c.inputs|
    decreases |o.inputs| - i
  {
    if i == |o.inputs| then Success(c)
    else if o.inputs[i].nodeId in copies then
      if i >= |c.inputs| then Failure("index out of range")
      else
        var c' := c.(inputs := c.inputs[i := c.inputs[i].(nodeId := copies[o.inputs[i].nodeId])]);
        Relink(c', o, copies, i + 1)
    else Relink(c, o, copies, i + 1)
  }

  /** The link loop changes the copy's links and nothing else. */
  lemma {:induction false} RelinkOnlyLinks(c: Node, o: Node, copies: map<int, int>, i: nat)
    requires i <= |o.inputs| && Relink(c, o, copies, i).Success?
    ensures Relink(c, o, copies, i).value == c.(inputs := Relink(c, o, copies, i).value.inputs)
    decreases |o.inputs| - i
  {
    if i < |o.inputs| {
      if o.inputs[i].nodeId in copies {
        var c' := c.(inputs := c.inputs[i := c.inputs[i].(nodeId := copies[o.inputs[i].nodeId])]);
        RelinkOnlyLinks(c', o, copies, i + 1);
      } else {
        RelinkOnlyLinks(c, o, copies, i + 1);
      }
    }
  }

  /** The link loop throws exactly when some carried-over link's index is past the
      copy's links. */
  lemma {:induction false} RelinkFails(c: Node, o: Node, copies: map<int, int>, i: nat)
    requires i <= |o.inputs|
    ensures Relink(c, o, copies, i).Failure? <==> exists j :: i <= j < |o.inputs| && o.inputs[j].nodeId in copies && j >= |c.inputs|
    decreases |o.inputs| - i
  {
    if i < |o.inputs| {
      if o.inputs[i].nodeId in copies && i < |c.inputs| {
        var c' := c.(inputs := c.inputs[i := c.inputs[i].(nodeId := copies[o.inputs[i].nodeId])]);
        RelinkFails(c', o, copies, i + 1);
      } else if o.inputs[i].nodeId !in copies {
        RelinkFails(c, o, copies, i + 1);
        assert forall j :: i <= j < |o.inputs| && o.inputs[j].nodeId in copies ==> i + 1 <= j;
      }
    }
  }

  /** When the link loop finishes, each input of the copy from `i` on whose original
      source was copied names that source's copy; every other input is untouched. */
  lemma {:induction false} RelinkClosedForm(c: Node, o: Node, copies: map<int, int>, i: nat, j: int)
    requires i <= |o.inputs| && 0 <= j < |c.inputs|
    requires Relink(c, o, copies, i).Success?
    ensures Relink(c, o, copies, i).value.inputs[j] ==
      (if i <= j < |o.inputs| && o.inputs[j].nodeId in copies then c.inputs[j].(nodeId := copies[o.inputs[j].nodeId]) else c.inputs[j])
    decreases |o.inputs| - i
  {
    if i < |o.inputs| {
      if o.inputs[i].nodeId in copies {
        var c' := c.(inputs := c.inputs[i := c.inputs[i].(nodeId := copies[o.inputs[i].nodeId])]);
        RelinkClosedForm(c', o, copies, i + 1, j);
      } else {
        RelinkClosedForm(c, o, copies, i + 1, j);
      }
    }
  }

  /** A copy made the corrected way has every link of the original, connected to the
      copy of its source or not at all. */
  lemma {:induction false} CorrectedCopy(o: Node, id: int, shift: int, copies: map<int, int>)
    ensures var r := Relink(Blank(o, id, shift, Corrected), o, copies, 0);
      r.Success? &&
      |r.value.inputs| == |o.inputs| &&
      forall j :: 0 <= j < |o.inputs| ==>
        r.value.inputs[j] == o.inputs[j].(nodeId := Target(o.inputs[j], copies), lastDefault := NoNodeId)
  {
    var b := Blank(o, id, shift, Corrected);
    RelinkFails(b, o, copies, 0);
    forall j | 0 <= j < |o.inputs|
      ensures Relink(b, o, copies, 0).value.inputs[j] == o.inputs[j].(nodeId := Target(o.inputs[j], copies), lastDefault := NoNodeId)
    {
      RelinkClosedForm(b, o, copies, 0, j);
    }
  }

  /** The finished copy of `o` under id `id`, or the throw of its link loop. */
  function CopyOf(o: Node, id: int, shift: int, copies: map<int, int>, version: Version): (r: Result<Node>)
    ensures r.Success? ==> r.value.id == id
  {
    Relink(Blank(o, id, shift, version), o, copies, 0)
  }

  // ----- Duplicate -----

  /** `CreateNode` of an existing node's class in a valid graph adds that class's
      constructed node under the next user id. */
  lemma {:induction false} CreateForCopy(h: NodeData, k: Kind)
    requires Valid(h)
    ensures var id := h.lastId + 1;
      CreateNode(h, TypeId(k)) == Success((h.(lastId := id, nodes := h.nodes[id := Construct(k, id)]), Some(Construct(k, id))))
  {
    hide Closed, Shaped, TypeId, KindForTypeId;
    TypeIdRoundTrip(k);
    var id := h.lastId + 1;
    assert id !in h.nodes;
    assert Construct(Fresh(k), id) == Construct(k, id) by {
      assert Fresh(Fresh(k)) == Fresh(k);
    }
  }

  /** The link loops of the copies of the nodes of `todo`, under the ids after `last` in
      order. */
  function CopyResults(g: NodeData, todo: seq<int>, last: int, copies: map<int, int>, shift: int, version: Version): (r: seq<Result<Node>>)
    requires forall i :: 0 <= i < |todo| ==> todo[i] in g.nodes
    ensures |r| == |todo|
    ensures forall j {:trigger r[j]} :: 0 <= j < |todo| ==> r[j] == CopyOf(g.nodes[todo[j]], last + 1 + j, shift, copies, version)
  {
    seq(|todo|, j requires 0 <= j < |todo| => CopyOf(g.nodes[todo[j]], last + 1 + j, shift, copies, version))
  }

  /** All the values, or the first failure. The source creates every copy before it
      carries any link over; since a copy's links only name the copies' ids, which are
      fixed in advance, and a throw ends the whole operation, finishing each copy in turn
      gives the same copies. */
  function Collect<T>(rs: seq<Result<T>>): (r: Result<seq<T>>)
    ensures r.Success? ==> |r.value| == |rs|
    decreases |rs|
  {
    if rs == [] then Success([])
    else
      match Collect(rs[..|rs| - 1])
      case Failure(e) => Failure(e)
      case Success(init) =>
        match rs[|rs| - 1]
        case Failure(e) => Failure(e)
        case Success(c) => Success(init + [c])
  }

  /** Collected, the `j`-th value is the `j`-th result's. */
  lemma {:induction false} CollectAt<T>(rs: seq<Result<T>>, j: int)
    requires Collect(rs).Success? && 0 <= j < |rs|
    ensures rs[j] == Success(Collect(rs).value[j])
    decreases |rs|
  {
    if j < |rs| - 1 {
      CollectAt(rs[..|rs| - 1], j);
    }
  }

  /** Collecting fails exactly when some result is a failure: one failure makes it
      fail ... */
  lemma {:induction false} CollectFails<T>(rs: seq<Result<T>>, j: int)
    requires 0 <= j < |rs| && rs[j].Failure?
    ensures Collect(rs).Failure?
    decreases |rs|
  {
    if j < |rs| - 1 {
      CollectFails(rs[..|rs| - 1], j);
    }
  }

  /** ... and without one it succeeds. */
  lemma {:induction false} CollectSucceeds<T>(rs: seq<Result<T>>)
    requires forall j :: 0 <= j < |rs| ==> rs[j].Success?
    ensures Collect(rs).Success?
    decreases |rs|
  {
    if rs != [] {
      CollectSucceeds(rs[..|rs| - 1]);
    }
  }

  /** Made the corrected way, every copy is made. */
  lemma {:induction false} CopiesCorrected(g: NodeData, todo: seq<int>, last: int, copies: map<int, int>, shift: int)
    requires forall i :: 0 <= i < |todo| ==> todo[i] in g.nodes
    ensures Collect(CopyResults(g, todo, last, copies, shift, Corrected)).Success?
  {
    var rs := CopyResults(g, todo, last, copies, shift, Corrected);
    forall j | 0 <= j < |rs|
      ensures rs[j].Success?
    {
      CorrectedCopy(g.nodes[todo[j]], last + 1 + j, shift, copies);
    }
    CollectSucceeds(rs);
  }

  /** The copies carry the ids after `last`, in order. */
  lemma {:induction false} CopiesNumbered(g: NodeData, todo: seq<int>, last: int, copies: map<int, int>, shift: int, version: Version)
    requires forall i :: 0 <= i < |todo| ==> todo[i] in g.nodes
    ensures var r := Collect(CopyResults(g, todo, last, copies, shift, version));
      r.Success? ==> |r.value| == |todo| && forall j :: 0 <= j < |r.value| ==> r.value[j].id == last + 1 + j
  {
    var rs := CopyResults(g, todo, last, copies, shift, version);
    if Collect(rs).Success? {
      forall j | 0 <= j < |todo|
        ensures Collect(rs).value[j].id == last + 1 + j
      {
        CollectAt(rs, j);
      }
    }
  }

  /** The copies of the nodes of `todo`, under the ids after `last` in order, or the
      first throw of a link loop. */
  function Copies(g: NodeData, todo: seq<int>, last: int, copies: map<int, int>, shift: int, version: Version): (r: Result<seq<Node>>)
    requires forall i :: 0 <= i < |todo| ==> todo[i] in g.nodes
    ensures version == Corrected ==> r.Success?
    ensures r.Success? ==> |r.value| == |todo| && forall j :: 0 <= j < |todo| ==> r.value[j].id == last + 1 + j
  {
    CopiesCorrected(g, todo, last, copies, shift);
    CopiesNumbered(g, todo, last, copies, shift, version);
    Collect(CopyResults(g, todo, last, copies, shift, version))
  }

  /** The `j`-th copy is the finished copy of the `j`-th node. */
  lemma {:induction false} CopiesAt(g: NodeData, todo: seq<int>, last: int, copies: map<int, int>, shift: int, version: Version, j: int)
    requires forall i :: 0 <= i < |todo| ==> todo[i] in g.nodes
    requires Copies(g, todo, last, copies, shift, version).Success? && 0 <= j < |todo|
    ensures CopyOf(g.nodes[todo[j]], last + 1 + j, shift, copies, version) == Success(Copies(g, todo, last, copies, shift, version).value[j])
  {
    CollectAt(CopyResults(g, todo, last, copies, shift, version), j);
  }

  /** Making the copies fails as soon as one copy's link loop throws. */
  lemma {:induction false} CopiesFail(g: NodeData, todo: seq<int>, last: int, copies: map<int, int>, shift: int, version: Version, j: int)
    requires forall i :: 0 <= i < |todo| ==> todo[i] in g.nodes
    requires 0 <= j < |todo| && CopyOf(g.nodes[todo[j]], last + 1 + j, shift, copies, version).Failure?
    ensures Copies(g, todo, last, copies, shift, version).Failure?
  {
    CollectFails(CopyResults(g, todo, last, copies, shift, version), j);
  }

  /** `CreateNode`'s bookkeeping for the copies: each goes into the table under its id,
      `lastId` advances past them all, and nothing already there changes. */
  function Insert(h: NodeData, made: seq<Node>): (r: NodeData)
    requires Valid(h) && forall j :: 0 <= j < |made| ==> made[j].id == h.lastId + 1 + j
    ensures Valid(r) && r.lastId == h.lastId + |made|
    ensures r.lastDefaultId == h.lastDefaultId && r.outputs == h.outputs
    ensures r.nodes.Keys == h.nodes.Keys + NewIds(h.lastId, |made|)
    ensures forall k :: k in h.nodes ==> r.nodes[k] == h.nodes[k]
    ensures forall j :: 0 <= j < |made| ==> h.lastId + 1 + j in r.nodes && r.nodes[h.lastId + 1 + j] == made[j]
  {
    var added := (map id | id in NewIds(h.lastId, |made|) :: made[id - h.lastId - 1]);
    assert forall id :: id in NewIds(h.lastId, |made|) ==> id !in h.nodes;
    h.(lastId := h.lastId + |made|, nodes := h.nodes + added)
  }

  /** `Duplicate(selection)` for either version. An empty selection is left alone; the
      nodes that are not controllable are dropped; each kept node is copied, in the
      selection's order, under the next user id and moved down by the kept nodes'
      height plus 64; the selection becomes the copies, in the same order. */
  function DuplicateWith(g: NodeData, selection: seq<int>, version: Version): (r: Result<Duplicated>)
    requires Valid(g) && Distinct(selection) && forall i :: 0 <= i < |selection| ==> selection[i] in g.nodes
    ensures selection == [] ==> r == Success(Duplicated(g, selection))
    ensures version == Corrected ==> r.Success?
    ensures r.Success? ==> Valid(r.value.graph) && r.value.graph.outputs == g.outputs && r.value.graph.lastDefaultId == g.lastDefaultId
    ensures r.Success? ==> g.nodes.Keys <= r.value.graph.nodes.Keys
    ensures r.Success? ==> forall k :: k in g.nodes ==> r.value.graph.nodes[k] == g.nodes[k]
    ensures r.Success? && selection != [] ==>
      var n := |Kept(g, selection)|;
      r.value.selection == IdsAfter(g.lastId, n) && r.value.graph.lastId == g.lastId + n &&
      r.value.graph.nodes.Keys == g.nodes.Keys + NewIds(g.lastId, n)
  {
    if selection == [] then Success(Duplicated(g, selection))
    else
      DuplicateKept(g, Kept(g, selection), version)
  }

  /** `Duplicate` once the nodes that are not controllable are dropped. */
  function DuplicateKept(g: NodeData, kept: seq<int>, version: Version): (r: Result<Duplicated>)
    requires Valid(g) && Distinct(kept) && forall i :: 0 <= i < |kept| ==> kept[i] in g.nodes
    ensures version == Corrected ==> r.Success?
    ensures r.Success? ==> Valid(r.value.graph) && r.value.graph.outputs == g.outputs && r.value.graph.lastDefaultId == g.lastDefaultId
    ensures r.Success? ==> g.nodes.Keys <= r.value.graph.nodes.Keys
    ensures r.Success? ==> forall k :: k in g.nodes ==> r.value.graph.nodes[k] == g.nodes[k]
    ensures r.Success? ==>
      r.value.selection == IdsAfter(g.lastId, |kept|) && r.value.graph.lastId == g.lastId + |kept| &&
      r.value.graph.nodes.Keys == g.nodes.Keys + NewIds(g.lastId, |kept|)
  {
    if kept == [] then Success(Duplicated(g, []))
    else Place(g, |kept|, Copies(g, kept, g.lastId, CopyIds(kept, g.lastId + 1), Shift(g, kept), version))
  }

  /** The end of `Duplicate` once the `n` copies are made (or one threw): the copies go
      into the table and become the selection. */
  function Place(g: NodeData, n: nat, made: Result<seq<Node>>): (r: Result<Duplicated>)
    requires Valid(g)
    requires made.Success? ==> |made.value| == n && forall j :: 0 <= j < n ==> made.value[j].id == g.lastId + 1 + j
    ensures r.Success? <==> made.Success?
    ensures r.Success? ==> Valid(r.value.graph) && r.value.graph.outputs == g.outputs && r.value.graph.lastDefaultId == g.lastDefaultId
    ensures r.Success? ==> g.nodes.Keys <= r.value.graph.nodes.Keys
    ensures r.Success? ==> forall k :: k in g.nodes ==> r.value.graph.nodes[k] == g.nodes[k]
    ensures r.Success? ==>
      r.value.selection == IdsAfter(g.lastId, n) && r.value.graph.lastId == g.lastId + n &&
      r.value.graph.nodes.Keys == g.nodes.Keys + NewIds(g.lastId, n)
    ensures r.Success? ==>
      forall j :: 0 <= j < n ==> g.lastId + 1 + j in r.value.graph.nodes && r.value.graph.nodes[g.lastId + 1 + j] == made.value[j]
  {
    match made
    case Failure(e) => Failure(e)
    case Success(m) => Success(Duplicated(Insert(g, m), IdsAfter(g.lastId, n)))
  }

  /** After a successful `Duplicate` of a non-empty kept selection, the `j`-th id after
      the old `lastId` holds the `j`-th copy made. */
  lemma {:induction false} KeptCopies(g: NodeData, kept: seq<int>, version: Version, j: int)
    requires Valid(g) && Distinct(kept) && forall i :: 0 <= i < |kept| ==> kept[i] in g.nodes
    requires DuplicateKept(g, kept, version).Success? && 0 <= j < |kept|
    ensures var made := Copies(g, kept, g.lastId, CopyIds(kept, g.lastId + 1), Shift(g, kept), version);
      var r := DuplicateKept(g, kept, version).value.graph;
      made.Success? && g.lastId + 1 + j in r.nodes && r.nodes[g.lastId + 1 + j] == made.value[j]
  {
    hide Place, Copies, Kept, Shift, CopyIds, Insert, Collect, CopyResults, CopyOf, Blank, Relink;
  }

  /** The `j`-th copy made the corrected way is the `j`-th node moved, with the listed
      properties copied and each link retargeted at the copy of its source (or cut). */
  lemma {:induction false} CopyShape(g: NodeData, kept: seq<int>, last: int, copies: map<int, int>, shift: int, j: int)
    requires forall i :: 0 <= i < |kept| ==> kept[i] in g.nodes
    requires 0 <= j < |kept|
    ensures var c := Copies(g, kept, last, copies, shift, Corrected).value[j];
      c.id == last + 1 + j
    ensures var c := Copies(g, kept, last, copies, shift, Corrected).value[j];
      c.kind == CopyKind(g.nodes[kept[j]].kind) && c.controllable
    ensures var c := Copies(g, kept, last, copies, shift, Corrected).value[j];
      var o := g.nodes[kept[j]];
      c.position == Position(o.position.x + 1, o.position.y + shift)
    ensures var c := Copies(g, kept, last, copies, shift, Corrected).value[j];
      var o := g.nodes[kept[j]];
      |c.inputs| == |o.inputs| &&
      forall i :: 0 <= i < |o.inputs| ==> c.inputs[i] == o.inputs[i].(nodeId := Target(o.inputs[i], copies), lastDefault := NoNodeId)
  {
    hide Blank, Relink, Copies, CopyResults, Collect, StartLinks, CopyKind, ConstructorOutputType, Fresh, ConstructorInputs, Cut;
    var o := g.nodes[kept[j]];
    var id := last + 1 + j;
    CopiesAt(g, kept, last, copies, shift, Corrected, j);
    CorrectedCopy(o, id, shift, copies);
    RelinkOnlyLinks(Blank(o, id, shift, Corrected), o, copies, 0);
  }

  /** A link retargeted by the copies' ids points at the copy of its source when the
      source is kept, and nowhere otherwise. */
  lemma {:induction false} TargetOfKept(l: Link, kept: seq<int>, base: int)
    requires Distinct(kept)
    ensures forall m :: 0 <= m < |kept| && l.nodeId == kept[m] ==> Target(l, CopyIds(kept, base)) == base + m
    ensures l.nodeId !in kept ==> Target(l, CopyIds(kept, base)) == NoNodeId
  {
  }

  /** The `j`-th id after the old `lastId` holds the `j`-th copy the corrected
      `Duplicate` makes. */
  lemma {:induction false} DuplicatedCopy(g: NodeData, selection: seq<int>, j: int)
    requires Valid(g) && Distinct(selection) && forall i :: 0 <= i < |selection| ==> selection[i] in g.nodes
    requires selection != [] && 0 <= j < |Kept(g, selection)|
    ensures var kept := Kept(g, selection);
      var r := Duplicate(g, selection).value.graph;
      g.lastId + 1 + j in r.nodes &&
      r.nodes[g.lastId + 1 + j] == Copies(g, kept, g.lastId, CopyIds(kept, g.lastId + 1), Shift(g, kept), Corrected).value[j]
  {
    hide Kept, Shift, CopyIds, Copies, Place, Insert, Blank, Relink, CopyOf, CopyResults, Collect;
    var kept := Kept(g, selection);
    assert Duplicate(g, selection) == DuplicateKept(g, kept, Corrected);
    KeptCopies(g, kept, Corrected, j);
  }

  /** Each copy the corrected `Duplicate` makes is its original moved one pixel right and
      below the selection, with the original's settings (less a value node's IO mode, name
      and external flag), controllable, and with as many links as the original. */
  lemma {:induction false} DuplicateCopyShape(g: NodeData, selection: seq<int>, j: int)
    requires Valid(g) && Distinct(selection) && forall i :: 0 <= i < |selection| ==> selection[i] in g.nodes
    requires selection != [] && 0 <= j < |Kept(g, selection)|
    ensures var kept := Kept(g, selection);
      var o := g.nodes[kept[j]];
      var r := Duplicate(g, selection).value.graph;
      g.lastId + 1 + j in r.nodes &&
      var c := r.nodes[g.lastId + 1 + j];
      c.id == g.lastId + 1 + j && c.kind == CopyKind(o.kind) && c.controllable &&
      c.position == Position(o.position.x + 1, o.position.y + Shift(g, kept)) &&
      |c.inputs| == |o.inputs|
  {
    hide Kept, Shift, CopyIds, Copies, Place, Insert, Blank, Relink, CopyOf, CopyResults, Collect, Target;
    var kept := Kept(g, selection);
    DuplicatedCopy(g, selection, j);
    CopyShape(g, kept, g.lastId, CopyIds(kept, g.lastId + 1), Shift(g, kept), j);
  }

  /** Each link of a copy the corrected `Duplicate` makes keeps the original link's type
      and settings, forgets its last default node, and is connected to the copy of its
      source when that source was copied too, and cut otherwise. */
  lemma {:induction false} DuplicateCopyLinks(g: NodeData, selection: seq<int>, j: int)
    requires Valid(g) && Distinct(selection) && forall i :: 0 <= i < |selection| ==> selection[i] in g.nodes
    requires selection != [] && 0 <= j < |Kept(g, selection)|
    ensures var kept := Kept(g, selection);
      var o := g.nodes[kept[j]];
      var r := Duplicate(g, selection).value.graph;
      g.lastId + 1 + j in r.nodes &&
      var c := r.nodes[g.lastId + 1 + j];
      |c.inputs| == |o.inputs| &&
      (forall i :: 0 <= i < |o.inputs| ==> c.inputs[i].ty == o.inputs[i].ty && c.inputs[i].settings == o.inputs[i].settings) &&
      (forall i :: 0 <= i < |o.inputs| ==> c.inputs[i].lastDefault == NoNodeId) &&
      (forall i, m :: 0 <= i < |o.inputs| && 0 <= m < |kept| && o.inputs[i].nodeId == kept[m] ==> c.inputs[i].nodeId == g.lastId + 1 + m) &&
      (forall i :: 0 <= i < |o.inputs| && o.inputs[i].nodeId !in kept ==> c.inputs[i].nodeId == NoNodeId)
  {
    hide Kept, Shift, CopyIds, Copies, Place, Insert, Blank, Relink, CopyOf, CopyResults, Collect, Target;
    var kept := Kept(g, selection);
    var copies := CopyIds(kept, g.lastId + 1);
    DuplicatedCopy(g, selection, j);
    CopyShape(g, kept, g.lastId, copies, Shift(g, kept), j);
    RetargetedLinks(Duplicate(g, selection).value.graph.nodes[g.lastId + 1 + j], g.nodes[kept[j]], kept, g.lastId + 1);
  }

  /** Links retargeted by the copies' ids: type and settings kept, last default node
      forgotten, connected to the copy of a kept source and cut otherwise. */
  lemma {:induction false} RetargetedLinks(c: Node, o: Node, kept: seq<int>, base: int)
    requires Distinct(kept) && |c.inputs| == |o.inputs|
    requires forall i :: 0 <= i < |o.inputs| ==>
      c.inputs[i] == o.inputs[i].(nodeId := Target(o.inputs[i], CopyIds(kept, base)), lastDefault := NoNodeId)
    ensures forall i :: 0 <= i < |o.inputs| ==> c.inputs[i].ty == o.inputs[i].ty && c.inputs[i].settings == o.inputs[i].settings
    ensures forall i :: 0 <= i < |o.inputs| ==> c.inputs[i].lastDefault == NoNodeId
    ensures forall i, m :: 0 <= i < |o.inputs| && 0 <= m < |kept| && o.inputs[i].nodeId == kept[m] ==> c.inputs[i].nodeId == base + m
    ensures forall i :: 0 <= i < |o.inputs| && o.inputs[i].nodeId !in kept ==> c.inputs[i].nodeId == NoNodeId
  {
    forall i | 0 <= i < |o.inputs|
      ensures (forall m :: 0 <= m < |kept| && o.inputs[i].nodeId == kept[m] ==> c.inputs[i].nodeId == base + m) &&
        (o.inputs[i].nodeId !in kept ==> c.inputs[i].nodeId == NoNodeId)
    {
      TargetOfKept(o.inputs[i], kept, base);
    }
  }

  /** `Duplicate` as the source writes it: a copy starts from its constructor's links, so
      a carried-over link whose index the constructor does not have throws. */
  function DuplicateAsWritten(g: NodeData, selection: seq<int>): (r: Result<Duplicated>)
    requires Valid(g) && Distinct(selection) && forall i :: 0 <= i < |selection| ==> selection[i] in g.nodes
    ensures selection == [] ==> r == Success(Duplicated(g, selection))
    ensures r.Success? ==> Valid(r.value.graph) && g.nodes.Keys <= r.value.graph.nodes.Keys
    ensures r.Success? ==> forall k :: k in g.nodes ==> r.value.graph.nodes[k] == g.nodes[k]
  {
    DuplicateWith(g, selection, AsWritten)
  }

  /** `Duplicate` as evidently intended: a copy starts from the original's links with
      every connection cut, so it never throws, and each copy is linked to the copies of
      exactly those of its sources that were copied. */
  function Duplicate(g: NodeData, selection: seq<int>): (r: Result<Duplicated>)
    requires Valid(g) && Distinct(selection) && forall i :: 0 <= i < |selection| ==> selection[i] in g.nodes
    ensures selection == [] ==> r == Success(Duplicated(g, selection))
    ensures r.Success?
    ensures Valid(r.value.graph) && g.nodes.Keys <= r.value.graph.nodes.Keys
    ensures forall k :: k in g.nodes ==> r.value.graph.nodes[k] == g.nodes[k]
  {
    DuplicateWith(g, selection, Corrected)
  }

  // ----- the throw -----

  /** A float value node 2 feeding input 0 of a two-component vector constructor 3, both
      controllable, the constructor's links already reshaped to its two components. */
  function FeedsVector(): (g: NodeData)
    ensures Valid(g)
  {
    var value := Node(2, ValueNode(FloatValue("0"), V.NotIO, None, false), [], Position(0, 0), Float, NoType, true);
    var vector := Node(3, VecConstrNode(Op.Vec2), [Link(2, Float, SettingsNone, NoNodeId), Link(NoNodeId, Float, SettingsNone, NoNodeId)],
      Position(0, 100), AutoVector, NoType, true);
    NodeData(map[2 := value, 3 := vector], 3, InitialLastDefaultId, [])
  }

  /** As written, the copy of the vector constructor starts with its constructor's empty
      link array, so carrying over the link from a copied node 2 at index 0 throws. */
  lemma {:induction false} VectorCopyThrows(id: int, shift: int, copies: map<int, int>)
    requires 2 in copies
    ensures CopyOf(FeedsVector().nodes[3], id, shift, copies, AsWritten).Failure?
  {
    var vector := FeedsVector().nodes[3];
    var b := Blank(vector, id, shift, AsWritten);
    assert b.inputs == [];
    RelinkFails(b, vector, copies, 0);
  }

  /** Both nodes of the example are kept. */
  lemma {:induction false} BothKept()
    ensures Kept(FeedsVector(), [2, 3]) == [2, 3]
  {
    assert Kept(FeedsVector(), [2, 3]) == [2, 3];
  }

  /** Duplicating both nodes throws as written: the vector constructor's copy starts with
      its constructor's empty link array, and the carried-over link at index 0 is out of
      range. */
  lemma {:induction false} DuplicateAsWrittenThrows()
    ensures DuplicateAsWritten(FeedsVector(), [2, 3]).Failure?
  {
    var g := FeedsVector();
    BothKept();
    hide Kept, Shift, CopyIds, Copies, Place, Insert, Blank, Relink, CopyOf, CopyResults, Collect;
    hide CopyKind, StartLinks, Cut, Fresh, ConstructorInputs, ConstructorOutputType;
    var kept := [2, 3];
    var copies := CopyIds(kept, 4);
    var shift := Shift(g, kept);
    assert DuplicateAsWritten(g, [2, 3]) == DuplicateKept(g, kept, AsWritten);
    assert DuplicateKept(g, kept, AsWritten) == Place(g, 2, Copies(g, kept, 3, copies, shift, AsWritten));
    VectorCopyThrows(5, shift, copies);
    CopiesFail(g, kept, 3, copies, shift, AsWritten, 1);
  }

  /** Corrected, the copy of the constructor (id 5) reads from the copy of the value node
      (id 4), and its second input stays unconnected. */
  lemma {:induction false} DuplicateCorrectedRelinks()
    ensures var r := Duplicate(FeedsVector(), [2, 3]).value.graph;
      5 in r.nodes && |r.nodes[5].inputs| == 2 && r.nodes[5].inputs[0].nodeId == 4 && r.nodes[5].inputs[1].nodeId == NoNodeId
  {
    var g := FeedsVector();
    BothKept();
    DuplicateCopyLinks(g, [2, 3], 1);
  }
}
