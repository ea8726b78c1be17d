/** The text form of the node table that `NodeData` keeps for Unity
    (`OnBeforeSerialize`, `OnAfterDeserialize`, `Serializer`): one record per node, the
    records joined by '#', each record's items joined by '|'. A record holds the type id
    and the node id, then either a default constant's own payload or the position in
    16-pixel cells, the ids of the input links joined by ' ', and the kept public fields. */
module Serializer {
  import opened Wrappers
  import opened Text
  import opened ValueTypes
  import opened Links
  import opened Nodes
  import opened Graph
  import opened NodeFields
  import CurveCodec
  import FieldCodec
  import D = Defaults

  // ----- positions -----

  /** `Mathf.RoundToInt(x / 16)`: the nearest whole number of 16-pixel cells, a tie
      going to the even neighbour. */
  function RoundDiv16(x: int): (q: int)
    ensures -8 <= x - 16 * q <= 8
    ensures (x - 16 * q == 8 || x - 16 * q == -8) ==> q % 2 == 0
    ensures x % 16 == 0 ==> 16 * q == x
  {
    var q := x / 16;
    var r := x % 16;
    if r < 8 then q
    else if r > 8 then q + 1
    else if q % 2 == 0 then q
    else q + 1
  }

  /** `PositionToString`: both coordinates in cells, separated by a space. */
  function PositionText(p: Position): string {
    IntToString(RoundDiv16(p.x)) + " " + IntToString(RoundDiv16(p.y))
  }

  /** `StringToPosition`: the first two ' '-separated items as cell counts. */
  function ReadPosition(s: string): (r: Result<Position>)
    ensures r.Success? ==> r.value.x % 16 == 0 && r.value.y % 16 == 0
  {
    var items := Split(s, ' ');
    if |items| < 2 then Failure("index out of range")
    else
      var x :- CurveCodec.ReadInt(items[0]);
      var y :- CurveCodec.ReadInt(items[1]);
      Success(Position(x * 16, y * 16))
  }

  /** A position moved to the nearest cell corner, where a reload puts it. */
  function Snapped(p: Position): (s: Position)
    ensures -8 <= s.x - p.x <= 8 && -8 <= s.y - p.y <= 8
    ensures s.x % 16 == 0 && s.y % 16 == 0
    ensures p.x % 16 == 0 && p.y % 16 == 0 ==> s == p
  {
    Position(16 * RoundDiv16(p.x), 16 * RoundDiv16(p.y))
  }

  /** Positions whose cell counts fit an `int`, as `int.Parse` requires. */
  predicate OnSheet(p: Position) {
    MinInt32 <= RoundDiv16(p.x) <= MaxInt32 && MinInt32 <= RoundDiv16(p.y) <= MaxInt32
  }

  /** A written position reads back snapped to its cell. */
  lemma {:induction false} PositionRoundTrip(p: Position)
    requires OnSheet(p)
    ensures ReadPosition(PositionText(p)) == Success(Snapped(p))
  {
    hide TrimStart, TrimEnd, ParseSigned;
    var a := IntToString(RoundDiv16(p.x));
    var b := IntToString(RoundDiv16(p.y));
    assert ' ' !in a && ' ' !in b by {
      assert IsFloatText(a) && IsFloatText(b);
    }
    SplitFirst(a, ' ', b);
    SplitNoSeparator(b, ' ');
    IntRoundTrip(RoundDiv16(p.x));
    IntRoundTrip(RoundDiv16(p.y));
  }

  // ----- input links -----

  /** The feeding node ids of the links, in order. */
  function NodeIds(links: seq<Link>): (r: seq<int>)
    ensures |r| == |links| && forall i :: 0 <= i < |r| ==> r[i] == links[i].nodeId
  {
    seq(|links|, i requires 0 <= i < |links| => links[i].nodeId)
  }

  /** The printed link ids. */
  function IdTexts(links: seq<Link>): (r: seq<string>)
    ensures |r| == |links| && forall i :: 0 <= i < |r| ==> r[i] == IntToString(links[i].nodeId)
  {
    seq(|links|, i requires 0 <= i < |links| => IntToString(links[i].nodeId))
  }

  /** The input part of a record: the link ids separated by single spaces. */
  function InputsText(links: seq<Link>): string {
    Join(IdTexts(links), ' ')
  }

  /** `int.Parse` of every item; the first that does not parse makes the whole fail. */
  function ParseIds(items: seq<string>): (r: Result<seq<Int32>>)
    ensures r.Success? <==> forall i :: 0 <= i < |items| ==> ParseInt(items[i]).Some?
    ensures r.Success? ==>
      (|r.value| == |items| && forall i :: 0 <= i < |items| ==> ParseInt(items[i]) == Some(r.value[i]))
    decreases |items|
  {
    if |items| == 0 then Success([])
    else
      var n :- CurveCodec.ReadInt(items[0]);
      var rest :- ParseIds(items[1..]);
      assert forall i :: 1 <= i < |items| ==> items[i] == items[1..][i - 1];
      Success([n] + rest)
  }

  /** Links after their node ids were overwritten: the array grows with new links to
      hold every id, the first `|ids|` links take the ids in order, the rest stay. */
  function Refilled(links: seq<Link>, ids: seq<int>): (r: seq<Link>)
    ensures |r| == if |links| < |ids| then |ids| else |links|
  {
    var n := if |links| < |ids| then |ids| else |links|;
    seq(n, i requires 0 <= i < n =>
      var l := if i < |links| then links[i] else FreshLink;
      if i < |ids| then l.(nodeId := ids[i]) else l)
  }

  /** `FillInputs`: text whose first ' '-separated item is empty leaves the links alone;
      otherwise every item is parsed as the id of the link at its position. */
  function FillInputs(links: seq<Link>, s: string): (r: Result<seq<Link>>)
  {
    var items := Split(s, ' ');
    if items[0] == "" then Success(links)
    else
      var ids :- ParseIds(items);
      Success(Refilled(links, ids))
  }

  /** What a reload makes of a node's links: the constructor's links, each taking the
      node id of the saved link at its position; nothing is done without saved links. */
  function ReloadedInputs(initial: seq<Link>, saved: seq<Link>): seq<Link> {
    if |saved| == 0 then initial else Refilled(initial, NodeIds(saved))
  }

  /** Writing a node's links and filling a initial node's links from the text gives each
      initial link the saved link's node id, and keeps every other initial link as it was.
      Ids must fit an `int`. */
  lemma {:induction false} InputsRoundTrip(initial: seq<Link>, saved: seq<Link>)
    requires forall i :: 0 <= i < |saved| ==> MinInt32 <= saved[i].nodeId <= MaxInt32
    ensures FillInputs(initial, InputsText(saved)) == Success(ReloadedInputs(initial, saved))
    ensures var r := ReloadedInputs(initial, saved);
      |r| >= |saved| && |r| >= |initial| &&
      (forall i :: 0 <= i < |saved| ==> r[i].nodeId == saved[i].nodeId) &&
      (forall i :: |saved| <= i < |initial| ==> r[i] == initial[i])
  {
    hide ParseInt, TrimStart, TrimEnd, ParseSigned, IntToString, Join, Split;
    var texts := IdTexts(saved);
    if |saved| == 0 {
      JoinNone(' ');
      SplitNoSeparator("", ' ');
      assert InputsText(saved) == "";
    } else {
      forall i | 0 <= i < |texts| ensures ' ' !in texts[i] {
        assert IsFloatText(texts[i]);
      }
      SplitJoin(texts, ' ');
      assert texts[0] != "" by {
        assert IsFloatText(texts[0]);
      }
      forall i | 0 <= i < |texts| ensures ParseInt(texts[i]) == Some(saved[i].nodeId) {
        IntRoundTrip(saved[i].nodeId);
      }
      var ids := ParseIds(texts).value;
      assert ids == NodeIds(saved);
    }
  }

  // ----- records -----

  /** `GetUsedDefaults`: a default node is in use when some link of the table is fed
      by it; only ids below the "no node" id count. */
  predicate UsedDefault(g: NodeData, id: int) {
    id < NoNodeId &&
    exists m, i :: m in g.nodes && 0 <= i < |g.nodes[m].inputs| && g.nodes[m].inputs[i].nodeId == id
  }

  /** The nodes `Serialize` writes: every node but the default constants nobody uses. */
  predicate Saved(g: NodeData, id: int) {
    id in g.nodes && (g.nodes[id].kind.DefaultNode? ==> UsedDefault(g, id))
  }

  /** The ids of `order` that are written, in order. */
  function SavedIds(g: NodeData, order: seq<int>): (r: seq<int>)
    ensures forall id :: id in r <==> id in order && Saved(g, id)
    ensures forall i :: 0 <= i < |r| ==> Saved(g, r[i])
    ensures (forall i, j :: 0 <= i < j < |order| ==> order[i] != order[j]) ==>
      forall i, j :: 0 <= i < j < |r| ==> r[i] != r[j]
    decreases |order|
  {
    if |order| == 0 then []
    else
      var rest := SavedIds(g, order[1..]);
      assert forall id :: id in order[1..] ==> id in order;
      assert (forall i, j :: 0 <= i < j < |order| ==> order[i] != order[j]) ==>
        order[0] !in order[1..] && forall i, j :: 0 <= i < j < |order[1..]| ==> order[1..][i] != order[1..][j];
      if Saved(g, order[0]) then [order[0]] + rest else rest
  }

  /** One node's record: type id, node id, then a default constant's payload, or the
      position, the input ids and the field list. */
  function NodeRecord(n: Node): (r: string)
    ensures |r| > 0
  {
    var head := [TypeId(n.kind), IntToString(n.id)];
    if n.kind.DefaultNode? then Join(head + [D.DefaultPayload(n.kind.constant)], '|')
    else Join(head + [PositionText(n.position), InputsText(n.inputs), FieldsText(Slots(n.kind), 0)], '|')
  }

  function Records(g: NodeData, ids: seq<int>): (r: seq<string>)
    requires forall i :: 0 <= i < |ids| ==> ids[i] in g.nodes
    ensures |r| == |ids| && forall i :: 0 <= i < |ids| ==> r[i] == NodeRecord(g.nodes[ids[i]])
  {
    seq(|ids|, i requires 0 <= i < |ids| => NodeRecord(g.nodes[ids[i]]))
  }

  /** `Serialize`: the records of the written nodes, in the table's enumeration order,
      joined by '#'. */
  function Serialize(g: NodeData, order: seq<int>): (r: string)
    requires Enumerates(order, g.nodes.Keys)
    ensures |SavedIds(g, order)| == 0 ==> r == ""
    ensures Reloadable(g) && |SavedIds(g, order)| > 0 ==>
      r != "" && Split(r, '#') == Records(g, SavedIds(g, order))
  {
    var saved := SavedIds(g, order);
    RecordsSplit(g, saved);
    Join(Records(g, saved), '#')
  }

  /** Records of reloadable nodes are non-empty and free of '#', so joining them with
      '#' gives text that splits back into them. */
  lemma {:induction false} RecordsSplit(g: NodeData, ids: seq<int>)
    requires forall i :: 0 <= i < |ids| ==> ids[i] in g.nodes
    ensures |ids| == 0 ==> Join(Records(g, ids), '#') == ""
    ensures (forall i :: 0 <= i < |ids| ==> NodeReloadable(g.nodes[ids[i]])) && |ids| > 0 ==>
      Join(Records(g, ids), '#') != "" && Split(Join(Records(g, ids), '#'), '#') == Records(g, ids)
  {
    hide NodeRecord, Split, Join, NodeReloadable;
    var records := Records(g, ids);
    if |ids| == 0 {
      JoinNone('#');
    } else if forall i :: 0 <= i < |ids| ==> NodeReloadable(g.nodes[ids[i]]) {
      forall i | 0 <= i < |records| ensures '#' !in records[i] {
        RecordAvoidsHash(g.nodes[ids[i]]);
      }
      SplitJoin(records, '#');
      JoinNonEmpty(records, '#');
    }
  }

  // ----- loading -----

  /** The per-node part of `Deserialize` on a freshly constructed node: a default
      constant reads its payload; any other node reads its position, fills its links and
      reads its kept fields from the items after the fourth. */
  function LoadNode(n: Node, lines: seq<string>): (r: Result<Node>)
    ensures r.Success? ==> r.value.id == n.id && TypeId(r.value.kind) == TypeId(n.kind)
  {
    if n.kind.DefaultNode? then
      var v :- D.DefaultFromLines(TypeOfValue(n.kind.constant), lines);
      Success(n.(kind := DefaultNode(v)))
    else if |lines| < 4 then Failure("index out of range")
    else
      var position :- ReadPosition(lines[2]);
      var inputs :- FillInputs(n.inputs, lines[3]);
      var kind :- ReadKind(n.kind, lines[4..]);
      Success(n.(position := position, inputs := inputs, kind := kind))
  }

  /** One record: split at '|', the node created from the type id and the parsed node
      id; an unknown type id is skipped, a taken id or a malformed record fails. */
  function LoadRecord(g: NodeData, record: string): (r: Result<NodeData>)
    ensures r.Success? ==> r.value == g.(nodes := r.value.nodes)
    ensures r.Success? ==> forall id :: id in g.nodes ==> id in r.value.nodes && r.value.nodes[id] == g.nodes[id]
    ensures r.Success? ==> |r.value.nodes| <= |g.nodes| + 1
  {
    var lines := Split(record, '|');
    if |lines| < 2 then Failure("index out of range")
    else
      var id :- CurveCodec.ReadInt(lines[1]);
      var created :- CreateNodeWithId(g, lines[0], id);
      match created.1
      case None => Success(g)
      case Some(n) =>
        var loaded :- LoadNode(n, lines);
        Success(created.0.(nodes := created.0.nodes[id := loaded]))
  }

  /** The records in order, each into the table the previous ones left. */
  function LoadRecords(g: NodeData, records: seq<string>): (r: Result<NodeData>)
    ensures r.Success? ==> r.value == g.(nodes := r.value.nodes)
    ensures r.Success? ==> forall id :: id in g.nodes ==> id in r.value.nodes && r.value.nodes[id] == g.nodes[id]
    ensures r.Success? ==> |r.value.nodes| <= |g.nodes| + |records|
    decreases |records|
  {
    if |records| == 0 then Success(g)
    else
      var h :- LoadRecord(g, records[0]);
      LoadRecords(h, records[1..])
  }

  /** `Deserialize` as written: the table is cleared, and text that splits into fewer
      than two records loads nothing. */
  function DeserializeAsWritten(data: string, g: NodeData): (r: Result<NodeData>)
    ensures |Split(data, '#')| < 2 ==> r == Success(g.(nodes := map[]))
    ensures r.Success? ==> r.value == g.(nodes := r.value.nodes)
    ensures r.Success? ==> |r.value.nodes| <= |Split(data, '#')|
  {
    var cleared := g.(nodes := map[]);
    var records := Split(data, '#');
    if |records| < 2 then Success(cleared) else LoadRecords(cleared, records)
  }

  /** `Deserialize` with the guard meant for an empty table: only empty text loads
      nothing. */
  function Deserialize(data: string, g: NodeData): (r: Result<NodeData>)
    ensures data == "" ==> r == Success(g.(nodes := map[]))
    ensures r.Success? ==> r.value == g.(nodes := r.value.nodes)
    ensures r.Success? && data != "" ==> |r.value.nodes| <= |Split(data, '#')|
  {
    var cleared := g.(nodes := map[]);
    if data == "" then Success(cleared) else LoadRecords(cleared, Split(data, '#'))
  }

  // ----- the round trip -----

  /** A node a save and a load restore: its id and its link ids fit an `int`, its cell
      position fits an `int`, and its kind is storable. */
  predicate NodeReloadable(n: Node) {
    MinInt32 <= n.id <= MaxInt32 && Storable(n.kind) &&
    (!n.kind.DefaultNode? ==>
      OnSheet(n.position) && forall i :: 0 <= i < |n.inputs| ==> MinInt32 <= n.inputs[i].nodeId <= MaxInt32)
  }

  predicate Reloadable(g: NodeData) {
    forall id :: id in g.nodes ==> g.nodes[id].id == id && NodeReloadable(g.nodes[id])
  }

  /** The node a load makes of a written node: freshly constructed with its id and kind
      (a `null` string read back empty), then (unless it is a default constant) snapped
      to its cell and given its links' node ids. Output types, the cache and
      `Controllable` are the constructor's. */
  function Reloaded(n: Node): Node {
    var c := Construct(n.kind, n.id);
    if n.kind.DefaultNode? then c.(kind := n.kind)
    else c.(kind := LoadedKind(n.kind), position := Snapped(n.position), inputs := ReloadedInputs(c.inputs, n.inputs))
  }

  /** Type ids are plain names. */
  lemma {:induction false} TypeIdPlain(k: Kind)
    ensures '|' !in TypeId(k) && '#' !in TypeId(k)
  {
    hide TypeId;
    if k.ValueNode? || k.DefaultNode? {
      ValueIdPlain(k);
    } else if k.LerpNode? || k.ConditionNode? || k.IfNode? {
      FirstIdsPlain(k);
    } else if k.BoolOperatorNode? || k.VecModifyNode? || k.VecConstrNode? {
      SecondIdsPlain(k);
    } else if k.ColorHSVNode? || k.ConvertNode? || k.VecSwizzleNode? {
      ThirdIdsPlain(k);
    } else if k.MathNode? || k.VectorMathNode? || k.QuaternionMathNode? {
      FourthIdsPlain(k);
    } else if k.PerlinNode? || k.SpringNode? || k.DeltaNode? {
      FifthIdsPlain(k);
    } else if k.DozerNode? || k.TimerNode? || k.AnimationCurveNode? {
      SixthIdsPlain(k);
    } else if k.GradientNode? || k.RandomNode? {
      SeventhIdsPlain(k);
    }
  }

  /** The class names, three at a time, which keeps each proof small. */
  lemma {:induction false} FirstIdsPlain(k: Kind)
    requires k.LerpNode? || k.ConditionNode? || k.IfNode?
    ensures '|' !in TypeId(k) && '#' !in TypeId(k)
  {
    hide ValueClassName, DefaultClassName;
  }

  lemma {:induction false} SecondIdsPlain(k: Kind)
    requires k.BoolOperatorNode? || k.VecModifyNode? || k.VecConstrNode?
    ensures '|' !in TypeId(k) && '#' !in TypeId(k)
  {
    hide ValueClassName, DefaultClassName;
  }

  lemma {:induction false} ThirdIdsPlain(k: Kind)
    requires k.ColorHSVNode? || k.ConvertNode? || k.VecSwizzleNode?
    ensures '|' !in TypeId(k) && '#' !in TypeId(k)
  {
    hide ValueClassName, DefaultClassName;
  }

  lemma {:induction false} FourthIdsPlain(k: Kind)
    requires k.MathNode? || k.VectorMathNode? || k.QuaternionMathNode?
    ensures '|' !in TypeId(k) && '#' !in TypeId(k)
  {
    hide ValueClassName, DefaultClassName;
  }

  lemma {:induction false} FifthIdsPlain(k: Kind)
    requires k.PerlinNode? || k.SpringNode? || k.DeltaNode?
    ensures '|' !in TypeId(k) && '#' !in TypeId(k)
  {
    hide ValueClassName, DefaultClassName;
  }

  lemma {:induction false} SixthIdsPlain(k: Kind)
    requires k.DozerNode? || k.TimerNode? || k.AnimationCurveNode?
    ensures '|' !in TypeId(k) && '#' !in TypeId(k)
  {
    hide ValueClassName, DefaultClassName;
  }

  lemma {:induction false} SeventhIdsPlain(k: Kind)
    requires k.GradientNode? || k.RandomNode?
    ensures '|' !in TypeId(k) && '#' !in TypeId(k)
  {
    hide ValueClassName, DefaultClassName;
  }

  lemma {:induction false} ValueIdPlain(k: Kind)
    requires k.ValueNode? || k.DefaultNode?
    ensures '|' !in TypeId(k) && '#' !in TypeId(k)
  {
    hide ValueClassName, DefaultClassName;
    if k.ValueNode? {
      ClassNamesPlain(TypeOfValue(k.value));
    } else {
      ClassNamesPlain(TypeOfValue(k.constant));
    }
  }

  lemma {:induction false} ClassNamesPlain(t: ValueType)
    requires IsPayloadType(t)
    ensures '|' !in ValueClassName(t) && '#' !in ValueClassName(t)
    ensures '|' !in DefaultClassName(t) && '#' !in DefaultClassName(t)
  {
  }

  /** Creating a registered class under a free id adds the fresh node of that class. */
  lemma {:induction false} CreateKnown(h: NodeData, k: Kind, id: int)
    requires id !in h.nodes
    ensures CreateNodeWithId(h, TypeId(k), id) ==
      Success((h.(nodes := h.nodes[id := Construct(k, id)]), Some(Construct(k, id))))
  {
    hide TypeId;
    TypeIdRoundTrip(k);
    assert Fresh(Fresh(k)) == Fresh(k);
  }

  /** The items a default constant's record splits into. */
  lemma {:induction false} DefaultRecordLines(n: Node)
    requires n.kind.DefaultNode?
    ensures Split(NodeRecord(n), '|') ==
      [TypeId(n.kind), IntToString(n.id)] + Split(D.DefaultPayload(n.kind.constant), '|')
  {
    hide D.DefaultPayload, TypeId, IntToString, Join, Split, PositionText, InputsText, FieldsText, OwnSlots, Slots;
    TypeIdPlain(n.kind);
    PrintedAvoids(IntToString(n.id), '|');
    SplitJoinLast([TypeId(n.kind), IntToString(n.id)], D.DefaultPayload(n.kind.constant), '|');
  }

  /** A default constant's record loads as the constant. */
  lemma {:induction false} DefaultRecordRoundTrip(n: Node, h: NodeData)
    requires n.kind.DefaultNode? && NodeReloadable(n) && n.id !in h.nodes
    ensures LoadRecord(h, NodeRecord(n)) == Success(h.(nodes := h.nodes[n.id := Reloaded(n)]))
  {
    hide TypeId, NodeRecord, CreateNodeWithId, Construct, D.DefaultFromLines, D.DefaultPayload;
    hide Split, Join, IntToString, OwnSlots, Slots, Storable;
    var t := TypeId(n.kind);
    var idText := IntToString(n.id);
    DefaultRecordLines(n);
    IntRoundTrip(n.id);
    CreateKnown(h, n.kind, n.id);
    D.PayloadRoundTrip(n.kind.constant, t, idText);
    var c := Construct(n.kind, n.id);
    var lines := Split(NodeRecord(n), '|');
    assert c.kind == Fresh(n.kind);
    assert c.kind.DefaultNode? && TypeOfValue(c.kind.constant) == TypeOfValue(n.kind.constant);
    assert D.DefaultFromLines(TypeOfValue(n.kind.constant), lines) == Success(n.kind.constant);
    assert LoadNode(c, lines) == Success(Reloaded(n));
    assert |lines| >= 2 && lines[0] == t && lines[1] == idText;
    assert CurveCodec.ReadInt(lines[1]) == Success(n.id);
    assert CreateNodeWithId(h, lines[0], n.id) == Success((h.(nodes := h.nodes[n.id := c]), Some(c)));
    var c2 := Reloaded(n);
    assert LoadRecord(h, NodeRecord(n)) == Success(h.(nodes := h.nodes[n.id := c]).(nodes := h.nodes[n.id := c][n.id := c2]));
    assert h.nodes[n.id := c][n.id := c2] == h.nodes[n.id := c2];
  }

  /** The items after a field list's kept texts: one empty item when nothing is kept. */
  function FieldsRest(k: Kind): seq<string> {
    if |KeptTexts(Slots(k))| == 0 then [""] else []
  }

  /** Printed numbers hold no separator. */
  lemma {:induction false} PrintedAvoids(s: string, x: char)
    requires IsFloatText(s) && IsSeparator(x)
    ensures x !in s
  {
  }

  lemma {:induction false} PositionTextAvoids(p: Position, x: char)
    requires x == '|' || x == '#'
    ensures x !in PositionText(p)
  {
    PrintedAvoids(IntToString(RoundDiv16(p.x)), x);
    PrintedAvoids(IntToString(RoundDiv16(p.y)), x);
  }

  lemma {:induction false} InputsTextAvoids(links: seq<Link>, x: char)
    requires x == '|' || x == '#'
    ensures x !in InputsText(links)
  {
    var texts := IdTexts(links);
    forall i | 0 <= i < |texts| ensures x !in texts[i] {
      PrintedAvoids(texts[i], x);
    }
    JoinAvoids(texts, ' ', x);
  }

  /** A storable kind's field list splits into its kept texts. */
  lemma {:induction false} FieldsTextSplits(k: Kind)
    requires Storable(k)
    ensures Split(FieldsText(Slots(k), 0), '|') == KeptTexts(Slots(k)) + FieldsRest(k)
    ensures '#' !in FieldsText(Slots(k), 0)
  {
    hide FieldCodec.FieldText, Storable, OwnSlots, Slots;
    var kept := KeptTexts(Slots(k));
    EveryLayoutAligned(k);
    AlignedText(Slots(k));
    KeptTextsAvoid(k, '#');
    JoinAvoids(kept, '|', '#');
    if |kept| > 0 {
      KeptTextsAvoid(k, '|');
      SplitJoin(kept, '|');
    } else {
      assert FieldsText(Slots(k), 0) == "";
    }
  }

  /** The items any other node's record splits into. */
  lemma {:induction false} NodeRecordLines(n: Node)
    requires !n.kind.DefaultNode? && Storable(n.kind)
    ensures Split(NodeRecord(n), '|') ==
      [TypeId(n.kind), IntToString(n.id), PositionText(n.position), InputsText(n.inputs)] +
      (KeptTexts(Slots(n.kind)) + FieldsRest(n.kind))
  {
    hide TypeId, IntToString, PositionText, InputsText, FieldsText, KeptTexts, Slots, FieldsRest;
    hide OwnSlots, D.DefaultPayload, Join, Split, Storable;
    var k := n.kind;
    var parts := [TypeId(k), IntToString(n.id), PositionText(n.position), InputsText(n.inputs)];
    var fields := FieldsText(Slots(k), 0);
    TypeIdPlain(k);
    PrintedAvoids(IntToString(n.id), '|');
    PositionTextAvoids(n.position, '|');
    InputsTextAvoids(n.inputs, '|');
    FieldsTextSplits(k);
    assert forall i :: 0 <= i < |parts| ==> '|' !in parts[i];
    SplitJoinLast(parts, fields, '|');
    assert [parts[0], parts[1]] + [parts[2], parts[3], fields] == parts + [fields];
  }

  /** A freshly constructed node of a storable node's class reads the node's items back
      as the node reloaded. */
  lemma {:induction false} LoadNodeRoundTrip(n: Node, lines: seq<string>)
    requires !n.kind.DefaultNode? && NodeReloadable(n)
    requires lines == [TypeId(n.kind), IntToString(n.id), PositionText(n.position), InputsText(n.inputs)] +
      (KeptTexts(Slots(n.kind)) + FieldsRest(n.kind))
    ensures LoadNode(Construct(n.kind, n.id), lines) == Success(Reloaded(n))
  {
    hide TypeId, Construct, OwnSlots, Slots, KeptTexts, PositionText, InputsText, IntToString;
    hide ReadKind, ReadPosition, FillInputs, ReloadedInputs, Snapped, FieldsRest, Storable;
    var c := Construct(n.kind, n.id);
    assert lines[2] == PositionText(n.position) && lines[3] == InputsText(n.inputs);
    assert lines[4..] == KeptTexts(Slots(n.kind)) + FieldsRest(n.kind);
    PositionRoundTrip(n.position);
    InputsRoundTrip(c.inputs, n.inputs);
    KindRoundTrip(n.kind, FieldsRest(n.kind));
    assert c.kind == Fresh(n.kind);
  }

  /** Any other node's record loads as the node snapped to its cell, with the links of
      its class carrying its links' ids. */
  lemma {:induction false} NodeRecordRoundTrip(n: Node, h: NodeData)
    requires !n.kind.DefaultNode? && NodeReloadable(n) && n.id !in h.nodes
    ensures LoadRecord(h, NodeRecord(n)) == Success(h.(nodes := h.nodes[n.id := Reloaded(n)]))
  {
    hide TypeId, NodeRecord, CreateNodeWithId, Construct, LoadNode, Reloaded, Split, Join;
    hide OwnSlots, Slots, KeptTexts, PositionText, InputsText, IntToString, FieldsRest, Storable;
    NodeRecordLines(n);
    var lines := Split(NodeRecord(n), '|');
    LoadNodeRoundTrip(n, lines);
    IntRoundTrip(n.id);
    CreateKnown(h, n.kind, n.id);
    assert lines[0] == TypeId(n.kind) && lines[1] == IntToString(n.id);
    var c := Construct(n.kind, n.id);
    var c2 := Reloaded(n);
    assert CurveCodec.ReadInt(lines[1]) == Success(n.id);
    assert CreateNodeWithId(h, lines[0], n.id) == Success((h.(nodes := h.nodes[n.id := c]), Some(c)));
    assert LoadRecord(h, NodeRecord(n)) == Success(h.(nodes := h.nodes[n.id := c]).(nodes := h.nodes[n.id := c][n.id := c2]));
    assert h.nodes[n.id := c][n.id := c2] == h.nodes[n.id := c2];
  }

  lemma {:induction false} RecordRoundTrip(n: Node, h: NodeData)
    requires NodeReloadable(n) && n.id !in h.nodes
    ensures LoadRecord(h, NodeRecord(n)) == Success(h.(nodes := h.nodes[n.id := Reloaded(n)]))
  {
    if n.kind.DefaultNode? {
      DefaultRecordRoundTrip(n, h);
    } else {
      NodeRecordRoundTrip(n, h);
    }
  }

  /** Loading the records of distinct nodes into a table without their ids adds each
      node as reloaded. */
  lemma {:induction false} RecordsRoundTrip(g: NodeData, ids: seq<int>, h: NodeData)
    requires Reloadable(g)
    requires forall i :: 0 <= i < |ids| ==> ids[i] in g.nodes && ids[i] !in h.nodes
    requires forall i, j :: 0 <= i < j < |ids| ==> ids[i] != ids[j]
    ensures LoadRecords(h, Records(g, ids)) == Success(h.(nodes := Loaded(h.nodes, g, ids)))
    decreases |ids|
  {
    hide LoadRecord, NodeRecord, Reloaded, NodeReloadable;
    if |ids| > 0 {
      var id := ids[0];
      var n := g.nodes[id];
      RecordRoundTrip(n, h);
      var h1 := h.(nodes := h.nodes[id := Reloaded(n)]);
      var tail := ids[1..];
      assert forall i :: 0 <= i < |tail| ==> tail[i] in g.nodes && tail[i] !in h1.nodes by {
        forall i | 0 <= i < |tail| ensures tail[i] in g.nodes && tail[i] !in h1.nodes {
          assert tail[i] == ids[i + 1];
        }
      }
      RecordsRoundTrip(g, tail, h1);
      assert Records(g, ids)[0] == NodeRecord(n);
      assert Records(g, ids)[1..] == Records(g, tail);
    }
  }

  /** The nodes `m` with the reloaded node of each of `ids` added in turn. */
  function Loaded(m: map<int, Node>, g: NodeData, ids: seq<int>): map<int, Node>
    requires forall i :: 0 <= i < |ids| ==> ids[i] in g.nodes
    decreases |ids|
  {
    if |ids| == 0 then m else Loaded(m[ids[0] := Reloaded(g.nodes[ids[0]])], g, ids[1..])
  }

  lemma {:induction false} LoadedContents(m: map<int, Node>, g: NodeData, ids: seq<int>)
    requires forall i :: 0 <= i < |ids| ==> ids[i] in g.nodes
    ensures forall x :: x in Loaded(m, g, ids) <==> x in m || x in ids
    ensures forall x :: x in ids ==> x in g.nodes && Loaded(m, g, ids)[x] == Reloaded(g.nodes[x])
    ensures forall x :: x in m && x !in ids ==> Loaded(m, g, ids)[x] == m[x]
    decreases |ids|
  {
    hide Reloaded;
    if |ids| > 0 {
      var m1 := m[ids[0] := Reloaded(g.nodes[ids[0]])];
      LoadedContents(m1, g, ids[1..]);
      assert forall x :: x in ids <==> x == ids[0] || x in ids[1..];
    }
  }

  lemma {:induction false} JoinNone(sep: char)
    ensures Join([], sep) == ""
  {
  }

  lemma {:induction false} JoinNonEmpty(parts: seq<string>, sep: char)
    requires |parts| > 0 && |parts[0]| > 0
    ensures |Join(parts, sep)| > 0
  {
  }

  /** Saving a table and loading the text back gives the written nodes as reloaded,
      and drops the unused default constants; the counters and outputs stay. */
  lemma {:induction false} SaveLoadRoundTrip(g: NodeData, order: seq<int>)
    requires Enumerates(order, g.nodes.Keys) && Reloadable(g)
    ensures Deserialize(Serialize(g, order), g) ==
      Success(g.(nodes := map id | id in g.nodes && Saved(g, id) :: Reloaded(g.nodes[id])))
  {
    hide NodeRecord, LoadRecords, LoadRecord, Reloaded, Records, Split, Join, NodeReloadable, Serialize;
    hide ParseInt, TrimStart, TrimEnd, ParseSigned, IntToString;
    var saved := SavedIds(g, order);
    var records := Records(g, saved);
    var want := map id | id in g.nodes && Saved(g, id) :: Reloaded(g.nodes[id]);
    var cleared := g.(nodes := map[]);
    if |saved| == 0 {
      assert want == map[];
    } else {
      RecordsRoundTrip(g, saved, cleared);
      LoadedSaved(g, order);
    }
  }

  /** Reloading the written ids one by one into an empty table gives exactly the
      written nodes, reloaded. */
  lemma {:induction false} LoadedSaved(g: NodeData, order: seq<int>)
    requires Enumerates(order, g.nodes.Keys)
    ensures Loaded(map[], g, SavedIds(g, order)) ==
      map id | id in g.nodes && Saved(g, id) :: Reloaded(g.nodes[id])
  {
    hide Reloaded;
    var saved := SavedIds(g, order);
    var want := map id | id in g.nodes && Saved(g, id) :: Reloaded(g.nodes[id]);
    var got := Loaded(map[], g, saved);
    LoadedContents(map[], g, saved);
    forall x ensures x in got <==> x in want {
      assert x in saved <==> x in order && Saved(g, x);
    }
    assert got.Keys == want.Keys;
  }

  /** No record holds the record separator. */
  lemma {:induction false} RecordAvoidsHash(n: Node)
    requires NodeReloadable(n)
    ensures '#' !in NodeRecord(n)
  {
    hide OwnSlots, Slots, KeptTexts, FieldsText, TypeId, IntToString, PositionText, InputsText;
    hide D.DefaultPayload, Join, Storable;
    TypeIdPlain(n.kind);
    PrintedAvoids(IntToString(n.id), '#');
    var head := [TypeId(n.kind), IntToString(n.id)];
    if n.kind.DefaultNode? {
      D.PayloadHasNoRecordSeparator(n.kind.constant);
      JoinAvoids(head + [D.DefaultPayload(n.kind.constant)], '|', '#');
    } else {
      PositionTextAvoids(n.position, '#');
      InputsTextAvoids(n.inputs, '#');
      FieldsTextSplits(n.kind);
      JoinAvoids(head + [PositionText(n.position), InputsText(n.inputs), FieldsText(Slots(n.kind), 0)], '|', '#');
    }
  }

  // ----- the one-record guard -----

  /** The two loaders differ only on text that is one non-empty record. */
  lemma {:induction false} LoadersAgree(data: string, g: NodeData)
    requires data == "" || |Split(data, '#')| != 1
    ensures DeserializeAsWritten(data, g) == Deserialize(data, g)
  {
    if data == "" {
      assert Split(data, '#') == [""];
    }
  }

  /** A table with exactly one written node is saved as a single record, which the
      loader as written discards: the reloaded table is empty, where the corrected
      loader restores the node. */
  lemma {:induction false} OneNodeLostAsWritten(g: NodeData, order: seq<int>)
    requires Enumerates(order, g.nodes.Keys) && Reloadable(g)
    requires |SavedIds(g, order)| == 1
    ensures DeserializeAsWritten(Serialize(g, order), g) == Success(g.(nodes := map[]))
    ensures Deserialize(Serialize(g, order), g).Success?
    ensures |Deserialize(Serialize(g, order), g).value.nodes| == 1
  {
    hide NodeRecord, Reloaded, LoadRecords, Records, Split, Join, Deserialize, NodeReloadable;
    var saved := SavedIds(g, order);
    var records := Records(g, saved);
    RecordAvoidsHash(g.nodes[saved[0]]);
    SplitJoin(records, '#');
    SaveLoadRoundTrip(g, order);
    var want := map id | id in g.nodes && Saved(g, id) :: Reloaded(g.nodes[id]);
    assert want.Keys == {saved[0]} by {
      assert forall id :: id in saved <==> id == saved[0];
    }
  }

  /** A table holding one float value node: it is saved, and the loader as written
      brings it back empty. */
  lemma {:induction false} SingleFloatNodeLost()
    ensures var n := Construct(FreshValueNode(Float), 2);
      var g := EmptyGraph.(nodes := map[2 := n], lastId := 2);
      DeserializeAsWritten(Serialize(g, [2]), g) == Success(g.(nodes := map[])) &&
      Deserialize(Serialize(g, [2]), g).Success? &&
      |Deserialize(Serialize(g, [2]), g).value.nodes| == 1
  {
    hide Serialize, Deserialize, DeserializeAsWritten, NodeRecord, Reloaded, TypeId, OwnSlots, Slots;
    var n := Construct(FreshValueNode(Float), 2);
    var g := EmptyGraph.(nodes := map[2 := n], lastId := 2);
    assert Saved(g, 2);
    assert SavedIds(g, [2]) == [2];
    assert Reloadable(g) by {
      assert RoundDiv16(0) == 0;
      assert NodeReloadable(n);
    }
    OneNodeLostAsWritten(g, [2]);
  }
}
