/** A node's public instance fields in reflection order (`GetFields`): the class's own
    fields first, then each base class's, ending with `Node`'s. The serialiser keeps a
    field unless it is `[NonSerialized]` or is one of `Inputs`, `Position` and `NodeId`,
    which the record carries separately. It writes a '|' before every kept field except
    the one at reflection index 0, and reads the kept fields back in order. */
module NodeFields {
  import opened Wrappers
  import opened Text
  import opened ValueTypes
  import opened FieldCodec
  import opened Nodes
  import Op = OperationNodes
  import M = MathNodes
  import VM = VectorMathNodes
  import Q = QuaternionNodes
  import O = OtherNodes
  import V = ValueNodes

  /** The public fields the serialiser passes over, by name: `Node`'s own, all
      `[NonSerialized]` or carried elsewhere in the record, and a value node's
      `[NonSerialized]` `ValueNodeType`. */
  datatype SkippedField =
    | InputsField | OutputTypeField | CashedOutputTypeField | ProcessorField | ParentField
    | NameField | PositionField | DrawPropertiesField | NodeWidthField | NodeHeightField
    | NodeIdField | ControllableField | ValueNodeTypeField

  /** One public field: skipped (named, for the reader) or kept with its value. */
  datatype Slot = Skipped(name: SkippedField) | Kept(field: Field)

  /** `Node`'s own public fields; none of them goes into the field list. */
  const NodeSlots: seq<Slot> := [
    Skipped(InputsField), Skipped(OutputTypeField), Skipped(CashedOutputTypeField), Skipped(ProcessorField),
    Skipped(ParentField), Skipped(NameField), Skipped(PositionField), Skipped(DrawPropertiesField),
    Skipped(NodeWidthField), Skipped(NodeHeightField), Skipped(NodeIdField), Skipped(ControllableField)]

  /** The fields a kind's class declares itself or inherits from a class below `Node`,
      most derived first. A value class declares `Value`; its parent `ValueNode` declares
      the skipped `ValueNodeType` and `IOMode`; `ExternalValueNode` declares `ValueName`
      and `UseAsExternal`. A default constant's `Value` is listed for completeness only:
      that class writes its own payload instead. */
  function OwnSlots(k: Kind): seq<Slot> {
    match k
    case LerpNode => []
    case ConditionNode(c, invert) => [Kept(EnumField(Op.ConditionOrdinal(c))), Kept(BoolField(invert))]
    case IfNode => []
    case BoolOperatorNode(op) => [Kept(EnumField(Op.BoolOrdinal(op)))]
    case VecModifyNode => []
    case VecConstrNode(s) => [Kept(EnumField(Op.ShapeOrdinal(s)))]
    case ColorHSVNode(h) => [Kept(EnumField(Op.HsvOrdinal(h)))]
    case ConvertNode(c) => [Kept(EnumField(Op.ConvertOrdinal(c)))]
    case VecSwizzleNode(components) => [Kept(StringField(Written(components)))]
    case MathNode(op) => [Kept(EnumField(M.MathOrdinal(op)))]
    case VectorMathNode(op) => [Kept(EnumField(VM.VectorOrdinal(op)))]
    case QuaternionMathNode(op) => [Kept(EnumField(Q.QuaternionOrdinal(op)))]
    case PerlinNode => []
    case SpringNode(hardness, damping) => [Kept(FloatField(hardness)), Kept(FloatField(damping))]
    case DeltaNode => []
    case DozerNode(freeze) => [Kept(BoolField(freeze))]
    case TimerNode(l, speed, limit, inverse, to01) =>
      [Kept(EnumField(O.LimitOrdinal(l))), Kept(FloatField(speed)), Kept(FloatField(limit)),
       Kept(BoolField(inverse)), Kept(BoolField(to01))]
    case ValueNode(v, io, name, external) =>
      [Kept(ValueField(v)), Skipped(ValueNodeTypeField), Kept(EnumField(V.IOModeOrdinal(io))),
       Kept(StringField(Written(name))), Kept(BoolField(external))]
    case AnimationCurveNode(c, name, external) =>
      [Kept(CurveField(c)), Kept(StringField(Written(name))), Kept(BoolField(external))]
    case GradientNode(g, name, external) =>
      [Kept(GradientField(g)), Kept(StringField(Written(name))), Kept(BoolField(external))]
    case RandomNode(rt) => [Kept(EnumField(V.RandomOrdinal(rt)))]
    case DefaultNode(c) => [Kept(ValueField(c))]
  }

  /** A string field's text in the record: `StringBuilder.Append` writes nothing for
      `null`. */
  function Written(s: Option<string>): string {
    s.GetOr("")
  }

  /** No string field of the kind is `null`. */
  predicate StringsSet(k: Kind) {
    match k
    case VecSwizzleNode(components) => components.Some?
    case ValueNode(_, _, name, _) => name.Some?
    case AnimationCurveNode(_, name, _) => name.Some?
    case GradientNode(_, name, _) => name.Some?
    case _ => true
  }

  /** The kind as a load restores it: each string field holds the text that was written,
      so a `null` string comes back empty and every other field is unchanged. */
  function LoadedKind(k: Kind): (r: Kind)
    ensures TypeId(r) == TypeId(k) && StringsSet(r)
  {
    match k
    case VecSwizzleNode(components) => VecSwizzleNode(Some(Written(components)))
    case ValueNode(v, io, name, external) => ValueNode(v, io, Some(Written(name)), external)
    case AnimationCurveNode(c, name, external) => AnimationCurveNode(c, Some(Written(name)), external)
    case GradientNode(g, name, external) => GradientNode(g, Some(Written(name)), external)
    case _ => k
  }

  /** A load restores a kind unchanged exactly when none of its strings is `null`; a
      fresh swizzle or value node therefore comes back with empty strings. */
  lemma {:induction false} LoadedKindUnchanged(k: Kind)
    ensures LoadedKind(k) == k <==> StringsSet(k)
    ensures k == Fresh(k) && (k.VecSwizzleNode? || k.ValueNode? || k.AnimationCurveNode? || k.GradientNode?) ==>
      LoadedKind(k) != k
  {
  }

  /** All public instance fields of the kind's class, in reflection order. */
  function Slots(k: Kind): seq<Slot> {
    OwnSlots(k) + NodeSlots
  }

  // ----- writing -----

  /** The field list from reflection index `i` on: each kept field's text, preceded by
      '|' unless it sits at index 0. */
  function FieldsText(slots: seq<Slot>, i: nat): string
    decreases |slots| - i
  {
    if i >= |slots| then ""
    else
      var here := match slots[i]
        case Skipped(_) => ""
        case Kept(f) => (if i != 0 then "|" else "") + FieldText(f);
      here + FieldsText(slots, i + 1)
  }

  /** The texts of the kept fields, in order. */
  function KeptTexts(slots: seq<Slot>): seq<string>
    decreases |slots|
  {
    if |slots| == 0 then []
    else (if slots[0].Kept? then [FieldText(slots[0].field)] else []) + KeptTexts(slots[1..])
  }

  /** Each text preceded by `sep`. */
  function PrefixEach(ts: seq<string>, sep: char): string
    decreases |ts|
  {
    if |ts| == 0 then "" else [sep] + ts[0] + PrefixEach(ts[1..], sep)
  }

  /** The layouts whose field list reads back in order: the field at reflection index 0
      is kept, or no field is. */
  predicate Aligned(slots: seq<Slot>) {
    (|slots| > 0 && slots[0].Kept?) || forall i :: 0 <= i < |slots| ==> slots[i].Skipped?
  }

  lemma {:induction false} JoinPrefix(t: string, ts: seq<string>, sep: char)
    ensures Join([t] + ts, sep) == t + PrefixEach(ts, sep)
    decreases |ts|
  {
    if |ts| > 0 {
      assert ([t] + ts)[1..] == ts;
      JoinPrefix(ts[0], ts[1..], sep);
      assert [ts[0]] + ts[1..] == ts;
    }
  }

  /** Past index 0 every kept field is preceded by '|'. */
  lemma {:induction false} PrefixedFrom(slots: seq<Slot>, i: nat)
    requires 1 <= i <= |slots|
    ensures FieldsText(slots, i) == PrefixEach(KeptTexts(slots[i..]), '|')
    decreases |slots| - i
  {
    if i < |slots| {
      PrefixedFrom(slots, i + 1);
      var tail := KeptTexts(slots[i + 1..]);
      assert slots[i..][1..] == slots[i + 1..];
      if slots[i].Kept? {
        var t := FieldText(slots[i].field);
        assert KeptTexts(slots[i..]) == [t] + tail;
        assert ([t] + tail)[1..] == tail;
      } else {
        assert KeptTexts(slots[i..]) == tail;
      }
    }
  }

  lemma {:induction false} NoneKept(slots: seq<Slot>)
    requires forall i :: 0 <= i < |slots| ==> slots[i].Skipped?
    ensures KeptTexts(slots) == []
    decreases |slots|
  {
    if |slots| > 0 {
      NoneKept(slots[1..]);
    }
  }

  /** In an aligned layout the field list is the kept texts joined by '|'. */
  lemma {:induction false} AlignedText(slots: seq<Slot>)
    requires Aligned(slots)
    ensures FieldsText(slots, 0) == Join(KeptTexts(slots), '|')
  {
    if |slots| == 0 {
    } else if slots[0].Kept? {
      PrefixedFrom(slots, 1);
      JoinPrefix(FieldText(slots[0].field), KeptTexts(slots[1..]), '|');
    } else {
      NoneKept(slots);
      NoneKept(slots[1..]);
      PrefixedFrom(slots, 1);
    }
  }

  /** Every class's field at reflection index 0 is kept, or it has no kept field. */
  lemma {:induction false} EveryLayoutAligned(k: Kind)
    ensures Aligned(Slots(k))
  {
    if OwnSlots(k) == [] {
      assert Slots(k) == NodeSlots;
    }
  }

  // ----- reading -----

  /** What `DeserializeField` needs to know of a field: its name if skipped, its type if
      kept. */
  datatype Shape = SkippedShape(name: SkippedField) | KeptShape(ty: FieldType)

  function ShapeOf(s: Slot): Shape {
    match s
    case Skipped(n) => SkippedShape(n)
    case Kept(f) => KeptShape(TypeOf(f))
  }

  /** Two field lists of the same class. */
  predicate SameLayout(a: seq<Slot>, b: seq<Slot>) {
    |a| == |b| && forall i :: 0 <= i < |a| ==> ShapeOf(a[i]) == ShapeOf(b[i])
  }

  /** The field loop of `Deserialize`: every kept field of the constructed node takes
      the next item, parsed as its declared type; running out of items is an index out
      of range. Skipped fields keep their constructor values. */
  function ReadInto(slots: seq<Slot>, items: seq<string>): (r: Result<seq<Slot>>)
    ensures r.Success? ==> SameLayout(slots, r.value)
    decreases |slots|
  {
    if |slots| == 0 then Success([])
    else
      match slots[0]
      case Skipped(n) =>
        var rest :- ReadInto(slots[1..], items);
        Success([Skipped(n)] + rest)
      case Kept(f) =>
        if |items| == 0 then Failure("index out of range")
        else
          var g :- ReadField(TypeOf(f), items[0]);
          var rest :- ReadInto(slots[1..], items[1..]);
          Success([Kept(g)] + rest)
  }

  /** Kept fields whose text reads back. */
  predicate AllRestorable(slots: seq<Slot>) {
    forall i :: 0 <= i < |slots| && slots[i].Kept? ==> Restorable(slots[i].field)
  }

  /** Reading the kept texts of `slots` into a node of the same class restores every
      field, whatever items follow. */
  lemma {:induction false} ReadIntoRoundTrip(start: seq<Slot>, slots: seq<Slot>, rest: seq<string>)
    requires SameLayout(start, slots) && AllRestorable(slots)
    ensures ReadInto(start, KeptTexts(slots) + rest) == Success(slots)
    decreases |slots|
  {
    if |slots| > 0 {
      var tail := KeptTexts(slots[1..]) + rest;
      assert SameLayout(start[1..], slots[1..]) by {
        forall i | 0 <= i < |slots| - 1 ensures ShapeOf(start[1..][i]) == ShapeOf(slots[1..][i]) {
          assert ShapeOf(start[i + 1]) == ShapeOf(slots[i + 1]);
        }
      }
      assert AllRestorable(slots[1..]) by {
        forall i | 0 <= i < |slots| - 1 && slots[1..][i].Kept? ensures Restorable(slots[1..][i].field) {
          assert slots[1..][i] == slots[i + 1];
        }
      }
      ReadIntoRoundTrip(start[1..], slots[1..], rest);
      assert ShapeOf(start[0]) == ShapeOf(slots[0]);
      assert [slots[0]] + slots[1..] == slots;
      match slots[0]
      case Skipped(n) =>
        assert start[0] == Skipped(n);
        assert KeptTexts(slots) + rest == tail;
        assert ReadInto(start, tail) == Success([Skipped(n)] + slots[1..]);
      case Kept(f) =>
        assert Restorable(f);
        FieldRoundTrip(f);
        var items := [FieldText(f)] + tail;
        assert KeptTexts(slots) + rest == items;
        assert items[0] == FieldText(f) && items[1..] == tail;
        assert start[0].Kept? && TypeOf(start[0].field) == TypeOf(f);
        assert ReadInto(start, items) == Success([Kept(f)] + slots[1..]);
    }
  }

  /** A field list read with the wrong alignment is shifted: with index 0 skipped, the
      list opens with '|', and a kept bool would read the empty item before it. */
  lemma {:induction false} MisalignedLayoutShifts()
    ensures var slots := [Skipped(NameField), Kept(BoolField(true))];
      FieldsText(slots, 0) == "|t" &&
      ReadInto(slots, Split(FieldsText(slots, 0), '|')) == Success([Skipped(NameField), Kept(BoolField(false))])
  {
    var slots := [Skipped(NameField), Kept(BoolField(true))];
    assert FieldsText(slots, 2) == "";
    assert FieldsText(slots, 1) == "|t";
    SplitFirst("", '|', "t");
    SplitNoSeparator("t", '|');
    assert Split("|t", '|') == ["", "t"];
    var items := ["", "t"];
    var one := [Kept(BoolField(true))];
    assert slots[1..] == one && one[1..] == [];
    assert ReadField(BoolType, "") == Success(BoolField(false));
    assert ReadInto(one[1..], items[1..]) == Success([]);
    assert [Kept(BoolField(false))] + [] == [Kept(BoolField(false))];
    assert ReadInto(one, items) == Success([Kept(BoolField(false))]);
    assert ReadInto(slots, items) == Success([Skipped(NameField)] + [Kept(BoolField(false))]);
    assert [Skipped(NameField)] + [Kept(BoolField(false))] == [Skipped(NameField), Kept(BoolField(false))];
  }

  // ----- rebuilding the kind -----

  function EnumAt<T>(slots: seq<Slot>, i: nat, table: seq<T>): (r: Result<T>)
    ensures r.Success? ==> i < |slots| && slots[i].Kept? && slots[i].field.EnumField?
  {
    if i < |slots| && slots[i].Kept? && slots[i].field.EnumField? then
      var n := slots[i].field.ordinal;
      if 0 <= n < |table| then Success(table[n]) else Failure("not a declared member")
    else Failure("field type mismatch")
  }

  function BoolAt(slots: seq<Slot>, i: nat): (r: Result<bool>) {
    if i < |slots| && slots[i].Kept? && slots[i].field.BoolField? then Success(slots[i].field.flag)
    else Failure("field type mismatch")
  }

  function FloatAt(slots: seq<Slot>, i: nat): (r: Result<FloatText>) {
    if i < |slots| && slots[i].Kept? && slots[i].field.FloatField? then Success(slots[i].field.text)
    else Failure("field type mismatch")
  }

  function StringAt(slots: seq<Slot>, i: nat): (r: Result<string>) {
    if i < |slots| && slots[i].Kept? && slots[i].field.StringField? then Success(slots[i].field.chars)
    else Failure("field type mismatch")
  }

  function ValueAt(slots: seq<Slot>, i: nat, t: ValueType): (r: Result<Value>)
    requires IsPayloadType(t)
    ensures r.Success? ==> TypeOfValue(r.value) == t
  {
    if i < |slots| && slots[i].Kept? then
      match FieldValue(t, slots[i].field)
      case Some(v) => Success(v)
      case None => Failure("field type mismatch")
    else Failure("field type mismatch")
  }

  /** The kind with the field values of `slots`, for the class of `k0`. Slots read with
      the class's own layout always have the right types; an enum value outside the
      declared members is a failure here, where C# would store the bare integer. */
  function FromSlots(k0: Kind, slots: seq<Slot>): (r: Result<Kind>)
    ensures r.Success? ==> TypeId(r.value) == TypeId(k0)
  {
    match k0
    case ConditionNode(_, _) => FromOperationSlots(k0, slots)
    case BoolOperatorNode(_) => FromOperationSlots(k0, slots)
    case VecConstrNode(_) => FromOperationSlots(k0, slots)
    case ColorHSVNode(_) => FromOperationSlots(k0, slots)
    case ConvertNode(_) => FromOperationSlots(k0, slots)
    case VecSwizzleNode(_) => FromOperationSlots(k0, slots)
    case MathNode(_) => FromOperationSlots(k0, slots)
    case VectorMathNode(_) => FromOperationSlots(k0, slots)
    case QuaternionMathNode(_) => FromOperationSlots(k0, slots)
    case SpringNode(_, _) => FromOtherSlots(k0, slots)
    case DozerNode(_) => FromOtherSlots(k0, slots)
    case TimerNode(_, _, _, _, _) => FromOtherSlots(k0, slots)
    case RandomNode(_) => FromOtherSlots(k0, slots)
    case ValueNode(_, _, _, _) => FromValueSlots(k0, slots)
    case AnimationCurveNode(_, _, _) => FromValueSlots(k0, slots)
    case GradientNode(_, _, _) => FromValueSlots(k0, slots)
    case DefaultNode(_) => FromValueSlots(k0, slots)
    case _ => Success(k0)
  }

  /** `FromSlots` for the operation classes: an enum or the swizzle mask at index 0,
      and the condition's `Invert` at index 1. */
  function FromOperationSlots(k0: Kind, slots: seq<Slot>): (r: Result<Kind>)
    requires k0.ConditionNode? || k0.BoolOperatorNode? || k0.VecConstrNode? || k0.ColorHSVNode?
      || k0.ConvertNode? || k0.VecSwizzleNode? || k0.MathNode? || k0.VectorMathNode?
      || k0.QuaternionMathNode?
    ensures r.Success? ==> TypeId(r.value) == TypeId(k0)
  {
    match k0
    case ConditionNode(_, _) =>
      var c :- EnumAt(slots, 0, Op.ConditionOperations);
      var invert :- BoolAt(slots, 1);
      Success(ConditionNode(c, invert))
    case BoolOperatorNode(_) =>
      var op :- EnumAt(slots, 0, Op.BoolOperations);
      Success(BoolOperatorNode(op))
    case VecConstrNode(_) =>
      var s :- EnumAt(slots, 0, Op.VectorShapes);
      Success(VecConstrNode(s))
    case ColorHSVNode(_) =>
      var h :- EnumAt(slots, 0, Op.HsvOperations);
      Success(ColorHSVNode(h))
    case ConvertNode(_) =>
      var c :- EnumAt(slots, 0, Op.ConvertOperations);
      Success(ConvertNode(c))
    case VecSwizzleNode(_) =>
      var s :- StringAt(slots, 0);
      Success(VecSwizzleNode(Some(s)))
    case MathNode(_) =>
      var op :- EnumAt(slots, 0, M.MathOperations);
      Success(MathNode(op))
    case VectorMathNode(_) =>
      var op :- EnumAt(slots, 0, VM.VectorOperations);
      Success(VectorMathNode(op))
    case QuaternionMathNode(_) =>
      var op :- EnumAt(slots, 0, Q.QuaternionOperations);
      Success(QuaternionMathNode(op))
  }

  /** `FromSlots` for the spring, dozer, timer and random classes. */
  function FromOtherSlots(k0: Kind, slots: seq<Slot>): (r: Result<Kind>)
    requires k0.SpringNode? || k0.DozerNode? || k0.TimerNode? || k0.RandomNode?
    ensures r.Success? ==> TypeId(r.value) == TypeId(k0)
  {
    match k0
    case SpringNode(_, _) =>
      var hardness :- FloatAt(slots, 0);
      var damping :- FloatAt(slots, 1);
      Success(SpringNode(hardness, damping))
    case DozerNode(_) =>
      var freeze :- BoolAt(slots, 0);
      Success(DozerNode(freeze))
    case TimerNode(_, _, _, _, _) =>
      var l :- EnumAt(slots, 0, O.LimitTypes);
      var speed :- FloatAt(slots, 1);
      var limit :- FloatAt(slots, 2);
      var inverse :- BoolAt(slots, 3);
      var to01 :- BoolAt(slots, 4);
      Success(TimerNode(l, speed, limit, inverse, to01))
    case RandomNode(_) =>
      var rt :- EnumAt(slots, 0, V.RandomTypes);
      Success(RandomNode(rt))
  }

  /** `FromSlots` for the value classes: the value, curve or gradient at index 0, then
      (for a value node, past the skipped `ValueNodeType`) `IOMode`, `ValueName` and
      `UseAsExternal`. A default constant's payload keeps its class's type. */
  function FromValueSlots(k0: Kind, slots: seq<Slot>): (r: Result<Kind>)
    requires k0.ValueNode? || k0.AnimationCurveNode? || k0.GradientNode? || k0.DefaultNode?
    ensures r.Success? ==> TypeId(r.value) == TypeId(k0)
  {
    match k0
    case ValueNode(v0, _, _, _) =>
      var v :- ValueAt(slots, 0, TypeOfValue(v0));
      var io :- EnumAt(slots, 2, V.IOModes);
      var name :- StringAt(slots, 3);
      var external :- BoolAt(slots, 4);
      Success(ValueNode(v, io, Some(name), external))
    case AnimationCurveNode(_, _, _) =>
      if 0 < |slots| && slots[0].Kept? && slots[0].field.CurveField? then
        var name :- StringAt(slots, 1);
        var external :- BoolAt(slots, 2);
        Success(AnimationCurveNode(slots[0].field.curve, Some(name), external))
      else Failure("field type mismatch")
    case GradientNode(_, _, _) =>
      if 0 < |slots| && slots[0].Kept? && slots[0].field.GradientField? then
        var name :- StringAt(slots, 1);
        var external :- BoolAt(slots, 2);
        Success(GradientNode(slots[0].field.gradient, Some(name), external))
      else Failure("field type mismatch")
    case DefaultNode(c0) =>
      var v :- ValueAt(slots, 0, TypeOfValue(c0));
      Success(DefaultNode(v))
  }

  /** The fields part of loading a node of the class of `k0` from `items`. */
  function ReadKind(k0: Kind, items: seq<string>): (r: Result<Kind>)
    ensures r.Success? ==> TypeId(r.value) == TypeId(k0)
  {
    var slots :- ReadInto(Slots(k0), items);
    FromSlots(k0, slots)
  }

  /** A string field's text is safe inside a record: it holds neither the field nor the
      record separator. */
  predicate Plain(s: string) {
    '|' !in s && '#' !in s
  }

  /** The kinds whose fields survive a save and a load: their strings are plain and a
      gradient has a key of each kind. */
  predicate Storable(k: Kind) {
    match k
    case VecSwizzleNode(components) => Plain(Written(components))
    case ValueNode(_, _, name, _) => Plain(Written(name))
    case AnimationCurveNode(_, name, _) => Plain(Written(name))
    case GradientNode(g, name, _) => Plain(Written(name)) && |g.colorKeys| > 0 && |g.alphaKeys| > 0
    case _ => true
  }

  /** Layouts that agree on a prefix and on the rest agree on the whole. */
  lemma {:induction false} SameLayoutAppend(a: seq<Slot>, b: seq<Slot>, tail: seq<Slot>)
    requires SameLayout(a, b)
    ensures SameLayout(a + tail, b + tail)
  {
    forall i | 0 <= i < |a + tail| ensures ShapeOf((a + tail)[i]) == ShapeOf((b + tail)[i]) {
      if i >= |a| {
        assert (a + tail)[i] == tail[i - |a|] == (b + tail)[i];
      }
    }
  }

  /** A fresh node of the same class has the same layout. */
  lemma {:induction false} FreshSameLayout(k: Kind)
    ensures SameLayout(Slots(Fresh(k)), Slots(k))
  {
    hide TypeId, ValueField;
    var a := OwnSlots(Fresh(k));
    var b := OwnSlots(k);
    if k.ValueNode? {
      ValueFieldRoundTrip(k.value);
      ValueFieldRoundTrip(Fresh(k).value);
      assert ShapeOf(a[0]) == ShapeOf(b[0]);
      assert SameLayout(a, b);
    } else if k.DefaultNode? {
      ValueFieldRoundTrip(k.constant);
      ValueFieldRoundTrip(Fresh(k).constant);
      assert ShapeOf(a[0]) == ShapeOf(b[0]);
      assert SameLayout(a, b);
    } else {
      FreshSameOwnLayout(k);
    }
    SameLayoutAppend(a, b, NodeSlots);
  }

  /** The classes without a value field: a fresh node's own fields have the same shapes. */
  lemma {:induction false} FreshSameOwnLayout(k: Kind)
    requires !k.ValueNode? && !k.DefaultNode?
    ensures SameLayout(OwnSlots(Fresh(k)), OwnSlots(k))
  {
    hide TypeId, ValueField;
  }

  /** The kind's slots hold only restorable fields when it is storable. */
  lemma {:induction false} StorableRestorable(k: Kind)
    requires Storable(k)
    ensures AllRestorable(Slots(k))
  {
    forall i | 0 <= i < |Slots(k)| && Slots(k)[i].Kept? ensures Restorable(Slots(k)[i].field) {
      assert i < |OwnSlots(k)|;
    }
  }

  /** A node's own field values rebuild its kind, with `null` strings read as empty. */
  lemma {:induction false} FromOwnSlots(k: Kind)
    ensures FromSlots(Fresh(k), Slots(k)) == Success(LoadedKind(k))
  {
    hide TypeId, FromOperationSlots, FromOtherSlots, FromValueSlots, OwnSlots;
    if k.ValueNode? || k.AnimationCurveNode? || k.GradientNode? || k.DefaultNode? {
      FromOwnValueSlots(k);
    } else if k.SpringNode? || k.DozerNode? || k.TimerNode? || k.RandomNode? {
      FromOwnOtherSlots(k);
    } else if !(k.LerpNode? || k.IfNode? || k.VecModifyNode? || k.PerlinNode? || k.DeltaNode?) {
      FromOwnOperationSlots(k);
    }
  }

  lemma {:induction false} FromOwnOperationSlots(k: Kind)
    requires k.ConditionNode? || k.BoolOperatorNode? || k.VecConstrNode? || k.ColorHSVNode?
      || k.ConvertNode? || k.VecSwizzleNode? || k.MathNode? || k.VectorMathNode?
      || k.QuaternionMathNode?
    ensures FromSlots(Fresh(k), Slots(k)) == Success(LoadedKind(k))
  {
    hide TypeId, FromOtherSlots, FromValueSlots;
    var own := OwnSlots(k);
    assert forall i :: 0 <= i < |own| ==> Slots(k)[i] == own[i];
  }

  lemma {:induction false} FromOwnOtherSlots(k: Kind)
    requires k.SpringNode? || k.DozerNode? || k.TimerNode? || k.RandomNode?
    ensures FromSlots(Fresh(k), Slots(k)) == Success(LoadedKind(k))
  {
    hide TypeId, FromOperationSlots, FromValueSlots;
    var own := OwnSlots(k);
    assert forall i :: 0 <= i < |own| ==> Slots(k)[i] == own[i];
  }

  lemma {:induction false} FromOwnValueSlots(k: Kind)
    requires k.ValueNode? || k.AnimationCurveNode? || k.GradientNode? || k.DefaultNode?
    ensures FromSlots(Fresh(k), Slots(k)) == Success(LoadedKind(k))
  {
    hide TypeId, FromOperationSlots, FromOtherSlots;
    var own := OwnSlots(k);
    assert forall i :: 0 <= i < |own| ==> Slots(k)[i] == own[i];
    if k.ValueNode? {
      ValueFieldRoundTrip(k.value);
    } else if k.DefaultNode? {
      ValueFieldRoundTrip(k.constant);
    }
  }

  /** Every storable kind reads back from its kept field texts into a freshly constructed
      node of its class, whatever items follow them: as itself, except that a `null`
      string comes back empty. */
  lemma {:induction false} KindRoundTrip(k: Kind, rest: seq<string>)
    requires Storable(k)
    ensures ReadKind(Fresh(k), KeptTexts(Slots(k)) + rest) == Success(LoadedKind(k))
    ensures StringsSet(k) ==> ReadKind(Fresh(k), KeptTexts(Slots(k)) + rest) == Success(k)
  {
    FreshSameLayout(k);
    StorableRestorable(k);
    ReadIntoRoundTrip(Slots(Fresh(k)), Slots(k), rest);
    FromOwnSlots(k);
    LoadedKindUnchanged(k);
  }

  /** The field list of a storable kind holds neither separator of the record. */
  lemma {:induction false} KeptTextsAvoid(k: Kind, x: char)
    requires Storable(k) && (x == '#' || x == '|')
    ensures forall i :: 0 <= i < |KeptTexts(Slots(k))| ==> x !in KeptTexts(Slots(k))[i]
  {
    var slots := Slots(k);
    forall i | 0 <= i < |slots| && slots[i].Kept? ensures x !in FieldText(slots[i].field) {
      assert i < |OwnSlots(k)|;
      FieldTextAvoids(slots[i].field, x);
    }
    KeptTextsFrom(slots, x);
  }

  lemma {:induction false} KeptTextsFrom(slots: seq<Slot>, x: char)
    requires forall i :: 0 <= i < |slots| && slots[i].Kept? ==> x !in FieldText(slots[i].field)
    ensures forall i :: 0 <= i < |KeptTexts(slots)| ==> x !in KeptTexts(slots)[i]
    decreases |slots|
  {
    if |slots| > 0 {
      KeptTextsFrom(slots[1..], x);
    }
  }
}
