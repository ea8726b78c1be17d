/** A node of the graph: which kind it is (with the settings that kind keeps), its
    input links, its declared and cached output types, and whether the editor may
    remove or copy it. Every kind's constructor, `OnValidate` and
    `CheckInputsAndGetType` is dispatched from here to the kind's own module. */
module Nodes {
  import opened Wrappers
  import opened Text
  import opened ValueTypes
  import opened Links
  import opened NodeBase
  import Op = OperationNodes
  import M = MathNodes
  import VM = VectorMathNodes
  import Q = QuaternionNodes
  import O = OtherNodes
  import V = ValueNodes
  import P = PerlinNodes
  import NC = NodeCollector

  /** The node classes the registry knows, each with the public fields it keeps. A value
      node's class is the type of the value it holds; so is a default node's. */
  datatype Kind =
    | LerpNode
    | ConditionNode(condition: Op.ConditionOperation, invert: bool)
    | IfNode
    | BoolOperatorNode(boolOp: Op.BoolOperation)
    | VecModifyNode
    | VecConstrNode(shape: Op.VectorShape)
    | ColorHSVNode(hsv: Op.HsvOperation)
    | ConvertNode(convert: Op.ConvertOperation)
    | VecSwizzleNode(components: Option<string>)
    | MathNode(math: M.MathOperation)
    | VectorMathNode(vectorOp: VM.VectorOperation)
    | QuaternionMathNode(quaternionOp: Q.QuaternionOperation)
    | PerlinNode
    | SpringNode(hardness: FloatText, damping: FloatText)
    | DeltaNode
    | DozerNode(freeze: bool)
    | TimerNode(limitType: O.LimitType, timeSpeed: FloatText, limit: FloatText, inverse: bool, to01: bool)
    | ValueNode(value: Value, ioMode: V.IOMode, valueName: Option<string>, useAsExternal: bool)
    | AnimationCurveNode(curve: V.Curve, valueName: Option<string>, useAsExternal: bool)
    | GradientNode(gradient: V.Gradient, valueName: Option<string>, useAsExternal: bool)
    | RandomNode(randomType: V.RandomType)
    | DefaultNode(constant: Value)

  /** An editor position in pixels. */
  datatype Position = Position(x: int, y: int)

  /** A node: `NodeId`, its kind, `Inputs`, `Position`, the declared `OutputType`, the
      `CashedOutputType` the last type pass stored, and `Controllable`. */
  datatype Node = Node(
    id: int,
    kind: Kind,
    inputs: seq<Link>,
    position: Position,
    outputType: ValueType,
    cachedType: ValueType,
    controllable: bool)

  /** A value node's own type (`ValueNodeType`). */
  function OwnType(k: Kind): (t: ValueType)
    requires k.ValueNode? || k.DefaultNode?
    ensures IsPayloadType(t)
  {
    if k.ValueNode? then TypeOfValue(k.value) else TypeOfValue(k.constant)
  }

  // ----- type ids -----

  /** `NodeCollector.ToID`: the class name. */
  function TypeId(k: Kind): string {
    match k
    case LerpNode => "LerpNode"
    case ConditionNode(_, _) => "ConditionNode"
    case IfNode => "IfNode"
    case BoolOperatorNode(_) => "BoolOperatorNode"
    case VecModifyNode => "VecModifyNode"
    case VecConstrNode(_) => "VecConstrNode"
    case ColorHSVNode(_) => "ColorHSVNode"
    case ConvertNode(_) => "ConvertNode"
    case VecSwizzleNode(_) => "VecSwizzleNode"
    case MathNode(_) => "MathNode"
    case VectorMathNode(_) => "VectorMathNode"
    case QuaternionMathNode(_) => "QuaternionMathNode"
    case PerlinNode => "PerlinNode"
    case SpringNode(_, _) => "SpringNode"
    case DeltaNode => "DeltaNode"
    case DozerNode(_) => "DozerNode"
    case TimerNode(_, _, _, _, _) => "TimerNode"
    case ValueNode(v, _, _, _) => ValueClassName(TypeOfValue(v))
    case AnimationCurveNode(_, _, _) => "AnimationCurveNode"
    case GradientNode(_, _, _) => "GradientNode"
    case RandomNode(_) => "RandomNode"
    case DefaultNode(c) => DefaultClassName(TypeOfValue(c))
  }

  function ValueClassName(t: ValueType): string
    requires IsPayloadType(t)
  {
    match t
    case Float => "FloatNode"
    case Vector2 => "Vector2Node"
    case Vector3 => "Vector3Node"
    case Vector4 => "Vector4Node"
    case Color => "ColorNode"
    case Bool => "BoolNode"
    case Int => "IntNode"
  }

  function DefaultClassName(t: ValueType): string
    requires IsPayloadType(t)
  {
    match t
    case Float => "Fl"
    case Vector2 => "V2"
    case Vector3 => "V3"
    case Vector4 => "V4"
    case Color => "Co"
    case Bool => "Bo"
    case Int => "In"
  }

  /** The kind a parameterless constructor produces: every field at its initial value
      (the first enum member, `false`, a zero payload, the field initialisers of Spring,
      Timer, the curve and the gradient). No constructor sets the swizzle mask or a value
      name, so both stay `null`. */
  function Fresh(k: Kind): (f: Kind)
    ensures TypeId(f) == TypeId(k)
  {
    match k
    case LerpNode => LerpNode
    case ConditionNode(_, _) => ConditionNode(Op.AMoreThanB, false)
    case IfNode => IfNode
    case BoolOperatorNode(_) => BoolOperatorNode(Op.InvertA)
    case VecModifyNode => VecModifyNode
    case VecConstrNode(_) => VecConstrNode(Op.Vec2)
    case ColorHSVNode(_) => ColorHSVNode(Op.RgbToHsv)
    case ConvertNode(_) => ConvertNode(Op.Deg2Rad)
    case VecSwizzleNode(_) => VecSwizzleNode(None)
    case MathNode(_) => MathNode(M.Multyply)
    case VectorMathNode(_) => VectorMathNode(VM.Dot)
    case QuaternionMathNode(_) => QuaternionMathNode(Q.Multyply)
    case PerlinNode => PerlinNode
    case SpringNode(_, _) => SpringNode("0.1", "0.5")
    case DeltaNode => DeltaNode
    case DozerNode(_) => DozerNode(false)
    case TimerNode(_, _, _, _, _) => TimerNode(O.NoLimit, "1", "1", false, false)
    case ValueNode(v, _, _, _) => ValueNode(ZeroValue(TypeOfValue(v)), V.NotIO, None, false)
    case AnimationCurveNode(_, _, _) => AnimationCurveNode(V.LinearCurve, None, false)
    case GradientNode(_, _, _) => GradientNode(V.DefaultGradient, None, false)
    case RandomNode(_) => RandomNode(V.InsideUnitCircle)
    case DefaultNode(c) => DefaultNode(ZeroValue(TypeOfValue(c)))
  }

  function FreshValueNode(t: ValueType): (k: Kind)
    requires IsPayloadType(t)
    ensures k.ValueNode? && OwnType(k) == t
    ensures TypeId(k) == ValueClassName(t) && Fresh(k) == k
  {
    ValueNode(ZeroValue(t), V.NotIO, None, false)
  }

  function FreshDefaultNode(t: ValueType): (k: Kind)
    requires IsPayloadType(t)
    ensures k.DefaultNode? && OwnType(k) == t
    ensures TypeId(k) == DefaultClassName(t) && Fresh(k) == k
  {
    DefaultNode(ZeroValue(t))
  }

  /** `NodeCollector.Nodes`: the registry from type id to the class it constructs. Any
      other string names no class. */
  function KindForTypeId(id: string): (r: Option<Kind>)
    ensures r.Some? ==> TypeId(r.value) == id && Fresh(r.value) == r.value
  {
    var op := OperationKindFor(id);
    if op.Some? then op
    else
      var other := OtherKindFor(id);
      if other.Some? then other
      else ValueKindFor(id)
  }

  function OperationKindFor(id: string): (r: Option<Kind>)
    ensures r.Some? ==> TypeId(r.value) == id && Fresh(r.value) == r.value
  {
    if id == "LerpNode" then Some(LerpNode)
    else if id == "ConditionNode" then Some(ConditionNode(Op.AMoreThanB, false))
    else if id == "IfNode" then Some(IfNode)
    else if id == "BoolOperatorNode" then Some(BoolOperatorNode(Op.InvertA))
    else if id == "VecModifyNode" then Some(VecModifyNode)
    else if id == "VecConstrNode" then Some(VecConstrNode(Op.Vec2))
    else if id == "ColorHSVNode" then Some(ColorHSVNode(Op.RgbToHsv))
    else if id == "ConvertNode" then Some(ConvertNode(Op.Deg2Rad))
    else if id == "VecSwizzleNode" then Some(VecSwizzleNode(None))
    else if id == "MathNode" then Some(MathNode(M.Multyply))
    else if id == "VectorMathNode" then Some(VectorMathNode(VM.Dot))
    else if id == "QuaternionMathNode" then Some(QuaternionMathNode(Q.Multyply))
    else if id == "PerlinNode" then Some(PerlinNode)
    else None
  }

  function OtherKindFor(id: string): (r: Option<Kind>)
    ensures r.Some? ==> TypeId(r.value) == id && Fresh(r.value) == r.value
  {
    if id == "SpringNode" then Some(SpringNode("0.1", "0.5"))
    else if id == "DeltaNode" then Some(DeltaNode)
    else if id == "DozerNode" then Some(DozerNode(false))
    else if id == "TimerNode" then Some(TimerNode(O.NoLimit, "1", "1", false, false))
    else if id == "AnimationCurveNode" then Some(AnimationCurveNode(V.LinearCurve, None, false))
    else if id == "GradientNode" then Some(GradientNode(V.DefaultGradient, None, false))
    else if id == "RandomNode" then Some(RandomNode(V.InsideUnitCircle))
    else None
  }

  /** The value-node and default-node classes, one of each per payload type. */
  function ValueKindFor(id: string): (r: Option<Kind>)
    ensures r.Some? ==> TypeId(r.value) == id && Fresh(r.value) == r.value
  {
    if id == "FloatNode" then Some(FreshValueNode(Float))
    else if id == "Vector2Node" then Some(FreshValueNode(Vector2))
    else if id == "Vector3Node" then Some(FreshValueNode(Vector3))
    else if id == "Vector4Node" then Some(FreshValueNode(Vector4))
    else if id == "ColorNode" then Some(FreshValueNode(Color))
    else if id == "BoolNode" then Some(FreshValueNode(Bool))
    else if id == "IntNode" then Some(FreshValueNode(Int))
    else if id == "Fl" then Some(FreshDefaultNode(Float))
    else if id == "V2" then Some(FreshDefaultNode(Vector2))
    else if id == "V3" then Some(FreshDefaultNode(Vector3))
    else if id == "V4" then Some(FreshDefaultNode(Vector4))
    else if id == "Co" then Some(FreshDefaultNode(Color))
    else if id == "Bo" then Some(FreshDefaultNode(Bool))
    else if id == "In" then Some(FreshDefaultNode(Int))
    else None
  }

  /** Every class's id is registered, and it constructs that class afresh: type ids and
      fresh kinds are in one-to-one correspondence. */
  lemma {:induction false} TypeIdRoundTrip(k: Kind)
    ensures KindForTypeId(TypeId(k)) == Some(Fresh(k))
  {
    if IsOperationKind(k) {
      OperationIdRoundTrip(k);
    } else if k.ValueNode? || k.DefaultNode? {
      ValueIdRoundTrip(k);
    } else {
      OtherNotOperation(k);
      OtherIdRoundTrip(k);
    }
  }

  /** The classes `OperationKindFor` knows. */
  predicate IsOperationKind(k: Kind) {
    k.LerpNode? || k.ConditionNode? || k.IfNode? || k.BoolOperatorNode? || k.VecModifyNode? ||
    k.VecConstrNode? || k.ColorHSVNode? || k.ConvertNode? || k.VecSwizzleNode? || k.MathNode? ||
    k.VectorMathNode? || k.QuaternionMathNode? || k.PerlinNode?
  }

  lemma {:induction false} OperationIdRoundTrip(k: Kind)
    requires IsOperationKind(k)
    ensures OperationKindFor(TypeId(k)) == Some(Fresh(k))
  {
  }

  lemma {:induction false} OtherNotOperation(k: Kind)
    requires !IsOperationKind(k) && !k.ValueNode? && !k.DefaultNode?
    ensures OperationKindFor(TypeId(k)) == None
  {
    hide ValueKindFor, OtherKindFor, ValueClassName, DefaultClassName, FreshValueNode, FreshDefaultNode, ConstructorInputs, ConstructorOutputType;
  }

  lemma {:induction false} OtherIdRoundTrip(k: Kind)
    requires !IsOperationKind(k) && !k.ValueNode? && !k.DefaultNode?
    ensures OtherKindFor(TypeId(k)) == Some(Fresh(k))
  {
    hide ValueKindFor, OperationKindFor, ValueClassName, DefaultClassName, FreshValueNode, FreshDefaultNode, ConstructorInputs, ConstructorOutputType;
  }

  lemma {:induction false} ValueIdRoundTrip(k: Kind)
    requires k.ValueNode? || k.DefaultNode?
    ensures OperationKindFor(TypeId(k)) == None && OtherKindFor(TypeId(k)) == None
    ensures ValueKindFor(TypeId(k)) == Some(Fresh(k))
  {
    PayloadNamesRegistered(OwnType(k));
    if k.ValueNode? {
      assert Fresh(k) == FreshValueNode(OwnType(k));
    } else {
      assert Fresh(k) == FreshDefaultNode(OwnType(k));
    }
  }

  /** The value class of a payload type is registered under its class name. */
  lemma {:induction false} ValueClassRoundTrip(t: ValueType)
    requires IsPayloadType(t)
    ensures KindForTypeId(ValueClassName(t)) == Some(FreshValueNode(t))
  {
    PayloadNamesRegistered(t);
  }

  /** `id` names the value or default class `k`, and no operation or other class. */
  predicate Registered(id: string, k: Kind) {
    OperationKindFor(id) == None && OtherKindFor(id) == None && ValueKindFor(id) == Some(k)
  }

  /** Both class names of a payload type are registered, each for its own class. */
  lemma {:induction false} PayloadNamesRegistered(t: ValueType)
    requires IsPayloadType(t)
    ensures Registered(ValueClassName(t), FreshValueNode(t)) && Registered(DefaultClassName(t), FreshDefaultNode(t))
  {
    match t
    case Float => FloatNamesRegistered();
    case Vector2 => Vector2NamesRegistered();
    case Vector3 => Vector3NamesRegistered();
    case Vector4 => Vector4NamesRegistered();
    case Color => ColorNamesRegistered();
    case Bool => BoolNamesRegistered();
    case Int => IntNamesRegistered();
  }

  lemma {:induction false} FloatNamesRegistered()
    ensures Registered("FloatNode", FreshValueNode(Float)) && Registered("Fl", FreshDefaultNode(Float))
  {
    hide TypeId, Fresh, ValueClassName, DefaultClassName, FreshValueNode, FreshDefaultNode, ZeroValue, TypeOfValue;
  }

  lemma {:induction false} Vector2NamesRegistered()
    ensures Registered("Vector2Node", FreshValueNode(Vector2)) && Registered("V2", FreshDefaultNode(Vector2))
  {
    hide TypeId, Fresh, ValueClassName, DefaultClassName, FreshValueNode, FreshDefaultNode, ZeroValue, TypeOfValue;
  }

  lemma {:induction false} Vector3NamesRegistered()
    ensures Registered("Vector3Node", FreshValueNode(Vector3)) && Registered("V3", FreshDefaultNode(Vector3))
  {
    hide TypeId, Fresh, ValueClassName, DefaultClassName, FreshValueNode, FreshDefaultNode, ZeroValue, TypeOfValue;
  }

  lemma {:induction false} Vector4NamesRegistered()
    ensures Registered("Vector4Node", FreshValueNode(Vector4)) && Registered("V4", FreshDefaultNode(Vector4))
  {
    hide TypeId, Fresh, ValueClassName, DefaultClassName, FreshValueNode, FreshDefaultNode, ZeroValue, TypeOfValue;
  }

  lemma {:induction false} ColorNamesRegistered()
    ensures Registered("ColorNode", FreshValueNode(Color)) && Registered("Co", FreshDefaultNode(Color))
  {
    hide TypeId, Fresh, ValueClassName, DefaultClassName, FreshValueNode, FreshDefaultNode, ZeroValue, TypeOfValue;
  }

  lemma {:induction false} BoolNamesRegistered()
    ensures Registered("BoolNode", FreshValueNode(Bool)) && Registered("Bo", FreshDefaultNode(Bool))
  {
    hide TypeId, Fresh, ValueClassName, DefaultClassName, FreshValueNode, FreshDefaultNode, ZeroValue, TypeOfValue;
  }

  lemma {:induction false} IntNamesRegistered()
    ensures Registered("IntNode", FreshValueNode(Int)) && Registered("In", FreshDefaultNode(Int))
  {
    hide TypeId, Fresh, ValueClassName, DefaultClassName, FreshValueNode, FreshDefaultNode, ZeroValue, TypeOfValue;
  }

  // ----- construction -----

  /** The links each constructor declares. */
  function ConstructorInputs(k: Kind): (r: seq<Link>)
    ensures forall i :: 0 <= i < |r| ==> r[i].nodeId == NoNodeId && r[i].lastDefault == NoNodeId
  {
    match k
    case LerpNode => Op.LerpInputs
    case ConditionNode(_, _) => Op.ConditionInputs
    case IfNode => Op.IfInputs
    case BoolOperatorNode(_) => Op.BoolOperatorInputs
    case VecModifyNode => Op.VecModifyInputs
    case VecConstrNode(_) => Op.VecConstrInputs
    case ColorHSVNode(_) => Op.ColorHsvInputs
    case ConvertNode(_) => Op.ConvertInputs
    case VecSwizzleNode(_) => Op.SwizzleInputs
    case MathNode(_) => M.MathInputs
    case VectorMathNode(_) => VM.VectorMathInputs
    case QuaternionMathNode(_) => Q.QuaternionInputs
    case PerlinNode => P.PerlinInputs
    case SpringNode(_, _) => O.SpringInputs
    case DeltaNode => O.DeltaInputs
    case DozerNode(_) => O.DozerInputs
    case TimerNode(_, _, _, _, _) => O.TimerInputs
    case ValueNode(_, _, _, _) => V.ValueNodeInputs
    case AnimationCurveNode(_, _, _) => V.CurveInputs
    case GradientNode(_, _, _) => V.GradientInputs
    case RandomNode(_) => V.RandomInputs
    case DefaultNode(_) => []
  }

  /** The `OutputType` each constructor declares: a generic tag for the kinds whose
      result depends on their inputs. */
  function ConstructorOutputType(k: Kind): (t: ValueType)
    ensures t != Error && t != NoType
  {
    match k
    case LerpNode => AutoValue
    case ConditionNode(_, _) => Bool
    case IfNode => AutoValue
    case BoolOperatorNode(_) => Bool
    case VecModifyNode => AutoVector
    case VecConstrNode(_) => AutoVector
    case ColorHSVNode(_) => Color
    case ConvertNode(_) => AutoValue
    case VecSwizzleNode(_) => Float
    case MathNode(_) => AutoValue
    case VectorMathNode(_) => AutoValue
    case QuaternionMathNode(_) => AutoValue
    case PerlinNode => Float
    case SpringNode(_, _) => AutoValue
    case DeltaNode => AutoValue
    case DozerNode(_) => AutoValue
    case TimerNode(_, _, _, _, _) => Float
    case ValueNode(v, _, _, _) => TypeOfValue(v)
    case AnimationCurveNode(_, _, _) => Float
    case GradientNode(_, _, _) => Color
    case RandomNode(_) => AutoVector
    case DefaultNode(c) => TypeOfValue(c)
  }

  /** The fewest inputs a node of this kind can have. Kinds whose `OnValidate` sets the
      input count need none; BoolOperator's `OnValidate` reads input B; every other kind
      keeps at least what its constructor declared (the loader only ever grows the array). */
  function MinInputs(k: Kind): nat {
    match k
    case LerpNode => 3
    case ConditionNode(_, _) => 2
    case IfNode => 3
    case BoolOperatorNode(_) => 2
    case VecModifyNode => 1
    case ConvertNode(_) => 1
    case VecSwizzleNode(_) => 1
    case PerlinNode => 5
    case SpringNode(_, _) => 1
    case DeltaNode => 1
    case DozerNode(_) => 2
    case TimerNode(_, _, _, _, _) => 1
    case AnimationCurveNode(_, _, _) => 1
    case GradientNode(_, _, _) => 1
    case _ => 0
  }

  /** Every constructor declares at least the fewest inputs its kind can have. */
  lemma {:induction false} ConstructorInputsSuffice(k: Kind)
    ensures MinInputs(k) <= |ConstructorInputs(k)|
  {
  }

  /** The shape every node of the graph keeps: enough inputs for its kind, and a default
      node declares its constant's type. */
  predicate Shaped(n: Node) {
    |n.inputs| >= MinInputs(n.kind) &&
    (n.kind.DefaultNode? ==> n.outputType == TypeOfValue(n.kind.constant))
  }

  /** `CreateNode`'s construction: a fresh node of the class with the given id, its
      constructor's links and declared type, nothing cached, controllable. */
  function Construct(k: Kind, id: int): (n: Node)
    ensures n.id == id && n.kind == Fresh(k) && TypeId(n.kind) == TypeId(k)
    ensures Shaped(n)
    ensures forall i :: 0 <= i < |n.inputs| ==> n.inputs[i].nodeId == NoNodeId && !IsConnected(n.inputs[i])
    ensures n.outputType != Error && n.cachedType == NoType && n.controllable
  {
    var f := Fresh(k);
    ConstructorInputsSuffice(f);
    Node(id, f, ConstructorInputs(f), Position(0, 0), ConstructorOutputType(f), NoType, true)
  }

  // ----- OnValidate -----

  /** The kinds whose `OnValidate` reshapes their input array. */
  predicate ReshapesInputs(k: Kind) {
    k.BoolOperatorNode? || k.VecConstrNode? || k.ColorHSVNode? || k.MathNode? ||
    k.VectorMathNode? || k.QuaternionMathNode? || k.ValueNode?
  }

  /** `OnValidate`'s reshaping of the input array: the kinds whose settings decide their
      inputs reshape them, and connections survive where the slot survives; every other
      kind keeps its array as it is. */
  function ValidatedInputs(k: Kind, inputs: seq<Link>): (r: seq<Link>)
    requires |inputs| >= MinInputs(k)
    ensures |r| >= RuleArity(k) && |r| >= MinInputs(k)
    ensures forall i :: 0 <= i < |r| ==> r[i].nodeId == (if i < |inputs| then inputs[i].nodeId else NoNodeId)
    ensures !ReshapesInputs(k) ==> r == inputs
  {
    if ReshapesInputs(k) then Reshaped(k, inputs) else inputs
  }

  function Reshaped(k: Kind, inputs: seq<Link>): (r: seq<Link>)
    requires ReshapesInputs(k) && |inputs| >= MinInputs(k)
    ensures |r| >= RuleArity(k) && |r| >= MinInputs(k)
    ensures forall i :: 0 <= i < |r| ==> r[i].nodeId == (if i < |inputs| then inputs[i].nodeId else NoNodeId)
  {
    match k
    case BoolOperatorNode(op) => Op.BoolOperatorLinks(inputs, op)
    case VecConstrNode(shape) => Op.VecConstrLinks(inputs, shape)
    case ColorHSVNode(op) => Op.HsvLinks(inputs, op)
    case MathNode(op) => M.MathLinks(inputs, op)
    case VectorMathNode(op) => VM.VectorMathLinks(inputs, op)
    case QuaternionMathNode(op) => Q.QuaternionLinks(inputs, op)
    case ValueNode(v, mode, _, _) => V.IOLinks(inputs, TypeOfValue(v), mode)
  }

  /** `OnValidate`: the inputs as `ValidatedInputs` leaves them; a value node also
      refreshes its declared type and controllability from its IO mode, and a random node
      declares the type of its setting. */
  function OnValidate(n: Node): (r: Node)
    requires |n.inputs| >= MinInputs(n.kind)
    ensures r.id == n.id && r.kind == n.kind && r.position == n.position && r.cachedType == n.cachedType
    ensures Shaped(n) ==> Shaped(r)
    ensures |r.inputs| >= RuleArity(r.kind)
    ensures r.controllable != n.controllable ==> n.kind.ValueNode?
    ensures n.kind.ValueNode? ==> (r.controllable <==> n.kind.ioMode == V.NotIO)
  {
    var inputs := ValidatedInputs(n.kind, n.inputs);
    match n.kind
    case ValueNode(v, mode, _, _) =>
      n.(inputs := inputs, outputType := V.IOOutputType(TypeOfValue(v), mode), controllable := V.IsControllable(mode))
    case RandomNode(rt) => n.(inputs := inputs, outputType := V.RandomOutputType(rt))
    case _ => n.(inputs := inputs)
  }

  /** Validating a validated node changes nothing, so the type pass may run `OnValidate`
      on a node as often as it reaches it. */
  lemma {:induction false} OnValidateIdempotent(n: Node)
    requires |n.inputs| >= MinInputs(n.kind)
    ensures OnValidate(OnValidate(n)) == OnValidate(n)
  {
    if ReshapesInputs(n.kind) {
      ReshapedIdempotent(n.kind, n.inputs);
    }
  }

  lemma {:induction false} ReshapedIdempotent(k: Kind, inputs: seq<Link>)
    requires ReshapesInputs(k) && |inputs| >= MinInputs(k)
    ensures Reshaped(k, Reshaped(k, inputs)) == Reshaped(k, inputs)
  {
    match k
    case BoolOperatorNode(op) =>
      var once := Op.BoolOperatorLinks(inputs, op);
      assert Op.BoolOperatorLinks(once, op) == once;
    case VecConstrNode(shape) =>
      ReshapeIdempotent(inputs, seq(ComponentCount(Op.ShapeType(shape)), _ => Float), SettingsNone);
    case ColorHSVNode(op) =>
      ReshapeIdempotent(inputs, Op.HsvInputTypes(op), DefaultSettings);
    case MathNode(op) =>
    case VectorMathNode(op) =>
      ReshapeIdempotent(inputs, VM.VectorInputTypes(op), DefaultSettings);
    case QuaternionMathNode(op) =>
      ReshapeIdempotent(inputs, Q.QuaternionInputTypes(op), DefaultSettings);
    case ValueNode(v, mode, _, _) =>
      var once := V.IOLinks(inputs, TypeOfValue(v), mode);
      assert V.IOLinks(once, TypeOfValue(v), mode) == once;
  }

  // ----- type rules -----

  /** How many leading input types a kind's rule indexes. */
  function RuleArity(k: Kind): nat {
    match k
    case LerpNode => 3
    case ConditionNode(_, _) => 2
    case IfNode => 3
    case BoolOperatorNode(_) => 2
    case VecModifyNode => 1
    case VecConstrNode(_) => 0
    case ColorHSVNode(op) => |Op.HsvInputTypes(op)|
    case ConvertNode(_) => 1
    case VecSwizzleNode(_) => 1
    case MathNode(op) => M.InputCount(op)
    case VectorMathNode(op) => |VM.VectorInputTypes(op)|
    case QuaternionMathNode(op) => |Q.QuaternionInputTypes(op)|
    case PerlinNode => 5
    case SpringNode(_, _) => 1
    case DeltaNode => 1
    case DozerNode(_) => 2
    case TimerNode(_, _, _, _, _) => 1
    case ValueNode(_, mode, _, _) => if mode == V.Output then 1 else 0
    case AnimationCurveNode(_, _, _) => 1
    case GradientNode(_, _, _) => 1
    case RandomNode(_) => 0
    case DefaultNode(_) => 0
  }

  /** The input positions a kind's rule looks at: its leading `RuleArity` ones, and every
      position for the two vector kinds whose rules check all component inputs. */
  predicate Reads(k: Kind, i: nat) {
    i < RuleArity(k) || k.VecModifyNode? || k.VecConstrNode?
  }

  /** The rule's type for the thirteen operation kinds. None of them ever yields
      `NoType`, an `Error` on any input it reads taints the result, and concrete input
      types give a concrete result. */
  function OperationRuleType(k: Kind, t: seq<ValueType>): (r: ValueType)
    requires IsOperationKind(k) && |t| >= RuleArity(k)
    requires k.VecSwizzleNode? ==> IsConcrete(t[0])
    ensures r != NoType
    ensures AllConcrete(t) ==> IsConcrete(r)
    ensures forall i :: 0 <= i < |t| && Reads(k, i) && t[i] == Error ==> r == Error
  {
    if k.MathNode? || k.VectorMathNode? || k.QuaternionMathNode? || k.PerlinNode? then ArithmeticRuleType(k, t)
    else OperationsFileRuleType(k, t)
  }

  /** The rules of the kinds declared together with Lerp. */
  function OperationsFileRuleType(k: Kind, t: seq<ValueType>): (r: ValueType)
    requires IsOperationKind(k) && !k.MathNode? && !k.VectorMathNode? && !k.QuaternionMathNode? && !k.PerlinNode?
    requires |t| >= RuleArity(k)
    requires k.VecSwizzleNode? ==> IsConcrete(t[0])
    ensures r != NoType
    ensures AllConcrete(t) ==> IsConcrete(r)
    ensures forall i :: 0 <= i < |t| && Reads(k, i) && t[i] == Error ==> r == Error
  {
    match k
    case LerpNode => Op.LerpType(t)
    case ConditionNode(_, _) => Op.ConditionType(t)
    case IfNode => Op.IfType(t)
    case BoolOperatorNode(_) => Op.BoolOperatorType(t)
    case VecModifyNode => Op.VecModifyType(t)
    case VecConstrNode(shape) => Op.VecConstrType(shape, t)
    case ColorHSVNode(op) => Op.HsvType(op, t)
    case ConvertNode(_) => Op.ConvertType(t)
    case VecSwizzleNode(mask) => Op.SwizzleTypeOrEmpty(mask, t).0
  }

  /** The rules of the math, vector math, quaternion and Perlin kinds. */
  function ArithmeticRuleType(k: Kind, t: seq<ValueType>): (r: ValueType)
    requires k.MathNode? || k.VectorMathNode? || k.QuaternionMathNode? || k.PerlinNode?
    requires |t| >= RuleArity(k)
    ensures r != NoType
    ensures AllConcrete(t) ==> IsConcrete(r)
    ensures forall i :: 0 <= i < |t| && Reads(k, i) && t[i] == Error ==> r == Error
  {
    if k.MathNode? || k.VectorMathNode? then MathRuleType(k, t) else RotationNoiseRuleType(k, t)
  }

  function MathRuleType(k: Kind, t: seq<ValueType>): (r: ValueType)
    requires k.MathNode? || k.VectorMathNode?
    requires |t| >= RuleArity(k)
    ensures r != NoType
    ensures AllConcrete(t) ==> IsConcrete(r)
    ensures forall i :: 0 <= i < |t| && Reads(k, i) && t[i] == Error ==> r == Error
  {
    match k
    case MathNode(op) => M.MathType(op, t)
    case VectorMathNode(op) => VM.VectorMathType(op, t)
  }

  function RotationNoiseRuleType(k: Kind, t: seq<ValueType>): (r: ValueType)
    requires k.QuaternionMathNode? || k.PerlinNode?
    requires |t| >= RuleArity(k)
    ensures r != NoType
    ensures AllConcrete(t) ==> IsConcrete(r)
    ensures forall i :: 0 <= i < |t| && Reads(k, i) && t[i] == Error ==> r == Error
  {
    match k
    case QuaternionMathNode(op) => Q.QuaternionType(op, t)
    case PerlinNode => P.PerlinType(t)
  }

  /** The rule's type for the motion and timer kinds: as for the operations. */
  function MotionRuleType(k: Kind, t: seq<ValueType>): (r: ValueType)
    requires k.SpringNode? || k.DeltaNode? || k.DozerNode? || k.TimerNode?
    requires |t| >= RuleArity(k)
    ensures r != NoType
    ensures AllConcrete(t) ==> IsConcrete(r)
    ensures forall i :: 0 <= i < |t| && Reads(k, i) && t[i] == Error ==> r == Error
  {
    match k
    case SpringNode(_, _) => O.MotionType(t)
    case DeltaNode => O.MotionType(t)
    case DozerNode(_) => O.DozerType(t)
    case TimerNode(_, _, _, _, _) => O.TimerType(t)
  }

  /** The value-source kinds: a graph output is the only node whose rule yields `NoType`,
      and does so exactly when its input is of its own type or unconnected; a default
      constant reports its stored output type. */
  function SourceRuleType(n: Node, t: seq<ValueType>): (r: ValueType)
    requires n.kind.ValueNode? || n.kind.AnimationCurveNode? || n.kind.GradientNode? || n.kind.RandomNode? || n.kind.DefaultNode?
    requires |t| >= RuleArity(n.kind)
    ensures AllConcrete(t) && Shaped(n) ==> IsConcrete(r)
    ensures forall i :: 0 <= i < |t| && Reads(n.kind, i) && t[i] == Error ==> r == Error
    ensures Shaped(n) ==> (r == NoType <==>
      n.kind.ValueNode? && n.kind.ioMode == V.Output && InputIsExactOrNone(t[0], OwnType(n.kind)))
  {
    match n.kind
    case ValueNode(v, mode, _, _) => V.ValueNodeType(TypeOfValue(v), mode, t)
    case AnimationCurveNode(_, _, _) => V.CurveType(t)
    case GradientNode(_, _, _) => V.GradientType(t)
    case RandomNode(rt) => V.RandomOutputType(rt)
    case DefaultNode(_) => n.outputType
  }

  /** The type `CheckInputsAndGetType` returns. */
  function RuleType(n: Node, t: seq<ValueType>): (r: ValueType)
    requires |t| >= RuleArity(n.kind)
    requires n.kind.VecSwizzleNode? ==> IsConcrete(t[0])
    ensures AllConcrete(t) && Shaped(n) ==> IsConcrete(r)
    ensures forall i :: 0 <= i < |t| && Reads(n.kind, i) && t[i] == Error ==> r == Error
    ensures Shaped(n) ==> (r == NoType <==>
      n.kind.ValueNode? && n.kind.ioMode == V.Output && InputIsExactOrNone(t[0], OwnType(n.kind)))
  {
    if IsOperationKind(n.kind) then OperationRuleType(n.kind, t)
    else if n.kind.SpringNode? || n.kind.DeltaNode? || n.kind.DozerNode? || n.kind.TimerNode? then
      MotionRuleType(n.kind, t)
    else SourceRuleType(n, t)
  }

  /** The node as `CheckInputsAndGetType` leaves it. VecModify resizes its component
      inputs to the vector input's type; Swizzle stores its normalised mask; a value node
      that does not reject its input runs `IOUpdate`. No other rule changes the node. */
  function RuleNode(n: Node, t: seq<ValueType>): (r: Node)
    requires |t| >= RuleArity(n.kind)
    requires n.kind.VecSwizzleNode? ==> IsConcrete(t[0])
    ensures r.id == n.id && r.position == n.position && r.cachedType == n.cachedType && r.controllable == n.controllable
    ensures Shaped(n) ==> Shaped(r)
    ensures !n.kind.VecModifyNode? && !n.kind.ValueNode? ==> r.inputs == n.inputs
    ensures !n.kind.VecSwizzleNode? ==> r.kind == n.kind
    ensures n.kind.VecSwizzleNode? ==> r.kind.VecSwizzleNode?
    ensures forall i :: 0 <= i < |r.inputs| ==> r.inputs[i].nodeId == (if i < |n.inputs| then n.inputs[i].nodeId else NoNodeId)
  {
    if n.kind.VecModifyNode? then n.(inputs := Op.VecModifyLinks(n.inputs, t[0]))
    else if n.kind.VecSwizzleNode? then n.(kind := VecSwizzleNode(Op.SwizzleTypeOrEmpty(n.kind.components, t).1))
    else if n.kind.ValueNode? then
      var own := TypeOfValue(n.kind.value);
      if V.ValueNodeType(own, n.kind.ioMode, t) == Error then n
      else n.(inputs := V.IOLinks(n.inputs, own, n.kind.ioMode), outputType := V.IOOutputType(own, n.kind.ioMode))
    else n
  }

  /** `CheckInputsAndGetType`: the kind's type rule on the input types, and the node as
      the rule leaves it. */
  function CheckInputsAndGetType(n: Node, t: seq<ValueType>): (r: (ValueType, Node))
    requires |t| >= RuleArity(n.kind)
    requires n.kind.VecSwizzleNode? ==> IsConcrete(t[0])
    ensures r.1.id == n.id && TypeId(r.1.kind) == TypeId(n.kind)
    ensures AllConcrete(t) && Shaped(n) ==> IsConcrete(r.0)
    ensures forall i :: 0 <= i < |t| && Reads(n.kind, i) && t[i] == Error ==> r.0 == Error
    ensures Shaped(n) ==> (r.0 == NoType <==>
      n.kind.ValueNode? && n.kind.ioMode == V.Output && InputIsExactOrNone(t[0], OwnType(n.kind)))
  {
    (RuleType(n, t), RuleNode(n, t))
  }

  /** A swizzle node whose mask no one has set yet, as every freshly constructed one is. */
  predicate UnsetMask(n: Node) {
    n.kind.VecSwizzleNode? && n.kind.components.None?
  }

  /** `CheckInputsAndGetType` as written: the swizzle's rule calls `ToLower` on its mask,
      which throws when the mask is unset and the input is a value. Everywhere else it
      agrees with the corrected rule, and a set mask stays set. */
  function CheckInputsAsWritten(n: Node, t: seq<ValueType>): (r: Result<(ValueType, Node)>)
    requires |t| >= RuleArity(n.kind)
    requires n.kind.VecSwizzleNode? ==> IsConcrete(t[0])
    ensures r.Failure? <==> UnsetMask(n) && IsValue(t[0])
    ensures r.Success? ==> r.value == CheckInputsAndGetType(n, t)
    ensures r.Success? && !UnsetMask(n) ==> !UnsetMask(r.value.1)
  {
    if n.kind.VecSwizzleNode? then
      var (ty, mask) :- Op.SwizzleTypeAsWritten(n.kind.components, t);
      Success((ty, n.(kind := VecSwizzleNode(mask))))
    else Success((RuleType(n, t), RuleNode(n, t)))
  }

  /** The declared `OutputType` of a validated node bounds what its rule computes: the
      rule's type is always one the declared type accepts. The two exceptions are the
      colour converter, which declares a colour but yields a 3-vector for RGB to HSV, and
      the swizzle, which declares a float but yields the type its mask spells. */
  lemma {:induction false} DeclaredTypeBoundsRule(n: Node, t: seq<ValueType>)
    requires Shaped(n) && AllConcrete(t) && |t| >= RuleArity(n.kind)
    requires n.outputType == ConstructorOutputType(n.kind)
    requires !n.kind.ColorHSVNode? && !n.kind.VecSwizzleNode?
    ensures var r := CheckInputsAndGetType(OnValidate(n), t);
      r.0 != Error ==> NC.ValidateTypes(r.1.outputType, r.0)
  {
    hide TypeId, Fresh, KindForTypeId, ValueClassName, DefaultClassName, ConstructorInputs;
    var m := OnValidate(n);
    if IsOperationKind(n.kind) {
      OperationDeclaredBounds(n.kind, t);
    } else if n.kind.SpringNode? || n.kind.DeltaNode? || n.kind.DozerNode? || n.kind.TimerNode? {
      MotionDeclaredBounds(n.kind, t);
    } else {
      NC.ValidateTypesOrder(RuleType(m, t), RuleType(m, t));
    }
  }

  lemma {:induction false} OperationDeclaredBounds(k: Kind, t: seq<ValueType>)
    requires IsOperationKind(k) && !k.ColorHSVNode? && !k.VecSwizzleNode?
    requires AllConcrete(t) && |t| >= RuleArity(k)
    ensures var r := OperationRuleType(k, t); r != Error ==> NC.ValidateTypes(ConstructorOutputType(k), r)
  {
  }

  lemma {:induction false} MotionDeclaredBounds(k: Kind, t: seq<ValueType>)
    requires k.SpringNode? || k.DeltaNode? || k.DozerNode? || k.TimerNode?
    requires AllConcrete(t) && |t| >= RuleArity(k)
    ensures var r := MotionRuleType(k, t); r != Error ==> NC.ValidateTypes(ConstructorOutputType(k), r)
  {
  }
}
