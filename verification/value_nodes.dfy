/** The "Values" node kinds: the seven value nodes (float, the vectors, colour, bool and
    int), which double as the graph's inputs and outputs through their IO mode; the curve
    and gradient nodes; and the random node. */
module ValueNodes {
  import opened Wrappers
  import opened Text
  import opened ValueTypes
  import opened Links
  import opened NodeBase

  // ----- IO mode -----

  /** The `IOMode` enum. The source's first member is `None`; here it is `NotIO`. */
  datatype IOMode = NotIO | Input | Output

  const IOModes: seq<IOMode> := [NotIO, Input, Output]

  function IOModeOrdinal(m: IOMode): (r: nat)
    ensures r < |IOModes| && IOModes[r] == m
  {
    match m
    case NotIO => 0
    case Input => 1
    case Output => 2
  }

  /** The settings of an output-mode value node's only input. */
  const OutputInputSettings: Settings := ValueRequiredFlag | NoDefaultsFlag

  /** A value node's constructor declares no inputs. */
  const ValueNodeInputs: seq<Link> := []

  /** `IOUpdate`'s reshaping: an output-mode node has exactly one input, of its own type,
      required and never fed by a default node, and keeps its connection; a node in any
      other mode has none. */
  function IOLinks(inputs: seq<Link>, own: ValueType, mode: IOMode): (r: seq<Link>)
    ensures mode == Output ==> |r| == 1 && r[0].ty == own && r[0].settings == OutputInputSettings
    ensures mode == Output && |inputs| > 0 ==> r[0].nodeId == inputs[0].nodeId && r[0].lastDefault == inputs[0].lastDefault
    ensures mode == Output && |inputs| == 0 ==> r[0].nodeId == NoNodeId
    ensures mode != Output ==> r == []
  {
    if mode == Output then
      var resized := InitLinks(inputs, 1);
      [Initialize(resized[0], own, OutputInputSettings)]
    else InitLinks(inputs, 0)
  }

  /** The required, no-defaults pair of flags both read back as set. */
  lemma {:induction false} OutputInputFlags()
    ensures ValueRequired(Link(NoNodeId, NoType, OutputInputSettings, NoNodeId))
    ensures NoDefaults(Link(NoNodeId, NoType, OutputInputSettings, NoNodeId))
  {
  }

  /** `IOUpdate`'s declared output type: an output-mode node produces nothing. */
  function IOOutputType(own: ValueType, mode: IOMode): (r: ValueType)
    ensures r == NoType <==> mode == Output || own == NoType
    ensures r != NoType ==> r == own
  {
    if mode == Output then NoType else own
  }

  /** A value node takes part in editing (can be removed, duplicated) only when it is not
      one of the graph's inputs or outputs. */
  predicate IsControllable(mode: IOMode) {
    mode == NotIO
  }

  /** The value node's rule: an output-mode node rejects an input that is neither its own
      type nor unconnected; otherwise the result is the node's own type in the plain and
      input modes and `None` in output mode. */
  function ValueNodeType(own: ValueType, mode: IOMode, t: seq<ValueType>): (r: ValueType)
    requires IsPayloadType(own)
    requires mode == Output ==> |t| >= 1
    ensures r == Error <==> mode == Output && !InputIsExactOrNone(t[0], own)
    ensures r != Error ==> r == IOOutputType(own, mode)
    ensures r == own <==> mode != Output
  {
    if mode == Output && !(t[0] == own || t[0] == NoType) then Error
    else if mode == NotIO || mode == Input then own
    else NoType
  }

  /** What a value node's processor offers: an output-mode node only writes its input
      into its value (`VoidOut`); every other mode reads the value through the accessor
      of its own type. */
  datatype ValueProcessor = WritesValue | ReadsValue(accessor: Accessor)

  function ValueNodeProcessor(v: Value, mode: IOMode): (r: ValueProcessor)
    ensures r.WritesValue? <==> mode == Output
    ensures r.ReadsValue? ==> AccessorFor(TypeOfValue(v)) == Some(r.accessor)
  {
    if mode == Output then WritesValue
    else match v
      case BoolValue(_) => ReadsValue(BoolOut)
      case IntValue(_) => ReadsValue(IntOut)
      case FloatValue(_) => ReadsValue(FloatOut)
      case Vector2Value(_, _) => ReadsValue(Vector2Out)
      case Vector3Value(_, _, _) => ReadsValue(Vector3Out)
      case Vector4Value(_, _, _, _) => ReadsValue(Vector4Out)
      case ColorValue(_, _, _, _) => ReadsValue(ColorOut)
  }

  // ----- animation curve -----

  /** A Unity keyframe: time, value and tangents as float text, and the tangent mode. */
  datatype Keyframe = Keyframe(time: FloatText, value: FloatText, inTangent: FloatText, outTangent: FloatText, tangentMode: Int32)

  /** An animation curve: its two wrap modes (as enum ordinals) and its keys. */
  datatype Curve = Curve(preWrapMode: Int32, postWrapMode: Int32, keys: seq<Keyframe>)

  /** The wrap-mode ordinal of a curve nobody has configured. */
  const DefaultWrapMode: Int32 := 0

  /** `new AnimationCurve()`: default wrap modes and no keys. */
  const EmptyCurve: Curve := Curve(DefaultWrapMode, DefaultWrapMode, [])

  /** `AnimationCurve.Linear(0, 0, 1, 1)`, the curve node's initial curve: two keys on the
      diagonal, both with slope one. */
  const LinearCurve: Curve := Curve(DefaultWrapMode, DefaultWrapMode,
    [Keyframe("0", "0", "1", "1", 0), Keyframe("1", "1", "1", "1", 0)])

  /** The curve and gradient nodes read one float that must be connected. */
  const CurveInputs: seq<Link> := [Declared(Float, OutputInputSettings)]
  const GradientInputs: seq<Link> := [Declared(Float, OutputInputSettings)]

  /** A float in gives a float out. */
  function CurveType(t: seq<ValueType>): (r: ValueType)
    requires |t| >= 1
    ensures r != Error <==> t[0] == Float
    ensures r != Error ==> r == Float
  {
    if t[0] == Float then Float else Error
  }

  // ----- gradient -----

  /** A colour key: time and the four channels as float text. */
  datatype ColorKey = ColorKey(time: FloatText, r: FloatText, g: FloatText, b: FloatText, a: FloatText)

  /** An alpha key: time and alpha as float text. */
  datatype AlphaKey = AlphaKey(time: FloatText, alpha: FloatText)

  /** A Unity gradient: its blend mode ordinal and its colour and alpha keys. */
  datatype Gradient = Gradient(mode: Int32, colorKeys: seq<ColorKey>, alphaKeys: seq<AlphaKey>)

  /** `new Gradient()`: blend mode, white from start to end, fully opaque. */
  const DefaultGradient: Gradient := Gradient(0,
    [ColorKey("0", "1", "1", "1", "1"), ColorKey("1", "1", "1", "1", "1")],
    [AlphaKey("0", "1"), AlphaKey("1", "1")])

  /** A float in gives a colour out. */
  function GradientType(t: seq<ValueType>): (r: ValueType)
    requires |t| >= 1
    ensures r != Error <==> t[0] == Float
    ensures r != Error ==> r == Color
  {
    if t[0] == Float then Color else Error
  }

  // ----- random -----

  /** The random node's `RandomType` setting, in declaration order. */
  datatype RandomType =
    | InsideUnitCircle | OnUnitCircle | InsideUnitSphere | OnUnitSphere
    | Value01 | Valuem11 | Rotation | RotationUniform

  const RandomTypes: seq<RandomType> :=
    [InsideUnitCircle, OnUnitCircle, InsideUnitSphere, OnUnitSphere, Value01, Valuem11, Rotation, RotationUniform]

  function RandomOrdinal(rt: RandomType): (r: nat)
    ensures r < |RandomTypes| && RandomTypes[r] == rt
  {
    match rt
    case InsideUnitCircle => 0
    case OnUnitCircle => 1
    case InsideUnitSphere => 2
    case OnUnitSphere => 3
    case Value01 => 4
    case Valuem11 => 5
    case Rotation => 6
    case RotationUniform => 7
  }

  const RandomInputs: seq<Link> := []

  /** `GetType`: circles are 2-vectors, spheres 3-vectors, the two ranges floats, and
      rotations 4-vectors (a quaternion's components). */
  function RandomOutputType(rt: RandomType): (r: ValueType)
    ensures r == Vector2 <==> rt == InsideUnitCircle || rt == OnUnitCircle
    ensures r == Vector3 <==> rt == InsideUnitSphere || rt == OnUnitSphere
    ensures r == Float <==> rt == Value01 || rt == Valuem11
    ensures r == Vector4 <==> rt == Rotation || rt == RotationUniform
  {
    match rt
    case InsideUnitCircle => Vector2
    case OnUnitCircle => Vector2
    case InsideUnitSphere => Vector3
    case OnUnitSphere => Vector3
    case Value01 => Float
    case Valuem11 => Float
    case Rotation => Vector4
    case RotationUniform => Vector4
  }

  /** The accessor `InitializeNodeProcessor` installs for each setting. */
  function RandomAccessor(rt: RandomType): Accessor {
    match rt
    case InsideUnitCircle => Vector2Out
    case OnUnitCircle => Vector2Out
    case InsideUnitSphere => Vector3Out
    case OnUnitSphere => Vector3Out
    case Value01 => FloatOut
    case Valuem11 => FloatOut
    case Rotation => Vector4Out
    case RotationUniform => Vector4Out
  }

  /** The installed accessor is always the one consumers of the declared type call. */
  lemma {:induction false} RandomAccessorMatchesType(rt: RandomType)
    ensures AccessorFor(RandomOutputType(rt)) == Some(RandomAccessor(rt))
  {
  }
}
