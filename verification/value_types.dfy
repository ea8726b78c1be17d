/** The tags of the graph's type system, the capability table that classifies them,
    and the payloads carried by the seven tags that have value and default nodes. */
module ValueTypes {
  import opened Wrappers
  import opened Text

  /** The `ValueType` enum, in declaration order. `NoType` is the tag the source
      calls `None`: "no value arrives here". */
  datatype ValueType =
    | NoType | Error | AutoValue | AutoVector | Float | Vector2 | Vector3 | Vector4 | Color
    | Int | Bool | FloatMap2D | Texture2D | RenderTexture | Polygon | Mesh

  /** The runtime type a row of the table names. `HostOther` stands for every other type. */
  datatype HostType =
    | HostFloat | HostVector2 | HostVector3 | HostVector4 | HostColor | HostInt | HostBool
    | HostTexture2D | HostRenderTexture | HostMesh | HostOther

  /** The integer value of a tag. */
  function Ordinal(t: ValueType): (r: nat)
    ensures r < 16
  {
    match t
    case NoType => 0
    case Error => 1
    case AutoValue => 2
    case AutoVector => 3
    case Float => 4
    case Vector2 => 5
    case Vector3 => 6
    case Vector4 => 7
    case Color => 8
    case Int => 9
    case Bool => 10
    case FloatMap2D => 11
    case Texture2D => 12
    case RenderTexture => 13
    case Polygon => 14
    case Mesh => 15
  }

  /** One row of the capability table. */
  datatype TypeConfig = TypeConfig(
    valueType: ValueType,
    host: Option<HostType>,
    isVector: bool,
    isValue: bool,
    isValueExceptInt: bool)

  /** The capability table, one row per tag, in enum order. */
  const Types: seq<TypeConfig> := [
    TypeConfig(NoType, None, false, false, false),
    TypeConfig(Error, None, false, false, false),
    TypeConfig(AutoValue, None, false, true, true),
    TypeConfig(AutoVector, None, true, true, true),
    TypeConfig(Float, Some(HostFloat), false, true, true),
    TypeConfig(Vector2, Some(HostVector2), true, true, true),
    TypeConfig(Vector3, Some(HostVector3), true, true, true),
    TypeConfig(Vector4, Some(HostVector4), true, true, true),
    TypeConfig(Color, Some(HostColor), true, true, true),
    TypeConfig(Int, Some(HostInt), false, true, false),
    TypeConfig(Bool, Some(HostBool), false, false, false),
    TypeConfig(FloatMap2D, None, false, false, false),
    TypeConfig(Texture2D, Some(HostTexture2D), false, false, false),
    TypeConfig(RenderTexture, Some(HostRenderTexture), false, false, false),
    TypeConfig(Polygon, None, false, false, false),
    TypeConfig(Mesh, Some(HostMesh), false, false, false)
  ]

  /** The row of a tag: the table is read by the tag's integer value. */
  function Config(t: ValueType): (c: TypeConfig)
    ensures c.valueType == t
  {
    Types[Ordinal(t)]
  }

  /** Vector tags: the four vector shapes, colour, and the generic `AutoVector`. */
  function IsVector(t: ValueType): (r: bool)
    ensures r <==> t in {AutoVector, Vector2, Vector3, Vector4, Color}
  {
    Config(t).isVector
  }

  /** Value tags: the vector tags plus the scalars `Float`, `Int` and the generic `AutoValue`. */
  function IsValue(t: ValueType): (r: bool)
    ensures r <==> IsVector(t) || t in {AutoValue, Float, Int}
  {
    Config(t).isValue
  }

  /** Value tags other than `Int`. */
  function IsValueExceptInt(t: ValueType): (r: bool)
    ensures r <==> IsValue(t) && t != Int
  {
    Config(t).isValueExceptInt
  }

  /** The seven tags that have both a value node and a default node. */
  predicate IsPayloadType(t: ValueType) {
    t in {Float, Vector2, Vector3, Vector4, Color, Int, Bool}
  }

  /** The value held by a value node or a default node. Float components are their
      printed text; an `int` is a 32-bit integer. */
  datatype Value =
    | BoolValue(flag: bool)
    | IntValue(number: Int32)
    | FloatValue(x: FloatText)
    | Vector2Value(x: FloatText, y: FloatText)
    | Vector3Value(x: FloatText, y: FloatText, z: FloatText)
    | Vector4Value(x: FloatText, y: FloatText, z: FloatText, w: FloatText)
    | ColorValue(r: FloatText, g: FloatText, b: FloatText, a: FloatText)

  /** The tag of a payload. */
  function TypeOfValue(v: Value): (t: ValueType)
    ensures IsPayloadType(t)
  {
    match v
    case BoolValue(_) => Bool
    case IntValue(_) => Int
    case FloatValue(_) => Float
    case Vector2Value(_, _) => Vector2
    case Vector3Value(_, _, _) => Vector3
    case Vector4Value(_, _, _, _) => Vector4
    case ColorValue(_, _, _, _) => Color
  }

  /** The float components of a payload, in field order (none for `bool` and `int`). */
  function FloatComponents(v: Value): (r: seq<FloatText>)
    ensures |r| == ComponentCount(TypeOfValue(v))
  {
    match v
    case BoolValue(_) => []
    case IntValue(_) => []
    case FloatValue(x) => [x]
    case Vector2Value(x, y) => [x, y]
    case Vector3Value(x, y, z) => [x, y, z]
    case Vector4Value(x, y, z, w) => [x, y, z, w]
    case ColorValue(r, g, b, a) => [r, g, b, a]
  }

  /** Number of float components a payload of tag `t` carries. */
  function ComponentCount(t: ValueType): nat
  {
    match t
    case Float => 1
    case Vector2 => 2
    case Vector3 => 3
    case Vector4 => 4
    case Color => 4
    case _ => 0
  }

  /** The payload of a freshly constructed node: C#'s `default` of the field's type. */
  function ZeroValue(t: ValueType): (v: Value)
    requires IsPayloadType(t)
    ensures TypeOfValue(v) == t
    ensures forall i :: 0 <= i < |FloatComponents(v)| ==> FloatComponents(v)[i] == ZeroFloat
  {
    match t
    case Bool => BoolValue(false)
    case Int => IntValue(0)
    case Float => FloatValue(ZeroFloat)
    case Vector2 => Vector2Value(ZeroFloat, ZeroFloat)
    case Vector3 => Vector3Value(ZeroFloat, ZeroFloat, ZeroFloat)
    case Vector4 => Vector4Value(ZeroFloat, ZeroFloat, ZeroFloat, ZeroFloat)
    case Color => ColorValue(ZeroFloat, ZeroFloat, ZeroFloat, ZeroFloat)
  }

  /** The payload of tag `t` built from its float components. */
  function FromComponents(t: ValueType, cs: seq<FloatText>): (v: Value)
    requires t in {Float, Vector2, Vector3, Vector4, Color} && |cs| == ComponentCount(t)
    ensures TypeOfValue(v) == t && FloatComponents(v) == cs
  {
    if t == Float then FloatValue(cs[0])
    else if t == Vector2 then Vector2Value(cs[0], cs[1])
    else if t == Vector3 then Vector3Value(cs[0], cs[1], cs[2])
    else if t == Vector4 then Vector4Value(cs[0], cs[1], cs[2], cs[3])
    else ColorValue(cs[0], cs[1], cs[2], cs[3])
  }
}
