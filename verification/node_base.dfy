/** What every node kind shares: resizing the input array, the node's height in grid
    cells, and the small type-checking helpers the kinds' rules are written with. */
module NodeBase {
  import opened Wrappers
  import opened ValueTypes
  import opened Links

  /** Height of a node with no inputs and no drawn properties, in grid cells. */
  const DefaultHeight: int := 1

  /** `InitLinks(count)`: the input array resized to `count`; surviving links are kept
      as they are (connection, type and settings) and new slots get fresh links. */
  function InitLinks(inputs: seq<Link>, count: nat): (r: seq<Link>)
    ensures |r| == count
    ensures forall i :: 0 <= i < count && i < |inputs| ==> r[i] == inputs[i]
    ensures forall i :: |inputs| <= i < count ==> r[i] == FreshLink
  {
    if |inputs| == count then inputs
    else if count < |inputs| then inputs[..count]
    else inputs + seq(count - |inputs|, _ => FreshLink)
  }

  /** A constructor's `Inputs[i].Initialize(type, name, settings)` on a fresh slot: the
      declared type and settings on an unconnected link. */
  function Declared(ty: ValueType, settings: Settings): (l: Link)
    ensures l.nodeId == NoNodeId && l.lastDefault == NoNodeId
    ensures l.ty == ty && l.settings == settings
  {
    Initialize(FreshLink, ty, settings)
  }

  /** The usual `OnValidate` shape: resize to one input per declared type, then
      `Initialize` each with its type and the given settings. Connections survive. */
  function Reshape(inputs: seq<Link>, types: seq<ValueType>, settings: Settings): (r: seq<Link>)
    ensures |r| == |types|
    ensures forall i :: 0 <= i < |r| && i < |inputs| ==>
      r[i].nodeId == inputs[i].nodeId && r[i].lastDefault == inputs[i].lastDefault
    ensures forall i :: |inputs| <= i < |r| ==> r[i].nodeId == NoNodeId && r[i].lastDefault == NoNodeId
    ensures forall i :: 0 <= i < |r| ==> r[i].ty == types[i] && r[i].settings == settings
  {
    var resized := InitLinks(inputs, |types|);
    seq(|resized|, i requires 0 <= i < |resized| => Initialize(resized[i], types[i], settings))
  }

  /** Reshaping is idempotent: only the connections of the first argument matter. */
  lemma {:induction false} ReshapeIdempotent(inputs: seq<Link>, types: seq<ValueType>, settings: Settings)
    ensures Reshape(Reshape(inputs, types, settings), types, settings) == Reshape(inputs, types, settings)
  {
  }

  /** The accessors of a node processor that return a value, one per value-carrying type. */
  datatype Accessor =
    | FloatOut | Vector2Out | Vector3Out | Vector4Out | ColorOut | IntOut | BoolOut
    | Texture2DOut | RenderTextureOut

  /** The accessor a consumer calls to read an output of type `t`, if `t` has one. */
  function AccessorFor(t: ValueType): (a: Option<Accessor>)
    ensures a.Some? <==> IsPayloadType(t) || t == Texture2D || t == RenderTexture
  {
    match t
    case Float => Some(FloatOut)
    case Vector2 => Some(Vector2Out)
    case Vector3 => Some(Vector3Out)
    case Vector4 => Some(Vector4Out)
    case Color => Some(ColorOut)
    case Int => Some(IntOut)
    case Bool => Some(BoolOut)
    case Texture2D => Some(Texture2DOut)
    case RenderTexture => Some(RenderTextureOut)
    case _ => None
  }

  /** Resizing twice to the same count is resizing once. */
  lemma {:induction false} InitLinksIdempotent(inputs: seq<Link>, count: nat)
    ensures InitLinks(InitLinks(inputs, count), count) == InitLinks(inputs, count)
  {
  }

  /** `CalcNodeHeight`: one row for the title, one per drawn property, one per input. A
      `null` `DrawProperties` counts as none. */
  function NodeHeight(drawProperties: nat, inputs: seq<Link>): (h: int)
    ensures h > |inputs| && h > drawProperties
  {
    DefaultHeight + drawProperties + |inputs|
  }

  /** The height rows: a bare node is `DefaultHeight` (one row) tall, and each further
      input or drawn property adds exactly one row. */
  lemma {:induction false} NodeHeightRows(drawProperties: nat, inputs: seq<Link>, l: Link)
    ensures NodeHeight(0, []) == 1
    ensures NodeHeight(drawProperties, inputs + [l]) == NodeHeight(drawProperties, inputs) + 1
    ensures NodeHeight(drawProperties + 1, inputs) == NodeHeight(drawProperties, inputs) + 1
  {
  }

  // ----- type-checking helpers -----

  function SameFrom(ts: seq<ValueType>, i: nat): (r: ValueType)
    requires 0 < |ts|
    ensures (forall k :: i <= k < |ts| ==> ts[k] == ts[0]) ==> r == ts[0]
    ensures (exists k :: i <= k < |ts| && ts[k] != ts[0]) ==> r == Error
    decreases |ts| - i
  {
    if i >= |ts| then ts[0]
    else if ts[i] != ts[0] then Error
    else SameFrom(ts, i + 1)
  }

  /** `InputSame`: the common type when all the given types agree, `Error` otherwise. */
  function InputSame(ts: seq<ValueType>): (r: ValueType)
    requires 0 < |ts|
    ensures (forall k :: 0 <= k < |ts| ==> ts[k] == ts[0]) ==> r == ts[0]
    ensures (exists k :: 0 <= k < |ts| && ts[k] != ts[0]) ==> r == Error
  {
    SameFrom(ts, 1)
  }

  /** `InputExhact`: the type when the input is exactly it, `Error` otherwise. */
  function InputExact(input: ValueType, ty: ValueType): (r: ValueType)
    ensures r != Error ==> r == input && r == ty
    ensures input == ty ==> r == ty
  {
    if input != ty then Error else ty
  }

  /** `InputIsExhactOrNone`: the input is the type or nothing is connected. */
  predicate InputIsExactOrNone(input: ValueType, ty: ValueType) {
    input == ty || input == NoType
  }

  /** `InputVector`: a vector type passes through, anything else is `Error`. */
  function InputVector(t: ValueType): (r: ValueType)
    ensures r != Error ==> r == t && IsVector(t)
    ensures IsVector(t) ==> r == t
  {
    if Config(t).isVector then t else Error
  }

  /** `InputValue`: a value type passes through, anything else is `Error`. */
  function InputValue(t: ValueType): (r: ValueType)
    ensures r != Error ==> r == t && IsValue(t)
    ensures IsValue(t) ==> r == t
  {
    if Config(t).isValue then t else Error
  }

  predicate IsFloatOrInt(t: ValueType) {
    t == Float || t == Int
  }

  /** `InputVectorFloat`: two equal vectors, a vector with a float (the vector's type),
      or two floats. */
  function InputVectorFloat(a: ValueType, b: ValueType): (r: ValueType)
    ensures r != Error <==>
      (IsVector(a) && a == b) || (IsVector(a) && b == Float) || (IsVector(b) && a == Float) || (a == Float && b == Float)
    ensures r != Error ==> (r == a || r == b) && (IsVector(r) || r == Float)
    ensures r != Error && (IsVector(a) || IsVector(b)) ==> IsVector(r)
  {
    var aVector := Config(a).isVector;
    var bVector := Config(b).isVector;
    if aVector && bVector && a == b then b
    else if aVector && b == Float then a
    else if bVector && a == Float then b
    else if a == Float && b == Float then Float
    else Error
  }

  /** `InputVectorFloatInt`: two equal vectors, or a vector with a float or an int (the
      vector's type). Two scalars are an `Error` here. */
  function InputVectorFloatInt(a: ValueType, b: ValueType): (r: ValueType)
    ensures r != Error <==>
      (IsVector(a) && a == b) || (IsVector(a) && IsFloatOrInt(b)) || (IsVector(b) && IsFloatOrInt(a))
    ensures r != Error ==> IsVector(r) && (r == a || r == b)
  {
    var aVector := Config(a).isVector;
    var bVector := Config(b).isVector;
    var aScalar := a == Float || a == Int;
    var bScalar := b == Float || b == Int;
    if aVector && bVector && a == b then b
    else if aVector && bScalar then a
    else if bVector && aScalar then b
    else Error
  }

  /** `InputFloatInt`: two scalars; `Int` only when both are ints, `Float` otherwise. */
  function InputFloatInt(a: ValueType, b: ValueType): (r: ValueType)
    ensures r != Error <==> IsFloatOrInt(a) && IsFloatOrInt(b)
    ensures r == Int <==> a == Int && b == Int
    ensures r == Float <==> IsFloatOrInt(a) && IsFloatOrInt(b) && (a == Float || b == Float)
  {
    var aScalar := a == Float || a == Int;
    var bScalar := b == Float || b == Int;
    if !aScalar || !bScalar then Error
    else if a == b then a
    else Float
  }

  /** The pairwise helpers do not care which operand comes first. */
  lemma {:induction false} PairHelpersSymmetric(a: ValueType, b: ValueType)
    ensures InputVectorFloat(a, b) == InputVectorFloat(b, a)
    ensures InputVectorFloatInt(a, b) == InputVectorFloatInt(b, a)
    ensures InputFloatInt(a, b) == InputFloatInt(b, a)
  {
  }

  /** The generic tags `AutoValue` and `AutoVector` only stand for declared input types;
      no type rule ever computes one. */
  predicate IsConcrete(t: ValueType) {
    t != AutoValue && t != AutoVector
  }

  predicate AllConcrete(ts: seq<ValueType>) {
    forall i :: 0 <= i < |ts| ==> IsConcrete(ts[i])
  }
}
