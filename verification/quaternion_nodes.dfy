/** The Quaternion Math node: quaternions travel as `Vector4` values; each operation has
    its own declared inputs and type rule. */
module QuaternionNodes {
  import opened ValueTypes
  import opened Links
  import opened NodeBase

  /** The `OperationType` enum, in declaration order (names as in the source). */
  datatype QuaternionOperation =
    | Multyply | FormEuler | ToEuler | FromToRotation | AxisAngle | Inverse
    | LerpUnclamped | SlerpUnclamped | LookRotation

  const QuaternionOperations: seq<QuaternionOperation> :=
    [Multyply, FormEuler, ToEuler, FromToRotation, AxisAngle, Inverse, LerpUnclamped, SlerpUnclamped, LookRotation]

  function QuaternionOrdinal(op: QuaternionOperation): (r: nat)
    ensures r < |QuaternionOperations| && QuaternionOperations[r] == op
  {
    match op
    case Multyply => 0
    case FormEuler => 1
    case ToEuler => 2
    case FromToRotation => 3
    case AxisAngle => 4
    case Inverse => 5
    case LerpUnclamped => 6
    case SlerpUnclamped => 7
    case LookRotation => 8
  }

  const QuaternionInputs: seq<Link> := [Declared(AutoValue, DefaultSettings), Declared(AutoValue, DefaultSettings)]

  /** The declared inputs after `OnValidate`. */
  function QuaternionInputTypes(op: QuaternionOperation): (r: seq<ValueType>)
    ensures |r| == (if op == LerpUnclamped || op == SlerpUnclamped then 3
                    else if op == FormEuler || op == ToEuler || op == Inverse then 1
                    else 2)
  {
    match op
    case Multyply => [AutoVector, AutoVector]
    case AxisAngle => [Float, Vector3]
    case FormEuler => [Vector3]
    case ToEuler => [Vector4]
    case FromToRotation => [Vector3, Vector3]
    case Inverse => [Vector4]
    case LerpUnclamped => [Vector4, Vector4, Float]
    case SlerpUnclamped => [Vector4, Vector4, Float]
    case LookRotation => [Vector3, Vector3]
  }

  function QuaternionLinks(inputs: seq<Link>, op: QuaternionOperation): (r: seq<Link>)
    ensures |r| == |QuaternionInputTypes(op)|
    ensures forall i :: 0 <= i < |r| ==> r[i].ty == QuaternionInputTypes(op)[i] && r[i].settings == DefaultSettings
    ensures forall i :: 0 <= i < |r| && i < |inputs| ==>
      r[i].nodeId == inputs[i].nodeId && r[i].lastDefault == inputs[i].lastDefault
    ensures forall i :: |inputs| <= i < |r| ==> r[i].nodeId == NoNodeId
  {
    Reshape(inputs, QuaternionInputTypes(op), DefaultSettings)
  }

  /** Quaternion, 2-, 3- and 4-vector: what a quaternion can be multiplied with. */
  predicate IsRotatable(t: ValueType) {
    t == Vector2 || t == Vector3 || t == Vector4
  }

  /** The type rule. `Multyply` pairs a quaternion with a vector or quaternion on either
      side and has the other operand's type; `LookRotation` tolerates an unconnected up
      vector; every other operation accepts exactly its declared inputs and yields a
      quaternion, except `ToEuler`, which yields Euler angles. */
  function QuaternionType(op: QuaternionOperation, t: seq<ValueType>): (r: ValueType)
    requires |t| >= |QuaternionInputTypes(op)|
    ensures op == Multyply ==>
      (r != Error <==> (t[0] == Vector4 && IsRotatable(t[1])) || (t[1] == Vector4 && IsRotatable(t[0])))
    ensures op == Multyply && r != Error ==> r == (if t[0] == Vector4 then t[1] else t[0])
    ensures op == LookRotation ==>
      (r != Error <==> t[0] == Vector3 && InputIsExactOrNone(t[1], Vector3)) && (r != Error ==> r == Vector4)
    ensures op != Multyply && op != LookRotation ==>
      (r != Error <==> forall k :: 0 <= k < |QuaternionInputTypes(op)| ==> t[k] == QuaternionInputTypes(op)[k])
    ensures op != Multyply && r != Error ==> r == (if op == ToEuler then Vector3 else Vector4)
  {
    match op
    case Multyply =>
      if t[0] == Vector4 && (t[1] == Vector2 || t[1] == Vector3 || t[1] == Vector4) then t[1]
      else if t[1] == Vector4 && (t[0] == Vector2 || t[0] == Vector3 || t[0] == Vector4) then t[0]
      else Error
    case AxisAngle => if t[0] == Float && t[1] == Vector3 then Vector4 else Error
    case FormEuler => if t[0] == Vector3 then Vector4 else Error
    case ToEuler => if t[0] == Vector4 then Vector3 else Error
    case FromToRotation => if t[0] == Vector3 && t[1] == Vector3 then Vector4 else Error
    case Inverse => if t[0] == Vector4 then Vector4 else Error
    case LerpUnclamped => if t[0] == Vector4 && t[1] == Vector4 && t[2] == Float then Vector4 else Error
    case SlerpUnclamped => if t[0] == Vector4 && t[1] == Vector4 && t[2] == Float then Vector4 else Error
    case LookRotation => if t[0] == Vector3 && (t[1] == Vector3 || t[1] == NoType) then Vector4 else Error
  }
}
