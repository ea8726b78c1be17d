/** The Vector Math node: dot product, normalisation, length, distance, cross product,
    projections and reflection, each with its own input shape and type rule. */
module VectorMathNodes {
  import opened ValueTypes
  import opened Links
  import opened NodeBase

  datatype VectorOperation = Dot | Normalize | Length | Distance | Cross | Project | ProjectOnPlane | Reflect

  const VectorOperations: seq<VectorOperation> :=
    [Dot, Normalize, Length, Distance, Cross, Project, ProjectOnPlane, Reflect]

  function VectorOrdinal(op: VectorOperation): (r: nat)
    ensures r < |VectorOperations| && VectorOperations[r] == op
  {
    match op
    case Dot => 0
    case Normalize => 1
    case Length => 2
    case Distance => 3
    case Cross => 4
    case Project => 5
    case ProjectOnPlane => 6
    case Reflect => 7
  }

  const VectorMathInputs: seq<Link> := [Declared(AutoValue, DefaultSettings), Declared(AutoValue, DefaultSettings)]

  /** The declared inputs after `OnValidate`: one generic vector for `Normalize` and
      `Length`, two for every other operation. */
  function VectorInputTypes(op: VectorOperation): (r: seq<ValueType>)
    ensures |r| == (if op == Normalize || op == Length then 1 else 2)
    ensures forall i :: 0 <= i < |r| ==> r[i] == AutoVector
  {
    if op == Normalize || op == Length then [AutoVector] else [AutoVector, AutoVector]
  }

  function VectorMathLinks(inputs: seq<Link>, op: VectorOperation): (r: seq<Link>)
    ensures |r| == |VectorInputTypes(op)|
    ensures forall i :: 0 <= i < |r| ==> r[i].ty == AutoVector && r[i].settings == DefaultSettings
    ensures forall i :: 0 <= i < |r| && i < |inputs| ==>
      r[i].nodeId == inputs[i].nodeId && r[i].lastDefault == inputs[i].lastDefault
    ensures forall i :: |inputs| <= i < |r| ==> r[i].nodeId == NoNodeId
  {
    Reshape(inputs, VectorInputTypes(op), DefaultSettings)
  }

  /** The type rule of each operation. */
  function VectorMathType(op: VectorOperation, t: seq<ValueType>): (r: ValueType)
    requires |t| >= |VectorInputTypes(op)|
    ensures (op == Dot || op == Distance) ==>
      (r != Error <==> t[0] == t[1] && IsVector(t[0])) && (r != Error ==> r == Float)
    ensures op == Normalize ==> (r != Error <==> IsVector(t[0])) && (r != Error ==> r == t[0])
    ensures op == Length ==> (r != Error <==> IsVector(t[0])) && (r != Error ==> r == Float)
    ensures (op == Cross || op == ProjectOnPlane) ==>
      (r != Error <==> t[0] == Vector3 && t[1] == Vector3) && (r != Error ==> r == Vector3)
    ensures op == Project ==>
      (r != Error <==> t[0] == t[1] && (t[0] == Vector3 || t[0] == Vector4)) && (r != Error ==> r == t[0])
    ensures op == Reflect ==>
      (r != Error <==> t[0] == t[1] && (t[0] == Vector2 || t[0] == Vector3)) && (r != Error ==> r == t[0])
  {
    match op
    case Dot => if InputVector(InputSame([t[0], t[1]])) != Error then Float else Error
    case Normalize => InputVector(t[0])
    case Length => if InputVector(t[0]) != Error then Float else Error
    case Distance => if InputVector(InputSame([t[0], t[1]])) != Error then Float else Error
    case Cross => if InputSame([t[0], t[1]]) == Vector3 then Vector3 else Error
    case Project =>
      var s := InputSame([t[0], t[1]]);
      if s == Vector3 || s == Vector4 then s else Error
    case ProjectOnPlane => if InputSame([t[0], t[1]]) == Vector3 then Vector3 else Error
    case Reflect =>
      var s := InputSame([t[0], t[1]]);
      if s == Vector3 || s == Vector2 then s else Error
  }
}
