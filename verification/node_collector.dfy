/** The node registry's type-level tables: which declared input type accepts which
    proposed type, which runtime type maps to which tag, and which tags have a default
    node and an IO value node. */
module NodeCollector {
  import opened Wrappers
  import opened ValueTypes

  /** `ValidateTypes`: may a link declared as `ours` carry a value of type `proposed`?
      The generic tags accept any value or vector tag; every other tag only itself. */
  function ValidateTypes(ours: ValueType, proposed: ValueType): (r: bool)
    ensures ours == AutoValue ==> (r <==> IsValue(proposed))
    ensures ours == AutoVector ==> (r <==> IsVector(proposed))
    ensures ours != AutoValue && ours != AutoVector ==> (r <==> ours == proposed)
  {
    if ours == AutoValue then Config(proposed).isValue
    else if ours == AutoVector then Config(proposed).isVector
    else ours == proposed
  }

  /** Every tag accepts itself, and a generic tag accepts exactly what the other
      generic tag or a concrete tag it covers would. */
  lemma {:induction false} ValidateTypesOrder(a: ValueType, b: ValueType)
    ensures ValidateTypes(a, a)
    ensures ValidateTypes(AutoVector, b) ==> ValidateTypes(AutoValue, b)
    ensures ValidateTypes(a, b) && a != AutoValue && a != AutoVector ==> ValidateTypes(b, a)
  {
  }

  /** `GetValueType`: the tag of a runtime type; `Error` for any type it does not know. */
  function GetValueType(h: HostType): (r: ValueType)
    ensures r == Error <==> h == HostMesh || h == HostOther
  {
    match h
    case HostFloat => Float
    case HostVector2 => Vector2
    case HostVector3 => Vector3
    case HostVector4 => Vector4
    case HostColor => Color
    case HostInt => Int
    case HostBool => Bool
    case HostTexture2D => Texture2D
    case HostRenderTexture => RenderTexture
    case _ => Error
  }

  /** `GetValueType` inverts the runtime-type column of the capability table, except for
      the mesh row, which it does not know. */
  lemma {:induction false} GetValueTypeInvertsTable(h: HostType, t: ValueType)
    ensures GetValueType(h) != Error ==> Config(GetValueType(h)).host == Some(h)
    ensures Config(t).host == Some(h) && h != HostMesh ==> GetValueType(h) == t
  {
  }

  /** The `DefaultNodes` table: the payload tag of the default-constant node that feeds an
      unconnected input of type `t`. The seven payload tags have their own; the generic
      tags borrow the float and 3-vector ones; no other tag has one. */
  function DefaultKindFor(t: ValueType): (r: Option<ValueType>)
    ensures r.Some? <==> IsPayloadType(t) || t == AutoValue || t == AutoVector
    ensures IsPayloadType(t) ==> r == Some(t)
    ensures t == AutoValue ==> r == Some(Float)
    ensures t == AutoVector ==> r == Some(Vector3)
    ensures r.Some? ==> IsPayloadType(r.value)
  {
    if IsPayloadType(t) then Some(t)
    else if t == AutoValue then Some(Float)
    else if t == AutoVector then Some(Vector3)
    else None
  }

  /** A default node's constant is always acceptable on the link it was created for. */
  lemma {:induction false} DefaultKindValidates(t: ValueType)
    requires DefaultKindFor(t).Some?
    ensures ValidateTypes(t, DefaultKindFor(t).value)
  {
  }

  /** The `IOTypes` table: the tag whose value node serves as a graph input or output of
      type `t`. Only the seven payload tags have value nodes. */
  function IOTypeFor(t: ValueType): (r: Option<ValueType>)
    ensures r.Some? <==> IsPayloadType(t)
    ensures r.Some? ==> r.value == t
  {
    if IsPayloadType(t) then Some(t) else None
  }
}
