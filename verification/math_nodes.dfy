/** The Math node: 28 scalar and per-component operations of one or two inputs, the
    table that fixes each operation's input count, the type rule, which accessors the
    processor installs for which input types, and the four operations that have integer
    arithmetic. */
module MathNodes {
  import opened Wrappers
  import opened Text
  import opened ValueTypes
  import opened Links
  import opened NodeBase
  import opened Int32Math

  /** The `OperationType` enum, in declaration order (names as in the source). */
  datatype MathOperation =
    | Multyply | Divide | Add | Subtract | Negative
    | Log | Pow | Sqrt | Exp | ClosestPowerOfTwo
    | PerlinNoise
    | Repeat | PingPong | Abs | Sign
    | Round | Floor | Ceil
    | Max | Min | Clamp01
    | Sin | Cos | Tan | Asin | Acos | Atan | Atan2

  const MathOperations: seq<MathOperation> := [Multyply, Divide, Add, Subtract, Negative, Log, Pow, Sqrt, Exp, ClosestPowerOfTwo, PerlinNoise, Repeat, PingPong, Abs, Sign, Round, Floor, Ceil, Max, Min, Clamp01, Sin, Cos, Tan, Asin, Acos, Atan, Atan2]

  function MathOrdinal(op: MathOperation): (r: nat)
    ensures r < |MathOperations| && MathOperations[r] == op
  {
    match op
    case Multyply => 0
    case Divide => 1
    case Add => 2
    case Subtract => 3
    case Negative => 4
    case Log => 5
    case Pow => 6
    case Sqrt => 7
    case Exp => 8
    case ClosestPowerOfTwo => 9
    case PerlinNoise => 10
    case Repeat => 11
    case PingPong => 12
    case Abs => 13
    case Sign => 14
    case Round => 15
    case Floor => 16
    case Ceil => 17
    case Max => 18
    case Min => 19
    case Clamp01 => 20
    case Sin => 21
    case Cos => 22
    case Tan => 23
    case Asin => 24
    case Acos => 25
    case Atan => 26
    case Atan2 => 27
  }

  /** A row of `OperationConfigs`; the generated-code format string is not modelled. */
  datatype OperationConfig = OperationConfig(operation: MathOperation, inputCount: nat)

  const OperationConfigs: seq<OperationConfig> := [
    OperationConfig(Multyply, 2),
    OperationConfig(Divide, 2),
    OperationConfig(Add, 2),
    OperationConfig(Subtract, 2),
    OperationConfig(Negative, 1),
    OperationConfig(Log, 2),
    OperationConfig(Pow, 2),
    OperationConfig(Sqrt, 1),
    OperationConfig(Exp, 1),
    OperationConfig(ClosestPowerOfTwo, 1),
    OperationConfig(PerlinNoise, 2),
    OperationConfig(Repeat, 2),
    OperationConfig(PingPong, 2),
    OperationConfig(Abs, 1),
    OperationConfig(Sign, 1),
    OperationConfig(Round, 1),
    OperationConfig(Floor, 1),
    OperationConfig(Ceil, 1),
    OperationConfig(Max, 2),
    OperationConfig(Min, 2),
    OperationConfig(Clamp01, 1),
    OperationConfig(Sin, 1),
    OperationConfig(Cos, 1),
    OperationConfig(Tan, 1),
    OperationConfig(Asin, 1),
    OperationConfig(Acos, 1),
    OperationConfig(Atan, 1),
    OperationConfig(Atan2, 2)
  ]

  /** The operations that read one input. */
  predicate IsOneInput(op: MathOperation) {
    op == Negative || op == Sqrt || op == Exp || op == ClosestPowerOfTwo ||
    op == Abs || op == Sign || op == Round || op == Floor ||
    op == Ceil || op == Clamp01 || op == Sin || op == Cos ||
    op == Tan || op == Asin || op == Acos || op == Atan
  }

  /** `OperationConfigs[(int)_Type]`: the table is aligned with the enum, and it gives one
      input exactly to the one-input operations and two to all others. */
  function ConfigOf(op: MathOperation): (c: OperationConfig)
    ensures c.operation == op
    ensures c.inputCount == (if IsOneInput(op) then 1 else 2)
  {
    OperationConfigs[MathOrdinal(op)]
  }

  function InputCount(op: MathOperation): (n: nat)
    ensures n == 1 || n == 2
  {
    ConfigOf(op).inputCount
  }

  const MathInputs: seq<Link> := [Declared(AutoValue, DefaultSettings), Declared(AutoValue, DefaultSettings)]

  /** `OnValidate`: the inputs are reset to generic values only when their number is wrong
      for the operation; otherwise they are left exactly as they are. */
  function MathLinks(inputs: seq<Link>, op: MathOperation): (r: seq<Link>)
    ensures |r| == InputCount(op)
    ensures |inputs| == InputCount(op) ==> r == inputs
    ensures |inputs| != InputCount(op) ==>
      forall i :: 0 <= i < |r| ==> r[i].ty == AutoValue && r[i].settings == DefaultSettings
    ensures forall i :: 0 <= i < |r| && i < |inputs| ==>
      r[i].nodeId == inputs[i].nodeId && r[i].lastDefault == inputs[i].lastDefault
    ensures forall i :: |inputs| <= i < |r| ==> r[i].nodeId == NoNodeId
  {
    var count := InputCount(op);
    if |inputs| != count then Reshape(inputs, seq(count, _ => AutoValue), DefaultSettings)
    else inputs
  }

  /** The type rule. One input: any value type passes through. Two inputs: two scalars
      give a scalar (`Int` only for two ints); otherwise two equal vectors, or a vector with
      a scalar, give the vector type. */
  function MathType(op: MathOperation, t: seq<ValueType>): (r: ValueType)
    requires |t| >= InputCount(op)
    ensures InputCount(op) == 1 ==> (r != Error <==> IsValue(t[0])) && (r != Error ==> r == t[0])
    ensures InputCount(op) == 2 ==>
      (r != Error <==> (IsFloatOrInt(t[0]) && IsFloatOrInt(t[1])) || InputVectorFloatInt(t[0], t[1]) != Error)
    ensures InputCount(op) == 2 ==> (r == Int <==> t[0] == Int && t[1] == Int)
    ensures InputCount(op) == 2 && IsFloatOrInt(t[0]) && IsFloatOrInt(t[1]) ==> IsFloatOrInt(r)
    ensures InputCount(op) == 2 && r != Error && !IsFloatOrInt(r) ==> IsVector(r) && (r == t[0] || r == t[1])
  {
    if InputCount(op) == 2 then
      var fi := InputFloatInt(t[0], t[1]);
      if fi != Error then fi else InputVectorFloatInt(t[0], t[1])
    else
      InputValue(t[0])
  }

  const VectorAccessors: set<Accessor> := {Vector2Out, Vector3Out, Vector4Out, ColorOut}

  /** The accessors `InitializeNodeProcessor` installs, given the cached types of the
      inputs: all six for a one-input operation; the four vector accessors when either
      input is a vector; otherwise `IntOut` for two ints and `FloatOut` for any other pair. */
  function MathAccessors(op: MathOperation, a: ValueType, b: ValueType): (r: set<Accessor>)
    ensures IsOneInput(op) ==> r == VectorAccessors + {FloatOut, IntOut}
    ensures !IsOneInput(op) && (IsVector(a) || IsVector(b)) ==> r == VectorAccessors
    ensures !IsOneInput(op) && a == Int && b == Int ==> r == {IntOut}
    ensures !IsOneInput(op) && IsFloatOrInt(a) && IsFloatOrInt(b) && (a == Float || b == Float) ==> r == {FloatOut}
  {
    if InputCount(op) == 1 then VectorAccessors + {FloatOut, IntOut}
    else if Config(a).isVector || Config(b).isVector then VectorAccessors
    else if a == Float || b == Float then {FloatOut}
    else {IntOut}
  }

  /** The processor can always answer the request its own type calls for: for concrete,
      well-typed inputs the accessor of the rule's result is among those installed. */
  lemma {:induction false} MathAccessorMatchesType(op: MathOperation, t: seq<ValueType>)
    requires |t| >= 2 && IsConcrete(t[0]) && IsConcrete(t[1])
    requires MathType(op, t) != Error
    ensures AccessorFor(MathType(op, t)).Some?
    ensures AccessorFor(MathType(op, t)).value in MathAccessors(op, t[0], t[1])
  {
  }

  // ----- integer arithmetic -----

  /** The four operations with `int` arithmetic of their own. */
  predicate HasIntArithmetic(op: MathOperation) {
    op == Multyply || op == Divide || op == Add || op == Subtract
  }

  /** `OperationTwoInputInt` of those operations: unchecked wrap-around for `+`, `-`, `*`,
      and truncating division, which throws for a zero divisor and for `int.MinValue / -1`. */
  function IntOperation(op: MathOperation, a: Int32, b: Int32): (r: Result<Int32>)
    requires HasIntArithmetic(op)
    ensures op == Divide ==> (r.Failure? <==> b == 0 || (a == MinInt32 && b == -1))
    ensures op == Divide && r.Success? ==>
      Magnitude(a - r.value * b) < Magnitude(b) && (a - r.value * b == 0 || (a - r.value * b < 0 <==> a < 0))
    ensures op != Divide ==> r.Success?
    ensures op != Divide && MinInt32 <= a + b <= MaxInt32 && op == Add ==> r.value == a + b
  {
    match op
    case Multyply => Success(Wrap32(a * b))
    case Add => Success(Wrap32(a + b))
    case Subtract => Success(Wrap32(a - b))
    case Divide =>
      if b == 0 || (a == MinInt32 && b == -1) then Failure("division by zero or overflow")
      else
        TruncDivRemainder(a, b);
        DivInRange(a, b);
        Success(TruncDiv(a, b))
  }

  /** `Negative` on an `int`: unchecked negation, so `int.MinValue` is its own negative. */
  function IntNegative(a: Int32): (r: Int32)
    ensures a != MinInt32 ==> r == -a
  {
    Wrap32(0 - a as int)
  }

  /** Unchecked subtraction is addition of the unchecked negative. */
  lemma {:induction false} SubtractIsAddNegative(a: Int32, b: Int32)
    ensures IntOperation(Subtract, a, b) == IntOperation(Add, a, IntNegative(b))
  {
    WrapAdd(0 - b as int, a);
  }

  /** Unchecked addition and multiplication do not depend on operand order. */
  lemma {:induction false} IntOperationsCommute(a: Int32, b: Int32)
    ensures IntOperation(Add, a, b) == IntOperation(Add, b, a)
    ensures IntOperation(Multyply, a, b) == IntOperation(Multyply, b, a)
  {
  }

  // ----- per-component application -----

  /** A two-input operation applied component by component to two vectors of one shape. */
  function Zip<F>(f: (F, F) -> F, xs: seq<F>, ys: seq<F>): (r: seq<F>)
    requires |xs| == |ys|
    ensures |r| == |xs| && forall i :: 0 <= i < |r| ==> r[i] == f(xs[i], ys[i])
  {
    seq(|xs|, i requires 0 <= i < |xs| => f(xs[i], ys[i]))
  }

  /** A vector with a scalar on the right: the scalar is reused for every component. */
  function BroadcastRight<F>(f: (F, F) -> F, xs: seq<F>, s: F): (r: seq<F>)
    ensures |r| == |xs| && forall i :: 0 <= i < |r| ==> r[i] == f(xs[i], s)
  {
    seq(|xs|, i requires 0 <= i < |xs| => f(xs[i], s))
  }

  /** A scalar on the left with a vector. */
  function BroadcastLeft<F>(f: (F, F) -> F, s: F, ys: seq<F>): (r: seq<F>)
    ensures |r| == |ys| && forall i :: 0 <= i < |r| ==> r[i] == f(s, ys[i])
  {
    seq(|ys|, i requires 0 <= i < |ys| => f(s, ys[i]))
  }

  /** Broadcasting a scalar is the component-wise operation with a vector whose
      components all equal that scalar, on either side. */
  lemma {:induction false} BroadcastIsZipWithConstant<F>(f: (F, F) -> F, xs: seq<F>, s: F)
    ensures BroadcastRight(f, xs, s) == Zip(f, xs, seq(|xs|, _ => s))
    ensures BroadcastLeft(f, s, xs) == Zip(f, seq(|xs|, _ => s), xs)
  {
  }
}
