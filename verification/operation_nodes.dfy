/** The "Operations" node kinds: Lerp, Condition, If, BoolOperator, VecModify,
    VecConstructor, ColorHSV, Convert and Swizzle. For each: the inputs its constructor
    declares, how `OnValidate` reshapes them, and its type rule. */
module OperationNodes {
  import opened Wrappers
  import opened ValueTypes
  import opened Links
  import opened NodeBase

  // ----- Lerp -----

  const LerpInputs: seq<Link> :=
    [Declared(AutoValue, DefaultSettings), Declared(AutoValue, DefaultSettings), Declared(Float, DefaultSettings)]

  /** A and B of one value type and a float t; the result has A's type. */
  function LerpType(t: seq<ValueType>): (r: ValueType)
    requires |t| >= 3
    ensures r != Error <==> t[0] == t[1] && IsValue(t[0]) && t[2] == Float
    ensures r != Error ==> r == t[0]
  {
    var ty := InputValue(InputSame([t[0], t[1]]));
    if t[2] == Float then ty else Error
  }

  // ----- Condition -----

  datatype ConditionOperation = AMoreThanB | AMoreOrEqualB | AEqualB

  const ConditionOperations: seq<ConditionOperation> := [AMoreThanB, AMoreOrEqualB, AEqualB]

  function ConditionOrdinal(op: ConditionOperation): (r: nat)
    ensures r < |ConditionOperations| && ConditionOperations[r] == op
  {
    match op
    case AMoreThanB => 0
    case AMoreOrEqualB => 1
    case AEqualB => 2
  }

  const ConditionInputs: seq<Link> := [Declared(Float, DefaultSettings), Declared(Float, DefaultSettings)]

  /** Two floats give a bool. */
  function ConditionType(t: seq<ValueType>): (r: ValueType)
    requires |t| >= 2
    ensures r != Error <==> t[0] == Float && t[1] == Float
    ensures r != Error ==> r == Bool
  {
    if t[0] != Float then Error
    else if t[1] != Float then Error
    else Bool
  }

  // ----- If -----

  const IfInputs: seq<Link> :=
    [Declared(Bool, DefaultSettings), Declared(AutoValue, DefaultSettings), Declared(AutoValue, DefaultSettings)]

  /** A bool condition and two branches of one value type; the result has the branches' type. */
  function IfType(t: seq<ValueType>): (r: ValueType)
    requires |t| >= 3
    ensures r != Error <==> t[0] == Bool && t[1] == t[2] && IsValue(t[1])
    ensures r != Error ==> r == t[1]
  {
    if t[0] != Bool then Error
    else InputValue(InputSame([t[1], t[2]]))
  }

  // ----- BoolOperator -----

  datatype BoolOperation = InvertA | TriggerA | Equal | Or | And | Xor

  const BoolOperations: seq<BoolOperation> := [InvertA, TriggerA, Equal, Or, And, Xor]

  function BoolOrdinal(op: BoolOperation): (r: nat)
    ensures r < |BoolOperations| && BoolOperations[r] == op
  {
    match op
    case InvertA => 0
    case TriggerA => 1
    case Equal => 2
    case Or => 3
    case And => 4
    case Xor => 5
  }

  /** The operations that read only input A. */
  predicate IsUnaryBool(op: BoolOperation) {
    op == InvertA || op == TriggerA
  }

  const BoolOperatorInputs: seq<Link> := [Declared(Bool, DefaultSettings), Declared(Bool, DefaultSettings)]

  /** `OnValidate`: input B is required exactly when the operation reads it; nothing
      else about the links changes. */
  function BoolOperatorLinks(inputs: seq<Link>, op: BoolOperation): (r: seq<Link>)
    requires |inputs| >= 2
    ensures |r| == |inputs|
    ensures ValueRequired(r[1]) <==> !IsUnaryBool(op)
    ensures NoDefaults(r[1]) == NoDefaults(inputs[1])
    ensures r[1].(settings := inputs[1].settings) == inputs[1]
    ensures forall i :: 0 <= i < |r| && i != 1 ==> r[i] == inputs[i]
  {
    inputs[1 := SetValueRequired(inputs[1], !IsUnaryBool(op))]
  }

  /** Input A must be a bool; input B a bool or unconnected. */
  function BoolOperatorType(t: seq<ValueType>): (r: ValueType)
    requires |t| >= 2
    ensures r != Error <==> t[0] == Bool && InputIsExactOrNone(t[1], Bool)
    ensures r != Error ==> r == Bool
  {
    if t[0] != Bool then Error
    else if t[1] != Bool && t[1] != NoType then Error
    else Bool
  }

  /** One evaluation of the operator's output from A, B and the value `TriggerA` last
      stored; the result is the output and the stored value afterwards. */
  function BoolEvaluate(op: BoolOperation, a: bool, b: bool, last: bool): (r: (bool, bool))
    ensures op != TriggerA ==> r.1 == last
    ensures op == TriggerA ==> r.1 == a && (r.0 <==> a != last)
  {
    match op
    case InvertA => (!a, last)
    case TriggerA => if last == a then (false, last) else (true, a)
    case Equal => (a == b, last)
    case Or => (a || b, last)
    case And => (a && b, last)
    case Xor => (a != b, last)
  }

  /** Whether an evaluation calls B's output at all: C#'s `||` and `&&` skip B once A
      decides the result, `==` and `^` always call it, and the one-input operations never
      do. A skipped call also skips whatever B's processor would update (its frame cache,
      an upstream trigger's stored value). */
  function CallsB(op: BoolOperation, a: bool): (r: bool) {
    match op
    case InvertA => false
    case TriggerA => false
    case Equal => true
    case Or => !a
    case And => a
    case Xor => true
  }

  /** B is skipped exactly when its value cannot change the result: for every operation
      and every A, the output ignores B precisely when B is not called. */
  lemma {:induction false} SkippedBIsIrrelevant(op: BoolOperation, a: bool, last: bool)
    ensures !CallsB(op, a) <==> BoolEvaluate(op, a, false, last) == BoolEvaluate(op, a, true, last)
  {
  }

  /** The two-input operations are the usual connectives: `Xor` is the negation of
      `Equal`, and `Or`/`And` are dual under `InvertA`. */
  lemma {:induction false} BoolConnectives(a: bool, b: bool, last: bool)
    ensures BoolEvaluate(Xor, a, b, last).0 == !BoolEvaluate(Equal, a, b, last).0
    ensures BoolEvaluate(InvertA, BoolEvaluate(Or, a, b, last).0, b, last).0
      == BoolEvaluate(And, !a, !b, last).0
  {
  }

  /** `TriggerA` is an edge detector: it fires on a change of A and then stays quiet
      while A holds still. */
  lemma {:induction false} TriggerFiresOncePerChange(a: bool, b: bool, b': bool, last: bool)
    ensures BoolEvaluate(TriggerA, a, b, last).0 <==> a != last
    ensures !BoolEvaluate(TriggerA, a, b', BoolEvaluate(TriggerA, a, b, last).1).0
  {
  }

  // ----- VecModify -----

  const VecModifyInputs: seq<Link> := [Declared(AutoVector, NoDefaultsFlag)]

  /** The vector input plus one float input per component of a concrete vector type. */
  function VecModifyCount(vec: ValueType): (n: nat)
    ensures IsVector(vec) && vec != AutoVector ==> n == 1 + ComponentCount(vec)
    ensures !(IsVector(vec) && vec != AutoVector) ==> n == 1
  {
    match vec
    case Vector2 => 3
    case Vector3 => 4
    case Vector4 => 5
    case Color => 5
    case _ => 1
  }

  /** The resize `CheckInputsAndGetType` performs once input 0's type is known: links that
      survive keep their connections, and every component input is a float that never
      gets a default node. */
  function VecModifyLinks(inputs: seq<Link>, vec: ValueType): (r: seq<Link>)
    ensures |r| == VecModifyCount(vec)
    ensures |inputs| > 0 ==> r[0] == inputs[0]
    ensures forall i :: 0 <= i < |r| && i < |inputs| ==>
      r[i].nodeId == inputs[i].nodeId && r[i].lastDefault == inputs[i].lastDefault
    ensures forall i :: |inputs| <= i < |r| ==> r[i].nodeId == NoNodeId
    ensures forall i :: 1 <= i < |r| ==> r[i].ty == Float && r[i].settings == NoDefaultsFlag
  {
    var resized := InitLinks(inputs, VecModifyCount(vec));
    seq(|resized|, i requires 0 <= i < |resized| =>
      if i == 0 then resized[0] else Initialize(resized[i], Float, NoDefaultsFlag))
  }

  /** Reshaping for the same vector type twice is reshaping once. */
  lemma {:induction false} VecModifyLinksIdempotent(inputs: seq<Link>, vec: ValueType)
    ensures VecModifyLinks(VecModifyLinks(inputs, vec), vec) == VecModifyLinks(inputs, vec)
  {
  }

  /** Every type from index `i` on is a float or unconnected. */
  function FloatOrNoneFrom(t: seq<ValueType>, i: nat): (r: bool)
    ensures r <==> forall k :: i <= k < |t| ==> InputIsExactOrNone(t[k], Float)
    decreases |t| - i
  {
    if i >= |t| then true
    else if !InputIsExactOrNone(t[i], Float) then false
    else FloatOrNoneFrom(t, i + 1)
  }

  /** A vector input and float (or unconnected) component inputs give the vector's type. */
  function VecModifyType(t: seq<ValueType>): (r: ValueType)
    requires |t| >= 1
    ensures r != Error <==> IsVector(t[0]) && forall k :: 1 <= k < |t| ==> InputIsExactOrNone(t[k], Float)
    ensures r != Error ==> r == t[0]
  {
    if !FloatOrNoneFrom(t, 1) then Error else InputVector(t[0])
  }

  // ----- VecConstructor -----

  /** The constructor's `VectorType` setting. */
  datatype VectorShape = Vec2 | Vec3 | Vec4 | VecColor

  const VectorShapes: seq<VectorShape> := [Vec2, Vec3, Vec4, VecColor]

  function ShapeOrdinal(v: VectorShape): (r: nat)
    ensures r < |VectorShapes| && VectorShapes[r] == v
  {
    match v
    case Vec2 => 0
    case Vec3 => 1
    case Vec4 => 2
    case VecColor => 3
  }

  /** The value type a shape builds. */
  function ShapeType(v: VectorShape): (r: ValueType)
    ensures IsVector(r) && r != AutoVector
  {
    match v
    case Vec2 => Vector2
    case Vec3 => Vector3
    case Vec4 => Vector4
    case VecColor => Color
  }

  /** The constructor declares no inputs; `OnValidate` creates them. */
  const VecConstrInputs: seq<Link> := []

  /** `OnValidate`: one float input per component of the shape, none of them required. */
  function VecConstrLinks(inputs: seq<Link>, v: VectorShape): (r: seq<Link>)
    ensures |r| == ComponentCount(ShapeType(v))
    ensures forall i :: 0 <= i < |r| ==> r[i].ty == Float && r[i].settings == SettingsNone
    ensures forall i :: 0 <= i < |r| && i < |inputs| ==>
      r[i].nodeId == inputs[i].nodeId && r[i].lastDefault == inputs[i].lastDefault
    ensures forall i :: |inputs| <= i < |r| ==> r[i].nodeId == NoNodeId
  {
    Reshape(inputs, seq(ComponentCount(ShapeType(v)), _ => Float), SettingsNone)
  }

  /** Float or unconnected inputs give the shape's type. */
  function VecConstrType(v: VectorShape, t: seq<ValueType>): (r: ValueType)
    ensures r != Error <==> forall k :: 0 <= k < |t| ==> InputIsExactOrNone(t[k], Float)
    ensures r != Error ==> r == ShapeType(v)
  {
    if !FloatOrNoneFrom(t, 0) then Error else ShapeType(v)
  }

  // ----- ColorHSV -----

  datatype HsvOperation = RgbToHsv | HsvToRgb | HsvComponentsToRgb

  const HsvOperations: seq<HsvOperation> := [RgbToHsv, HsvToRgb, HsvComponentsToRgb]

  function HsvOrdinal(op: HsvOperation): (r: nat)
    ensures r < |HsvOperations| && HsvOperations[r] == op
  {
    match op
    case RgbToHsv => 0
    case HsvToRgb => 1
    case HsvComponentsToRgb => 2
  }

  const ColorHsvInputs: seq<Link> := [Declared(Color, DefaultSettings)]

  /** The input types an operation declares: a colour, a hue-saturation-value vector, or
      three floats. */
  function HsvInputTypes(op: HsvOperation): (r: seq<ValueType>)
    ensures |r| == (if op == HsvComponentsToRgb then 3 else 1)
  {
    match op
    case RgbToHsv => [Color]
    case HsvToRgb => [Vector3]
    case HsvComponentsToRgb => [Float, Float, Float]
  }

  /** `OnValidate`: the operation's inputs, each required. */
  function HsvLinks(inputs: seq<Link>, op: HsvOperation): (r: seq<Link>)
    ensures |r| == |HsvInputTypes(op)|
    ensures forall i :: 0 <= i < |r| ==> r[i].ty == HsvInputTypes(op)[i] && r[i].settings == DefaultSettings
    ensures forall i :: 0 <= i < |r| && i < |inputs| ==>
      r[i].nodeId == inputs[i].nodeId && r[i].lastDefault == inputs[i].lastDefault
    ensures forall i :: |inputs| <= i < |r| ==> r[i].nodeId == NoNodeId
  {
    Reshape(inputs, HsvInputTypes(op), DefaultSettings)
  }

  /** The converted colour: a vector for RGB to HSV, a colour otherwise. */
  function HsvResult(op: HsvOperation): ValueType {
    if op == RgbToHsv then Vector3 else Color
  }

  /** The operation's declared inputs, matched exactly, give its result type. */
  function HsvType(op: HsvOperation, t: seq<ValueType>): (r: ValueType)
    requires |t| >= |HsvInputTypes(op)|
    ensures r != Error <==> forall k :: 0 <= k < |HsvInputTypes(op)| ==> t[k] == HsvInputTypes(op)[k]
    ensures r != Error ==> r == HsvResult(op)
  {
    if op == HsvToRgb then (if t[0] == Vector3 then Color else Error)
    else if op == RgbToHsv then (if t[0] == Color then Vector3 else Error)
    else if InputSame([t[0], t[1], t[2]]) == Float then
      assert [t[0], t[1], t[2]][1] == t[1] && [t[0], t[1], t[2]][2] == t[2];
      Color
    else Error
  }

  // ----- Convert -----

  datatype ConvertOperation = Deg2Rad | Rad2Deg | One2Rad | Rad2One | One2Deg | Deg2One

  const ConvertOperations: seq<ConvertOperation> := [Deg2Rad, Rad2Deg, One2Rad, Rad2One, One2Deg, Deg2One]

  function ConvertOrdinal(op: ConvertOperation): (r: nat)
    ensures r < |ConvertOperations| && ConvertOperations[r] == op
  {
    match op
    case Deg2Rad => 0
    case Rad2Deg => 1
    case One2Rad => 2
    case Rad2One => 3
    case One2Deg => 4
    case Deg2One => 5
  }

  const ConvertInputs: seq<Link> := [Declared(AutoValue, DefaultSettings)]

  /** Any value type except `Int` passes through. */
  function ConvertType(t: seq<ValueType>): (r: ValueType)
    requires |t| >= 1
    ensures r != Error <==> IsValueExceptInt(t[0])
    ensures r != Error ==> r == t[0]
  {
    if Config(t[0]).isValueExceptInt then t[0] else Error
  }

  // ----- Swizzle -----

  const SwizzleInputs: seq<Link> := [Declared(AutoValue, NoDefaultsFlag)]

  /** `char.ToLower` on ASCII letters; other characters are kept (no other character
      lowers to a component letter). */
  function ToLowerAscii(c: char): char {
    if 'A' <= c <= 'Z' then (c as int + 32) as char else c
  }

  /** The component a mask letter names: x/r 0, y/g 1, z/b 2, w/a 3, anything else -1. */
  function ToComponent(c: char): (r: int)
    ensures -1 <= r <= 3
  {
    match c
    case 'x' => 0
    case 'r' => 0
    case 'y' => 1
    case 'g' => 1
    case 'z' => 2
    case 'b' => 2
    case 'w' => 3
    case 'a' => 3
    case _ => -1
  }

  predicate IsColorLetter(c: char) {
    c == 'r' || c == 'g' || c == 'b' || c == 'a'
  }

  const VectorLetters: string := "xyzw"
  const ColorLetters: string := "rgba"

  /** The letter for component `index` in the vector or the colour family. */
  function ComponentLetter(color: bool, index: nat): (c: char)
    requires index < 4
    ensures ToComponent(c) == index && IsColorLetter(c) == color
  {
    if color then ColorLetters[index] else VectorLetters[index]
  }

  /** One accepted letter of a mask: the letter written back and its component index. */
  datatype SwizzleComponent = SwizzleComponent(letter: char, index: nat)

  /** The letters of a mask that name a component, in order, lowered, clamped to `max`
      and written in their own family. */
  function ScanSwizzle(s: string, max: nat): (r: seq<SwizzleComponent>)
    requires max <= 3
    ensures |r| <= |s|
    ensures forall i :: 0 <= i < |r| ==> r[i].index <= max && ToComponent(r[i].letter) == r[i].index
    decreases |s|
  {
    if |s| == 0 then []
    else
      var c := ToLowerAscii(s[0]);
      var comp := ToComponent(c);
      var rest := ScanSwizzle(s[1..], max);
      if comp == -1 then rest
      else
        var index := if comp > max then max else comp;
        [SwizzleComponent(ComponentLetter(IsColorLetter(c), index), index)] + rest
  }

  function Letters(cs: seq<SwizzleComponent>): (r: string)
    ensures |r| == |cs| && forall i :: 0 <= i < |cs| ==> r[i] == cs[i].letter
  {
    seq(|cs|, i requires 0 <= i < |cs| => cs[i].letter)
  }

  function Indices(cs: seq<SwizzleComponent>): (r: seq<nat>)
    ensures |r| == |cs| && forall i :: 0 <= i < |cs| ==> r[i] == cs[i].index
  {
    seq(|cs|, i requires 0 <= i < |cs| => cs[i].index)
  }

  /** `ValidateSwizzle`: the mask normalised to at most four accepted letters (or "x" when
      it has none) and the component indices it selects, one per letter. */
  function ValidateSwizzle(s: string, max: nat): (r: (string, seq<nat>))
    requires max <= 3
    ensures 1 <= |r.1| <= 4 && |r.0| == |r.1|
    ensures forall i :: 0 <= i < |r.1| ==> r.1[i] <= max && ToComponent(r.0[i]) == r.1[i]
    ensures |ScanSwizzle(s, max)| == 0 ==> r == ("x", [0])
    ensures |ScanSwizzle(s, max)| > 0 ==>
      |r.1| == (if |ScanSwizzle(s, max)| < 4 then |ScanSwizzle(s, max)| else 4) &&
      forall i :: 0 <= i < |r.1| ==> r.0[i] == ScanSwizzle(s, max)[i].letter && r.1[i] == ScanSwizzle(s, max)[i].index
  {
    var scanned := ScanSwizzle(s, max);
    var kept := if |scanned| <= 4 then scanned else scanned[..4];
    if |kept| == 0 then ("x", [0])
    else (Letters(kept), Indices(kept))
  }

  /** A mask already made of lower-case component letters within `max` scans to itself. */
  lemma {:induction false} ScanCleanMask(s: string, max: nat)
    requires max <= 3
    requires forall i :: 0 <= i < |s| ==> 0 <= ToComponent(s[i]) <= max
    ensures |ScanSwizzle(s, max)| == |s|
    ensures forall i :: 0 <= i < |s| ==>
      ScanSwizzle(s, max)[i] == SwizzleComponent(s[i], ToComponent(s[i]) as nat)
    decreases |s|
  {
    if |s| > 0 {
      ScanCleanMask(s[1..], max);
      assert ToLowerAscii(s[0]) == s[0];
      assert ComponentLetter(IsColorLetter(s[0]), ToComponent(s[0]) as nat) == s[0];
    }
  }

  /** Normalising a normalised mask changes nothing. */
  lemma {:induction false} ValidateSwizzleIdempotent(s: string, max: nat)
    requires max <= 3
    ensures ValidateSwizzle(ValidateSwizzle(s, max).0, max) == ValidateSwizzle(s, max)
  {
    var (n, comps) := ValidateSwizzle(s, max);
    ScanCleanMask(n, max);
    var again := ValidateSwizzle(n, max);
    assert again.0 == n;
    assert again.1 == comps;
  }

  /** The number of colour letters in a mask (after lowering). */
  function ColorLetterCount(s: string): (n: nat)
    ensures n <= |s|
  {
    if |s| == 0 then 0
    else (if IsColorLetter(ToLowerAscii(s[0])) then 1 else 0) + ColorLetterCount(s[1..])
  }

  /** `IsColor(string)`: colour letters outnumber all other characters. */
  predicate IsColorMask(s: string) {
    ColorLetterCount(s) > |s| - ColorLetterCount(s)
  }

  /** `GetOutType`: the value type with `count` components; four colour letters make a colour. */
  function SwizzleOutType(count: nat, isColor: bool): (r: ValueType)
    requires 1 <= count <= 4
    ensures ComponentCount(r) == count && r != Int
    ensures r == Color <==> count == 4 && isColor
  {
    match count
    case 1 => Float
    case 2 => Vector2
    case 3 => Vector3
    case 4 => if isColor then Color else Vector4
  }

  /** `GetComponentsCount` minus one: the highest component index of a concrete value type. */
  function SwizzleMax(t: ValueType): (m: nat)
    requires IsValue(t) && IsConcrete(t)
    ensures m <= 3
    ensures t != Int ==> m + 1 == ComponentCount(t)
  {
    if t == Int then 0 else ComponentCount(t) - 1
  }

  /** The swizzle's rule: a value input gives the type with as many components as the
      normalised mask has letters, and the mask is stored back normalised; a non-value
      input is an `Error` and leaves the mask alone. The source has no component count for
      the generic tags, which no rule ever produces. */
  function SwizzleType(components: string, t: seq<ValueType>): (r: (ValueType, string))
    requires |t| >= 1 && IsConcrete(t[0])
    ensures !IsValue(t[0]) ==> r == (Error, components)
    ensures IsValue(t[0]) ==> r.1 == ValidateSwizzle(components, SwizzleMax(t[0])).0
    ensures IsValue(t[0]) ==> 1 <= |r.1| <= 4 && ComponentCount(r.0) == |r.1| && r.0 != Int
    ensures r.0 == Color <==> IsValue(t[0]) && |r.1| == 4 && IsColorMask(r.1)
  {
    if !Config(t[0]).isValue then (Error, components)
    else
      var (mask, comps) := ValidateSwizzle(components, SwizzleMax(t[0]));
      (SwizzleOutType(|comps|, IsColorMask(mask)), mask)
  }

  /** The swizzle's rule on the mask as the node stores it, which is `null` until the
      mask is first edited or loaded. A non-value input returns `Error` before the mask is
      read; on a value input `ValidateSwizzle` calls `ToLower` on the mask, which throws
      for `null`. */
  function SwizzleTypeAsWritten(components: Option<string>, t: seq<ValueType>): (r: Result<(ValueType, Option<string>)>)
    requires |t| >= 1 && IsConcrete(t[0])
    ensures r.Failure? <==> components.None? && IsValue(t[0])
    ensures !IsValue(t[0]) ==> r == Success((Error, components))
    ensures r.Success? && IsValue(t[0]) ==>
      var (ty, mask) := SwizzleType(components.value, t);
      r.value == (ty, Some(mask))
  {
    if !Config(t[0]).isValue then Success((Error, components))
    else match components
      case None => Failure("NullReferenceException")
      case Some(s) =>
        var (ty, mask) := SwizzleType(s, t);
        Success((ty, Some(mask)))
  }

  /** The swizzle's rule with an unset mask read as the empty one. It agrees with the
      rule as written wherever that does not throw, and types an unset mask on a value
      input as the single component `x`. */
  function SwizzleTypeOrEmpty(components: Option<string>, t: seq<ValueType>): (r: (ValueType, Option<string>))
    requires |t| >= 1 && IsConcrete(t[0])
    ensures SwizzleTypeAsWritten(components, t).Success? ==> r == SwizzleTypeAsWritten(components, t).value
    ensures components.None? && IsValue(t[0]) ==> r == (Float, Some("x"))
  {
    if !Config(t[0]).isValue then (Error, components)
    else
      var (ty, mask) := SwizzleType(components.GetOr(""), t);
      (ty, Some(mask))
  }

  /** A fresh swizzle node fed a `Vector3` before its mask is edited: the rule as written
      throws, the corrected one gives a `float` read from `x`. */
  lemma {:induction false} UnsetMaskThrows()
    ensures SwizzleTypeAsWritten(None, [Vector3]).Failure?
    ensures SwizzleTypeOrEmpty(None, [Vector3]) == (Float, Some("x"))
  {
  }

  /** Running the rule on the mask it stored gives the same type and mask again. */
  lemma {:induction false} SwizzleTypeStable(components: string, t: seq<ValueType>)
    requires |t| >= 1 && IsConcrete(t[0])
    ensures SwizzleType(SwizzleType(components, t).1, t) == SwizzleType(components, t)
  {
    if IsValue(t[0]) {
      ValidateSwizzleIdempotent(components, SwizzleMax(t[0]));
    }
  }
}
