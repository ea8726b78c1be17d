/** One public field of a node as the serialiser writes and reads it (`SerializeField`,
    `DeserializeField`): `int` and `float` as their printed text, an enum as its integer
    value, a bool as `t` or `f`, a string verbatim (not escaped), the vector and colour
    structs as their components joined by ',', and curves and gradients in their own
    record format. */
module FieldCodec {
  import opened Wrappers
  import opened Text
  import opened ValueTypes
  import opened CurveCodec
  import V = ValueNodes

  /** The declared type of a field, as far as the serialiser tells them apart. A vector
      struct is known by how many components it has. */
  datatype FieldType =
    | IntType | FloatType | EnumType | BoolType | StringType
    | VectorType(width: nat) | CurveType | GradientType

  /** A field's value. */
  datatype Field =
    | IntField(number: Int32)
    | FloatField(text: FloatText)
    | EnumField(ordinal: Int32)
    | BoolField(flag: bool)
    | StringField(chars: string)
    | VectorField(components: seq<FloatText>)
    | CurveField(curve: V.Curve)
    | GradientField(gradient: V.Gradient)

  function TypeOf(f: Field): FieldType {
    match f
    case IntField(_) => IntType
    case FloatField(_) => FloatType
    case EnumField(_) => EnumType
    case BoolField(_) => BoolType
    case StringField(_) => StringType
    case VectorField(cs) => VectorType(|cs|)
    case CurveField(_) => CurveType
    case GradientField(_) => GradientType
  }

  /** `SerializeField`. */
  function FieldText(f: Field): string {
    match f
    case IntField(n) => IntToString(n)
    case FloatField(x) => x
    case EnumField(n) => IntToString(n)
    case BoolField(b) => BoolToString(b)
    case StringField(s) => s
    case VectorField(cs) => Join(cs, ',')
    case CurveField(c) => CurveText(c)
    case GradientField(g) => GradientText(g)
  }

  /** `DeserializeField`: the text parsed as the field's declared type. A vector reads
      its components from the ','-separated items and ignores any further ones; too few
      is an index out of range. A bool is true exactly for the text `t`, and a string
      takes the text as it is. */
  function ReadField(t: FieldType, s: string): (r: Result<Field>)
    ensures r.Success? ==> TypeOf(r.value) == t
    ensures t == StringType ==> r == Success(StringField(s))
    ensures t == BoolType ==> r == Success(BoolField(s == "t"))
  {
    match t
    case IntType =>
      var n :- ReadInt(s);
      Success(IntField(n))
    case FloatType =>
      var x :- ReadFloat(s);
      Success(FloatField(x))
    case EnumType =>
      var n :- ReadInt(s);
      Success(EnumField(n))
    case BoolType => Success(BoolField(ParseBool(s)))
    case StringType => Success(StringField(s))
    case VectorType(w) =>
      var cs :- ReadComponents(w, s);
      Success(VectorField(cs))
    case CurveType =>
      var c :- ParseCurve(s);
      Success(CurveField(c))
    case GradientType =>
      var g :- ParseGradient(s);
      Success(GradientField(g))
  }

  /** `StringToVec2` and its siblings: the first `w` of the ','-separated items, each
      parsed as a float; too few items is an index out of range. */
  function ReadComponents(w: nat, s: string): (r: Result<seq<FloatText>>)
    ensures |Split(s, ',')| < w ==> r.Failure?
    ensures r.Success? ==> r.value == Split(s, ',')[..w]
  {
    var parts := Split(s, ',');
    if |parts| < w then Failure("index out of range")
    else
      match ParseFloats(parts[..w])
      case None => Failure("not a float")
      case Some(cs) => Success(cs)
  }

  /** The fields whose text reads back: a gradient needs a key of each kind. */
  predicate Restorable(f: Field) {
    f.GradientField? ==> |f.gradient.colorKeys| > 0 && |f.gradient.alphaKeys| > 0
  }

  /** Every restorable field reads back as itself from its text. */
  lemma {:induction false} FieldRoundTrip(f: Field)
    requires Restorable(f)
    ensures ReadField(TypeOf(f), FieldText(f)) == Success(f)
  {
    match f
    case IntField(n) => IntRoundTrip(n);
    case EnumField(n) => IntRoundTrip(n);
    case BoolField(b) => BoolRoundTrip(b);
    case VectorField(cs) =>
      forall i | 0 <= i < |cs| ensures ',' !in cs[i] {
        assert IsFloatText(cs[i]);
      }
      if |cs| == 0 {
        assert Split("", ',') == [""];
      } else {
        SplitJoin(cs, ',');
        assert Split(FieldText(f), ',')[..|cs|] == cs;
      }
    case CurveField(c) => CurveRoundTrip(c);
    case GradientField(g) => GradientRoundTrip(g);
    case _ =>
  }

  /** A field's text holds the record separator '#' or the field separator '|' only if
      it is a string that holds it. */
  lemma {:induction false} FieldTextAvoids(f: Field, x: char)
    requires x == '#' || x == '|'
    requires f.StringField? ==> x !in f.chars
    ensures x !in FieldText(f)
  {
    match f
    case IntField(n) => assert IsFloatText(IntToString(n));
    case EnumField(n) => assert IsFloatText(IntToString(n));
    case FloatField(s) => assert IsFloatText(s);
    case VectorField(cs) =>
      forall i | 0 <= i < |cs| ensures x !in cs[i] {
        assert IsFloatText(cs[i]);
      }
      JoinAvoids(cs, ',', x);
    case CurveField(c) => CurveTextAvoids(c, x);
    case GradientField(g) => GradientTextAvoids(g, x);
    case _ =>
  }

  /** Strings are written unescaped: a string holding '|' is followed in the record by
      the next field, so it cannot be told apart from two fields. */
  lemma {:induction false} UnescapedStringSplits()
    ensures Split(FieldText(StringField("a|b")), '|') == ["a", "b"]
  {
    assert FieldText(StringField("a|b")) == "a" + "|" + "b";
    SplitFirst("a", '|', "b");
    SplitNoSeparator("b", '|');
  }

  // ----- value fields -----

  /** The field that holds a value node's `Value`. */
  function ValueField(v: Value): (f: Field)
    ensures Restorable(f) && !f.StringField?
  {
    match v
    case BoolValue(b) => BoolField(b)
    case IntValue(n) => IntField(n)
    case FloatValue(x) => FloatField(x)
    case _ => VectorField(FloatComponents(v))
  }

  /** The declared type of the `Value` field of the value class for tag `t`. */
  function ValueFieldType(t: ValueType): FieldType
    requires IsPayloadType(t)
  {
    if t == Bool then BoolType
    else if t == Int then IntType
    else if t == Float then FloatType
    else VectorType(ComponentCount(t))
  }

  /** The value a `Value` field of tag `t` holds; a field of another type holds none. */
  function FieldValue(t: ValueType, f: Field): (r: Option<Value>)
    requires IsPayloadType(t)
    ensures r.Some? ==> TypeOfValue(r.value) == t
    ensures TypeOf(f) == ValueFieldType(t) ==> r.Some?
  {
    if t == Bool then (if f.BoolField? then Some(BoolValue(f.flag)) else None)
    else if t == Int then (if f.IntField? then Some(IntValue(f.number)) else None)
    else if t == Float then (if f.FloatField? then Some(FloatValue(f.text)) else None)
    else if f.VectorField? && |f.components| == ComponentCount(t) then Some(FromComponents(t, f.components))
    else None
  }

  /** A value's field has its tag's field type and gives the value back. */
  lemma {:induction false} ValueFieldRoundTrip(v: Value)
    ensures TypeOf(ValueField(v)) == ValueFieldType(TypeOfValue(v))
    ensures FieldValue(TypeOfValue(v), ValueField(v)) == Some(v)
  {
  }
}
