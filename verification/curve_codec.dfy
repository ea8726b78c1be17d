/** The text of an animation curve and of a gradient field (`CurveToString`,
    `StringToCurve`, `GradientToString`, `StringToGradient`). A curve is its two wrap
    modes and its keys separated by ';', each key's five numbers separated by ','. A
    gradient is its mode, its colour keys and its alpha keys separated by ';', the keys of
    each list separated by ':' and each key's numbers by ','. */
module CurveCodec {
  import opened Wrappers
  import opened Text
  import V = ValueNodes

  /** `int.Parse` as a result: unparsable text is the exception the source throws. */
  function ReadInt(s: string): (r: Result<Int32>)
    ensures r.Success? <==> ParseInt(s).Some?
    ensures r.Success? ==> r.value == ParseInt(s).value
  {
    match ParseInt(s)
    case None => Failure("not an int")
    case Some(n) => Success(n)
  }

  /** `float.Parse` as a result. */
  function ReadFloat(s: string): (r: Result<FloatText>)
    ensures r.Success? <==> IsFloatText(s)
    ensures r.Success? ==> r.value == s
  {
    match ParseFloat(s)
    case None => Failure("not a float")
    case Some(x) => Success(x)
  }

  // ----- animation curves -----

  /** One key: time, value, in- and out-tangent, then the tangent mode. */
  function KeyframeText(k: V.Keyframe): string {
    Join([k.time, k.value, k.inTangent, k.outTangent, IntToString(k.tangentMode)], ',')
  }

  function KeyframeTexts(keys: seq<V.Keyframe>): (r: seq<string>)
    ensures |r| == |keys|
  {
    seq(|keys|, i requires 0 <= i < |keys| => KeyframeText(keys[i]))
  }

  /** `CurveToString`. */
  function CurveText(c: V.Curve): string {
    Join([IntToString(c.preWrapMode), IntToString(c.postWrapMode)] + KeyframeTexts(c.keys), ';')
  }

  /** One key read back from its ','-separated numbers; fewer than five is an index out
      of range, and items past the fifth are ignored. */
  function ParseKeyframe(s: string): (r: Result<V.Keyframe>)
    ensures |Split(s, ',')| < 5 ==> r.Failure?
  {
    var vals := Split(s, ',');
    if |vals| < 5 then Failure("index out of range")
    else
      var time :- ReadFloat(vals[0]);
      var value :- ReadFloat(vals[1]);
      var inTangent :- ReadFloat(vals[2]);
      var outTangent :- ReadFloat(vals[3]);
      var mode :- ReadInt(vals[4]);
      Success(V.Keyframe(time, value, inTangent, outTangent, mode))
  }

  /** Every item read as a key, in order; the first that fails fails the whole. */
  function ParseKeyframes(items: seq<string>): (r: Result<seq<V.Keyframe>>)
    ensures r.Success? ==> |r.value| == |items|
    decreases |items|
  {
    if |items| == 0 then Success([])
    else
      var k :- ParseKeyframe(items[0]);
      var rest :- ParseKeyframes(items[1..]);
      Success([k] + rest)
  }

  /** `StringToCurve`: text without a ';' is a fresh `AnimationCurve` with no keys;
      otherwise the two wrap modes and then one key per further item. */
  function ParseCurve(s: string): (r: Result<V.Curve>)
    ensures |Split(s, ';')| < 2 ==> r == Success(V.EmptyCurve)
    ensures r.Success? && |Split(s, ';')| >= 2 ==> |r.value.keys| == |Split(s, ';')| - 2
  {
    var lines := Split(s, ';');
    if |lines| < 2 then Success(V.EmptyCurve)
    else
      var pre :- ReadInt(lines[0]);
      var post :- ReadInt(lines[1]);
      var keys :- ParseKeyframes(lines[2..]);
      Success(V.Curve(pre, post, keys))
  }

  lemma {:induction false} KeyframeRoundTrip(k: V.Keyframe)
    ensures ParseKeyframe(KeyframeText(k)) == Success(k)
  {
    var parts: seq<string> := [k.time, k.value, k.inTangent, k.outTangent, IntToString(k.tangentMode)];
    forall i | 0 <= i < |parts| ensures ',' !in parts[i] {
      assert IsFloatText(parts[i]);
    }
    SplitJoin(parts, ',');
    IntRoundTrip(k.tangentMode);
  }

  lemma {:induction false} KeyframesRoundTrip(keys: seq<V.Keyframe>)
    ensures ParseKeyframes(KeyframeTexts(keys)) == Success(keys)
    decreases |keys|
  {
    if |keys| > 0 {
      KeyframeRoundTrip(keys[0]);
      assert KeyframeTexts(keys)[1..] == KeyframeTexts(keys[1..]);
      KeyframesRoundTrip(keys[1..]);
      assert [keys[0]] + keys[1..] == keys;
    }
  }

  /** No key text holds a character that separates keys, gradient lists or fields. */
  lemma {:induction false} KeyframeTextAvoids(k: V.Keyframe, c: char)
    requires IsSeparator(c) && c != ','
    ensures c !in KeyframeText(k)
  {
    var parts: seq<string> := [k.time, k.value, k.inTangent, k.outTangent, IntToString(k.tangentMode)];
    forall i | 0 <= i < |parts| ensures c !in parts[i] {
      assert IsFloatText(parts[i]);
    }
    JoinAvoids(parts, ',', c);
  }

  /** A curve's text is free of every separator but the two it uses itself. */
  lemma {:induction false} CurveTextAvoids(c: V.Curve, x: char)
    requires IsSeparator(x) && x != ',' && x != ';'
    ensures x !in CurveText(c)
  {
    var parts := [IntToString(c.preWrapMode), IntToString(c.postWrapMode)] + KeyframeTexts(c.keys);
    forall i | 0 <= i < |parts| ensures x !in parts[i] {
      if i >= 2 {
        KeyframeTextAvoids(c.keys[i - 2], x);
      }
    }
    JoinAvoids(parts, ';', x);
  }

  /** Every curve reads back as itself. */
  lemma {:induction false} CurveRoundTrip(c: V.Curve)
    ensures ParseCurve(CurveText(c)) == Success(c)
  {
    var parts := [IntToString(c.preWrapMode), IntToString(c.postWrapMode)] + KeyframeTexts(c.keys);
    forall i | 0 <= i < |parts| ensures ';' !in parts[i] {
      if i >= 2 {
        KeyframeTextAvoids(c.keys[i - 2], ';');
      }
    }
    SplitJoin(parts, ';');
    IntRoundTrip(c.preWrapMode);
    IntRoundTrip(c.postWrapMode);
    assert parts[2..] == KeyframeTexts(c.keys);
    KeyframesRoundTrip(c.keys);
  }

  // ----- gradients -----

  function ColorKeyText(k: V.ColorKey): string {
    Join([k.time, k.r, k.g, k.b, k.a], ',')
  }

  function AlphaKeyText(k: V.AlphaKey): string {
    Join([k.time, k.alpha], ',')
  }

  function ColorKeyTexts(keys: seq<V.ColorKey>): (r: seq<string>)
    ensures |r| == |keys|
  {
    seq(|keys|, i requires 0 <= i < |keys| => ColorKeyText(keys[i]))
  }

  function AlphaKeyTexts(keys: seq<V.AlphaKey>): (r: seq<string>)
    ensures |r| == |keys|
  {
    seq(|keys|, i requires 0 <= i < |keys| => AlphaKeyText(keys[i]))
  }

  /** `GradientToString`. */
  function GradientText(g: V.Gradient): string {
    Join([IntToString(g.mode), Join(ColorKeyTexts(g.colorKeys), ':'), Join(AlphaKeyTexts(g.alphaKeys), ':')], ';')
  }

  /** A colour key from time and the four channels; fewer than five items is an index
      out of range. */
  function ParseColorKey(s: string): (r: Result<V.ColorKey>)
    ensures |Split(s, ',')| < 5 ==> r.Failure?
  {
    var vals := Split(s, ',');
    if |vals| < 5 then Failure("index out of range")
    else
      var time :- ReadFloat(vals[0]);
      var red :- ReadFloat(vals[1]);
      var green :- ReadFloat(vals[2]);
      var blue :- ReadFloat(vals[3]);
      var alpha :- ReadFloat(vals[4]);
      Success(V.ColorKey(time, red, green, blue, alpha))
  }

  /** An alpha key from time and alpha. */
  function ParseAlphaKey(s: string): (r: Result<V.AlphaKey>)
    ensures |Split(s, ',')| < 2 ==> r.Failure?
  {
    var vals := Split(s, ',');
    if |vals| < 2 then Failure("index out of range")
    else
      var time :- ReadFloat(vals[0]);
      var alpha :- ReadFloat(vals[1]);
      Success(V.AlphaKey(time, alpha))
  }

  function ParseColorKeys(items: seq<string>): (r: Result<seq<V.ColorKey>>)
    ensures r.Success? ==> |r.value| == |items|
    decreases |items|
  {
    if |items| == 0 then Success([])
    else
      var k :- ParseColorKey(items[0]);
      var rest :- ParseColorKeys(items[1..]);
      Success([k] + rest)
  }

  function ParseAlphaKeys(items: seq<string>): (r: Result<seq<V.AlphaKey>>)
    ensures r.Success? ==> |r.value| == |items|
    decreases |items|
  {
    if |items| == 0 then Success([])
    else
      var k :- ParseAlphaKey(items[0]);
      var rest :- ParseAlphaKeys(items[1..]);
      Success([k] + rest)
  }

  /** `StringToGradient`: text without a ';' is a fresh `Gradient`; otherwise the mode,
      the colour keys from the second item and the alpha keys from the third, whose
      absence is an index out of range. Splitting an empty key list at ':' still gives one
      (empty) item, so a list with no keys does not read back. */
  function ParseGradient(s: string): (r: Result<V.Gradient>)
    ensures |Split(s, ';')| < 2 ==> r == Success(V.DefaultGradient)
    ensures r.Success? && |Split(s, ';')| >= 2 ==> |r.value.colorKeys| > 0 && |r.value.alphaKeys| > 0
  {
    var lines := Split(s, ';');
    if |lines| < 2 then Success(V.DefaultGradient)
    else
      var mode :- ReadInt(lines[0]);
      var colorKeys :- ParseColorKeys(Split(lines[1], ':'));
      if |lines| < 3 then Failure("index out of range")
      else
        var alphaKeys :- ParseAlphaKeys(Split(lines[2], ':'));
        Success(V.Gradient(mode, colorKeys, alphaKeys))
  }

  lemma {:induction false} ColorKeysRoundTrip(keys: seq<V.ColorKey>)
    ensures ParseColorKeys(ColorKeyTexts(keys)) == Success(keys)
    decreases |keys|
  {
    if |keys| > 0 {
      var k := keys[0];
      var parts: seq<string> := [k.time, k.r, k.g, k.b, k.a];
      forall i | 0 <= i < |parts| ensures ',' !in parts[i] {
        assert IsFloatText(parts[i]);
      }
      SplitJoin(parts, ',');
      assert ColorKeyTexts(keys)[1..] == ColorKeyTexts(keys[1..]);
      ColorKeysRoundTrip(keys[1..]);
      assert [keys[0]] + keys[1..] == keys;
    }
  }

  lemma {:induction false} AlphaKeysRoundTrip(keys: seq<V.AlphaKey>)
    ensures ParseAlphaKeys(AlphaKeyTexts(keys)) == Success(keys)
    decreases |keys|
  {
    if |keys| > 0 {
      var k := keys[0];
      var parts: seq<string> := [k.time, k.alpha];
      forall i | 0 <= i < |parts| ensures ',' !in parts[i] {
        assert IsFloatText(parts[i]);
      }
      SplitJoin(parts, ',');
      assert AlphaKeyTexts(keys)[1..] == AlphaKeyTexts(keys[1..]);
      AlphaKeysRoundTrip(keys[1..]);
      assert [keys[0]] + keys[1..] == keys;
    }
  }

  /** The key lists of a gradient avoid every separator except ',' and ':'. */
  lemma {:induction false} KeyListsAvoid(g: V.Gradient, x: char)
    requires IsSeparator(x) && x != ',' && x != ':'
    ensures x !in Join(ColorKeyTexts(g.colorKeys), ':')
    ensures x !in Join(AlphaKeyTexts(g.alphaKeys), ':')
  {
    var cs := ColorKeyTexts(g.colorKeys);
    forall i | 0 <= i < |cs| ensures x !in cs[i] {
      var k := g.colorKeys[i];
      var parts: seq<string> := [k.time, k.r, k.g, k.b, k.a];
      forall j | 0 <= j < |parts| ensures x !in parts[j] {
        assert IsFloatText(parts[j]);
      }
      JoinAvoids(parts, ',', x);
    }
    JoinAvoids(cs, ':', x);
    var alphas := AlphaKeyTexts(g.alphaKeys);
    forall i | 0 <= i < |alphas| ensures x !in alphas[i] {
      var k := g.alphaKeys[i];
      var parts: seq<string> := [k.time, k.alpha];
      forall j | 0 <= j < |parts| ensures x !in parts[j] {
        assert IsFloatText(parts[j]);
      }
      JoinAvoids(parts, ',', x);
    }
    JoinAvoids(alphas, ':', x);
  }

  /** A gradient's text is free of '#' and '|', the record and field separators. */
  lemma {:induction false} GradientTextAvoids(g: V.Gradient, x: char)
    requires IsSeparator(x) && x != ',' && x != ':' && x != ';'
    ensures x !in GradientText(g)
  {
    KeyListsAvoid(g, x);
    var parts := [IntToString(g.mode), Join(ColorKeyTexts(g.colorKeys), ':'), Join(AlphaKeyTexts(g.alphaKeys), ':')];
    assert IsFloatText(parts[0]);
    JoinAvoids(parts, ';', x);
  }

  /** A gradient with at least one key of each kind reads back as itself. */
  lemma {:induction false} GradientRoundTrip(g: V.Gradient)
    requires |g.colorKeys| > 0 && |g.alphaKeys| > 0
    ensures ParseGradient(GradientText(g)) == Success(g)
  {
    hide TrimStart, TrimEnd, ParseSigned;
    KeyListsAvoid(g, ';');
    var parts := [IntToString(g.mode), Join(ColorKeyTexts(g.colorKeys), ':'), Join(AlphaKeyTexts(g.alphaKeys), ':')];
    assert IsFloatText(parts[0]);
    SplitJoin(parts, ';');
    IntRoundTrip(g.mode);
    var cs := ColorKeyTexts(g.colorKeys);
    forall i | 0 <= i < |cs| ensures ':' !in cs[i] {
      var k := g.colorKeys[i];
      var ps: seq<string> := [k.time, k.r, k.g, k.b, k.a];
      forall j | 0 <= j < |ps| ensures ':' !in ps[j] {
        assert IsFloatText(ps[j]);
      }
      JoinAvoids(ps, ',', ':');
    }
    SplitJoin(cs, ':');
    ColorKeysRoundTrip(g.colorKeys);
    var alphas := AlphaKeyTexts(g.alphaKeys);
    forall i | 0 <= i < |alphas| ensures ':' !in alphas[i] {
      var k := g.alphaKeys[i];
      var ps: seq<string> := [k.time, k.alpha];
      forall j | 0 <= j < |ps| ensures ':' !in ps[j] {
        assert IsFloatText(ps[j]);
      }
      JoinAvoids(ps, ',', ':');
    }
    SplitJoin(alphas, ':');
    AlphaKeysRoundTrip(g.alphaKeys);
  }

  /** The gradient with no colour keys does not read back: its empty key list is split
      into one empty item, which is not a key. */
  lemma {:induction false} KeylessGradientFails(mode: Int32, alphaKeys: seq<V.AlphaKey>)
    ensures ParseGradient(GradientText(V.Gradient(mode, [], alphaKeys))).Failure?
  {
    var g := V.Gradient(mode, [], alphaKeys);
    KeyListsAvoid(g, ';');
    var parts := [IntToString(mode), "", Join(AlphaKeyTexts(alphaKeys), ':')];
    assert Join(ColorKeyTexts(g.colorKeys), ':') == "";
    assert IsFloatText(parts[0]);
    SplitJoin(parts, ';');
    IntRoundTrip(mode);
    assert Split("", ':') == [""];
    assert Split("", ',') == [""];
  }
}
