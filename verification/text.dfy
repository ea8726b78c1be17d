/** The text primitives the serialiser is built from: `string.Split` and its inverse,
    decimal `int.ToString` / `int.Parse`, and the one-letter boolean tokens. */
module Text {
  import opened Wrappers

  const MinInt32: int := -0x8000_0000
  const MaxInt32: int := 0x7fff_ffff

  /** A C# `int`. */
  type Int32 = x: int | MinInt32 <= x <= MaxInt32

  /** Characters that separate records, fields, list items, vector components or
      curve keys somewhere in the serialised text. */
  predicate IsSeparator(c: char) {
    c == '#' || c == '|' || c == ' ' || c == ',' || c == ';' || c == ':'
  }

  predicate NoSeparators(s: string) {
    forall i :: 0 <= i < |s| ==> !IsSeparator(s[i])
  }

  /** The printed form of a float value: non-empty and free of every separator.
      Float values are carried through the model as this text. */
  predicate IsFloatText(s: string) {
    |s| > 0 && NoSeparators(s)
  }

  type FloatText = s: string | IsFloatText(s) witness "0"

  /** The text of C#'s `0f`, the value of a float field nobody has set. */
  const ZeroFloat: FloatText := "0"

  // ----- string.Split and its inverse -----

  /** The parts with `sep` between consecutive parts (`string.Join`). */
  function Join(parts: seq<string>, sep: char): (r: string)
    ensures |parts| == 0 ==> r == ""
    ensures |parts| > 0 ==> parts[0] <= r
  {
    if |parts| == 0 then ""
    else if |parts| == 1 then parts[0]
    else parts[0] + [sep] + Join(parts[1..], sep)
  }

  /** `s.Split(sep)`: the pieces between occurrences of `sep`, so that k occurrences
      give k + 1 pieces, and joining the pieces back gives `s`. */
  function Split(s: string, sep: char): (r: seq<string>)
    ensures |r| > 0
    ensures forall i :: 0 <= i < |r| ==> sep !in r[i]
    ensures Join(r, sep) == s
    decreases |s|
  {
    if |s| == 0 then [""]
    else
      var rest := Split(s[1..], sep);
      if s[0] == sep then
        assert ([""] + rest)[1..] == rest;
        [""] + rest
      else
        var r := [[s[0]] + rest[0]] + rest[1..];
        assert r[1..] == rest[1..];
        assert s == [s[0]] + s[1..];
        r
  }

  lemma {:induction false} SplitNoSeparator(p: string, sep: char)
    requires sep !in p
    ensures Split(p, sep) == [p]
    decreases |p|
  {
    if |p| > 0 {
      SplitNoSeparator(p[1..], sep);
      assert [p[0]] + p[1..] == p;
    }
  }

  lemma {:induction false} SplitFirst(p: string, sep: char, t: string)
    requires sep !in p
    ensures Split(p + [sep] + t, sep) == [p] + Split(t, sep)
    decreases |p|
  {
    var s := p + [sep] + t;
    if |p| == 0 {
      assert s[1..] == t;
    } else {
      assert s[1..] == p[1..] + [sep] + t;
      SplitFirst(p[1..], sep, t);
      assert [p[0]] + p[1..] == p;
    }
  }

  /** Splitting undoes joining whenever no part contains the separator. */
  lemma {:induction false} SplitJoin(parts: seq<string>, sep: char)
    requires |parts| > 0
    requires forall i :: 0 <= i < |parts| ==> sep !in parts[i]
    ensures Split(Join(parts, sep), sep) == parts
    decreases |parts|
  {
    if |parts| == 1 {
      SplitNoSeparator(parts[0], sep);
    } else {
      SplitFirst(parts[0], sep, Join(parts[1..], sep));
      SplitJoin(parts[1..], sep);
      assert [parts[0]] + parts[1..] == parts;
    }
  }

  /** Splitting a join whose leading parts avoid the separator gives those parts back,
      followed by the pieces of the last part. */
  lemma {:induction false} SplitJoinLast(parts: seq<string>, last: string, sep: char)
    requires forall i :: 0 <= i < |parts| ==> sep !in parts[i]
    ensures Split(Join(parts + [last], sep), sep) == parts + Split(last, sep)
    decreases |parts|
  {
    hide Split;
    var all := parts + [last];
    if |parts| == 0 {
      assert all == [last];
    } else {
      assert all[0] == parts[0] && all[1..] == parts[1..] + [last];
      assert Join(all, sep) == parts[0] + [sep] + Join(parts[1..] + [last], sep);
      SplitFirst(parts[0], sep, Join(parts[1..] + [last], sep));
      SplitJoinLast(parts[1..], last, sep);
      assert [parts[0]] + (parts[1..] + Split(last, sep)) == parts + Split(last, sep);
    }
  }

  /** Joining parts that avoid `c` with a separator other than `c` avoids `c`. */
  lemma {:induction false} JoinAvoids(parts: seq<string>, sep: char, c: char)
    requires c != sep
    requires forall i :: 0 <= i < |parts| ==> c !in parts[i]
    ensures c !in Join(parts, sep)
    decreases |parts|
  {
    if |parts| > 1 {
      JoinAvoids(parts[1..], sep, c);
    }
  }

  // ----- int.ToString and int.Parse -----

  predicate IsDigit(c: char) {
    '0' <= c <= '9'
  }

  predicate AllDigits(s: string) {
    forall i :: 0 <= i < |s| ==> IsDigit(s[i])
  }

  function DigitChar(d: nat): (c: char)
    requires d < 10
    ensures IsDigit(c)
  {
    (d + '0' as int) as char
  }

  /** Decimal digits of `n`, most significant first, without leading zeros. */
  function NatToString(n: nat): (r: string)
    ensures |r| > 0 && AllDigits(r)
    decreases n
  {
    if n < 10 then [DigitChar(n)] else NatToString(n / 10) + [DigitChar(n % 10)]
  }

  /** The number a string of decimal digits denotes (most significant first). */
  function DigitsValue(s: string): nat
    requires AllDigits(s)
    decreases |s|
  {
    if |s| == 0 then 0
    else DigitsValue(s[..|s| - 1]) * 10 + (s[|s| - 1] as int - '0' as int)
  }

  lemma {:induction false} DigitsOfNat(n: nat)
    ensures DigitsValue(NatToString(n)) == n
    decreases n
  {
    if n >= 10 {
      var s := NatToString(n);
      assert s[..|s| - 1] == NatToString(n / 10);
      DigitsOfNat(n / 10);
    }
  }

  /** `int.ToString()`: a minus sign for negative numbers, then the decimal digits. */
  function IntToString(n: int): (r: string)
    ensures IsFloatText(r)
    ensures r[0] == '-' <==> n < 0
    ensures n >= 0 ==> AllDigits(r)
  {
    if n < 0 then "-" + NatToString(-n) else NatToString(n)
  }

  /** The white space `int.Parse` skips around the number: tab, line feed, vertical
      tab, form feed, carriage return and space. */
  predicate IsWhite(c: char) {
    c == ' ' || '\t' <= c <= '\r'
  }

  predicate AllWhite(s: string) {
    forall i :: 0 <= i < |s| ==> IsWhite(s[i])
  }

  /** The characters an integer's text may hold at all: white space, a sign, digits. */
  predicate IsIntegerChar(c: char) {
    IsWhite(c) || IsDigit(c) || c == '-' || c == '+'
  }

  predicate AllIntegerChars(s: string) {
    forall i :: 0 <= i < |s| ==> IsIntegerChar(s[i])
  }

  /** `s` without its leading white space: a suffix of `s`. */
  function TrimStart(s: string): string
    decreases |s|
  {
    if |s| > 0 && IsWhite(s[0]) then TrimStart(s[1..]) else s
  }

  lemma {:induction false} TrimStartShape(s: string)
    ensures var r := TrimStart(s);
      |r| <= |s| && r == s[|s| - |r|..] && AllWhite(s[..|s| - |r|]) && (r == [] || !IsWhite(r[0]))
    decreases |s|
  {
    if |s| > 0 && IsWhite(s[0]) {
      TrimStartShape(s[1..]);
      var r := TrimStart(s);
      assert s[1..][..|s| - 1 - |r|] == s[1..|s| - |r|];
      assert forall i :: 1 <= i < |s| - |r| ==> s[i] == s[1..|s| - |r|][i - 1];
    }
  }

  /** `s` without its trailing white space: a prefix of `s`. */
  function TrimEnd(s: string): string
    decreases |s|
  {
    if |s| > 0 && IsWhite(s[|s| - 1]) then TrimEnd(s[..|s| - 1]) else s
  }

  lemma {:induction false} TrimEndShape(s: string)
    ensures var r := TrimEnd(s);
      |r| <= |s| && r == s[..|r|] && AllWhite(s[|r|..]) && (r == [] || !IsWhite(r[|r| - 1]))
    decreases |s|
  {
    if |s| > 0 && IsWhite(s[|s| - 1]) {
      TrimEndShape(s[..|s| - 1]);
      var r := TrimEnd(s);
      assert forall i :: |r| <= i < |s| - 1 ==> s[i] == s[..|s| - 1][i];
      assert forall i :: 0 <= i < |s| - |r| ==> s[|r|..][i] == s[|r| + i];
    }
  }

  /** A sign and at least one digit whose value fits an `int`. */
  function ParseSigned(s: string): (r: Option<Int32>)
    ensures r.Some? ==> AllIntegerChars(s)
  {
    if |s| > 0 && s[0] == '-' then
      var digits := s[1..];
      if |digits| > 0 && AllDigits(digits) && DigitsValue(digits) <= -MinInt32
      then Some(0 - DigitsValue(digits))
      else None
    else if |s| > 0 && s[0] == '+' then
      var digits := s[1..];
      if |digits| > 0 && AllDigits(digits) && DigitsValue(digits) <= MaxInt32
      then Some(DigitsValue(digits))
      else None
    else if |s| > 0 && AllDigits(s) && DigitsValue(s) <= MaxInt32 then Some(DigitsValue(s))
    else None
  }

  /** `int.Parse` with its default `NumberStyles.Integer`: optional white space, an
      optional `+` or `-`, at least one digit whose value fits an `int`, optional white
      space; any other text makes the parse throw, which is `None` here. */
  function ParseInt(s: string): (r: Option<Int32>)
    ensures r.Some? ==> AllIntegerChars(s)
    ensures |s| > 0 && AllDigits(s) && DigitsValue(s) <= MaxInt32 ==> r == Some(DigitsValue(s))
    ensures |s| > 1 && s[0] == '+' && AllDigits(s[1..]) && DigitsValue(s[1..]) <= MaxInt32 ==>
      r == Some(DigitsValue(s[1..]))
  {
    TrimUntouched(s);
    var r := ParseSigned(TrimEnd(TrimStart(s)));
    if r.Some? then TrimmedChars(s); r else r
  }

  /** Text that neither starts nor ends with white space trims to itself. */
  lemma {:induction false} TrimUntouched(s: string)
    ensures |s| > 0 && !IsWhite(s[0]) && !IsWhite(s[|s| - 1]) ==> TrimEnd(TrimStart(s)) == s
  {
  }

  /** Text whose trimmed core holds only integer characters holds only those. */
  lemma {:induction false} TrimmedChars(s: string)
    requires AllIntegerChars(TrimEnd(TrimStart(s)))
    ensures AllIntegerChars(s)
  {
    var t := TrimStart(s);
    var u := TrimEnd(t);
    TrimStartShape(s);
    TrimEndShape(t);
    forall i | 0 <= i < |s| ensures IsIntegerChar(s[i]) {
      if i < |s| - |t| {
        assert s[..|s| - |t|][i] == s[i];
        assert IsWhite(s[..|s| - |t|][i]);
      } else {
        var k := i - (|s| - |t|);
        assert t[k] == s[i];
        if k < |u| {
          assert u[k] == t[k];
          assert IsIntegerChar(u[k]);
        } else {
          assert t[|u|..][k - |u|] == t[k];
          assert IsWhite(t[|u|..][k - |u|]);
        }
      }
    }
  }

  /** A whole string of white space trims to nothing. */
  lemma {:induction false} TrimStartWhite(w: string, x: string)
    requires AllWhite(w)
    ensures TrimStart(w + x) == TrimStart(x)
    decreases |w|
  {
    if |w| > 0 {
      assert (w + x)[0] == w[0];
      assert (w + x)[1..] == w[1..] + x;
      TrimStartWhite(w[1..], x);
    } else {
      assert w + x == x;
    }
  }

  lemma {:induction false} TrimEndWhite(x: string, w: string)
    requires AllWhite(w)
    ensures TrimEnd(x + w) == TrimEnd(x)
    decreases |w|
  {
    if |w| > 0 {
      assert (x + w)[|x + w| - 1] == w[|w| - 1];
      assert (x + w)[..|x + w| - 1] == x + w[..|w| - 1];
      TrimEndWhite(x, w[..|w| - 1]);
    } else {
      assert x + w == x;
    }
  }

  /** Trimming the front of `s + t` reaches into `t` only when `s` is all white space. */
  lemma {:induction false} TrimStartAppend(s: string, t: string)
    ensures TrimStart(s + t) == if AllWhite(s) then TrimStart(t) else TrimStart(s) + t
    decreases |s|
  {
    if AllWhite(s) {
      TrimStartWhite(s, t);
    } else {
      assert |s| > 0;
      if IsWhite(s[0]) {
        assert (s + t)[1..] == s[1..] + t;
        assert !AllWhite(s[1..]) by {
          var i :| 0 <= i < |s| && !IsWhite(s[i]);
          assert s[1..][i - 1] == s[i];
        }
        TrimStartAppend(s[1..], t);
      }
    }
  }

  /** White space before and after a number does not change what `int.Parse` reads. */
  lemma {:induction false} ParseIntPadded(w1: string, s: string, w2: string)
    requires AllWhite(w1) && AllWhite(w2)
    ensures ParseInt(w1 + s + w2) == ParseInt(s)
  {
    hide ParseSigned;
    assert w1 + s + w2 == w1 + (s + w2);
    TrimStartWhite(w1, s + w2);
    TrimStartAppend(s, w2);
    if AllWhite(s) {
      TrimStartWhite(w2, []);
      TrimStartWhite(s, []);
      assert w2 + [] == w2 && s + [] == s;
    } else {
      TrimEndWhite(TrimStart(s), w2);
    }
  }

  /** Every `int` reads back as itself from its printed form. */
  lemma {:induction false} IntRoundTrip(n: Int32)
    ensures ParseInt(IntToString(n)) == Some(n)
  {
    var s := IntToString(n);
    assert TrimEnd(TrimStart(s)) == s;
    if n < 0 {
      var m: nat := -(n as int);
      assert s[1..] == NatToString(m);
      DigitsOfNat(m);
    } else {
      DigitsOfNat(n);
    }
  }

  /** Different numbers print differently. */
  lemma {:induction false} IntToStringInjective(a: Int32, b: Int32)
    requires IntToString(a) == IntToString(b)
    ensures a == b
  {
    IntRoundTrip(a);
    IntRoundTrip(b);
  }

  // ----- floats -----

  /** `float.Parse` on the printed text of a float: the text is the value, so what
      `ToString` printed reads back as itself; text with a separator, or none at all,
      makes the parse throw. */
  function ParseFloat(s: string): (r: Option<FloatText>)
    ensures r.Some? <==> IsFloatText(s)
    ensures r.Some? ==> r.value == s
  {
    if IsFloatText(s) then Some(s) else None
  }

  /** `float.Parse` on each item; `None` if any item fails. */
  function ParseFloats(items: seq<string>): (r: Option<seq<FloatText>>)
    ensures r.Some? <==> forall i :: 0 <= i < |items| ==> IsFloatText(items[i])
    ensures r.Some? ==> r.value == items
  {
    if forall i :: 0 <= i < |items| ==> IsFloatText(items[i]) then Some(items) else None
  }

  // ----- booleans -----

  /** A bool field is written as `t` or `f`. */
  function BoolToString(b: bool): (r: FloatText)
    ensures |r| == 1
  {
    if b then "t" else "f"
  }

  /** A bool field is read back as "is the text exactly `t`"; anything else is false. */
  function ParseBool(s: string): (r: bool)
    ensures r ==> s == BoolToString(true)
  {
    s == "t"
  }

  lemma {:induction false} BoolRoundTrip(b: bool)
    ensures ParseBool(BoolToString(b)) == b
  {
  }
}
