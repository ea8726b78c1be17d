/** C#'s unchecked 32-bit integer arithmetic, written out over unbounded integers:
    wrap-around, and division and remainder that truncate toward zero. */
module Int32Math {
  import opened Wrappers
  import opened Text

  const TwoTo32: int := 0x1_0000_0000

  /** Unchecked 32-bit wrap-around: the `int` congruent to `x` modulo 2^32. */
  function Wrap32(x: int): (r: Int32)
    ensures (x - r) % TwoTo32 == 0
    ensures MinInt32 <= x <= MaxInt32 ==> r == x
  {
    (x - MinInt32) % TwoTo32 + MinInt32
  }

  function Magnitude(x: int): nat {
    if x < 0 then -x else x
  }

  /** C#'s `/` on integers: the quotient truncated toward zero. */
  function TruncDiv(a: int, b: int): (q: int)
    requires b != 0
    ensures Magnitude(q) == Magnitude(a) / Magnitude(b)
    ensures q == 0 || (q < 0 <==> (a < 0) != (b < 0))
  {
    var m := Magnitude(a) / Magnitude(b);
    DivBounds(Magnitude(a), Magnitude(b));
    if (a < 0) == (b < 0) then m else -m
  }

  /** Floor division of naturals brackets the dividend between consecutive multiples. */
  lemma {:induction false} DivBounds(x: nat, y: nat)
    requires y > 0
    ensures (x / y) * y <= x < (x / y + 1) * y
    ensures x / y >= 0
  {
    var q := x / y;
    assert q * y + x % y == x;
    assert (q + 1) * y == q * y + y;
  }

  /** A dividend and its truncating remainder differ by a multiple of the divisor. */
  lemma {:induction false} RemainderCongruent(a: int, b: int)
    requires b != 0
    ensures (a - (a - TruncDiv(a, b) * b)) % Magnitude(b) == 0
  {
    var q := TruncDiv(a, b);
    var k := if b < 0 then -q else q;
    assert q * b == k * Magnitude(b);
    assert a - (a - q * b) == k * Magnitude(b);
    MultipleMod(k, Magnitude(b));
  }

  /** Truncating division leaves a remainder smaller than the divisor and of the
      dividend's sign. */
  lemma {:induction false} TruncDivRemainder(a: int, b: int)
    requires b != 0
    ensures Magnitude(a - TruncDiv(a, b) * b) < Magnitude(b)
    ensures a - TruncDiv(a, b) * b == 0 || (a - TruncDiv(a, b) * b < 0 <==> a < 0)
  {
    var m := Magnitude(a) / Magnitude(b);
    var rem := Magnitude(a) % Magnitude(b);
    assert Magnitude(a) == m * Magnitude(b) + rem;
    if (a < 0) == (b < 0) {
      if a < 0 {
        assert a - m * b == -rem;
      } else {
        assert a - m * b == rem;
      }
    } else {
      if a < 0 {
        assert a - (-m) * b == -rem;
      } else {
        assert a - (-m) * b == rem;
      }
    }
  }

  /** A truncated quotient of `int`s fits an `int` except for `int.MinValue / -1`. */
  lemma {:induction false} DivInRange(a: Int32, b: Int32)
    requires b != 0 && !(a == MinInt32 && b == -1)
    ensures MinInt32 <= TruncDiv(a, b) <= MaxInt32
  {
    var m := Magnitude(a) / Magnitude(b);
    QuotientBound(Magnitude(a), Magnitude(b));
    if a == MinInt32 {
      assert Magnitude(a) == TwoTo32 / 2;
      if Magnitude(b) == 1 {
        assert b == 1;
        assert TruncDiv(a, b) == -m;
      }
    }
  }

  /** A quotient by a positive divisor is at most the dividend, and at most half of it
      once the divisor is two or more. */
  lemma {:induction false} QuotientBound(x: nat, y: nat)
    requires y >= 1
    ensures x / y <= x
    ensures y >= 2 ==> (x / y) * 2 <= x
  {
    var q := x / y;
    assert q * y + x % y == x;
    assert q <= q * y;
    if y >= 2 {
      assert q * 2 <= q * y;
    }
  }

  /** Wrapping is compatible with addition: it can be applied before or after. */
  lemma {:induction false} WrapAdd(x: int, y: int)
    ensures Wrap32(Wrap32(x) + y) == Wrap32(x + y)
  {
    var k := (x - MinInt32) / TwoTo32;
    assert Wrap32(x) == x - k * TwoTo32;
    ModShift(x + y - MinInt32, k);
  }

  lemma {:induction false} ModShift(z: int, k: int)
    ensures (z - k * TwoTo32) % TwoTo32 == z % TwoTo32
  {
  }

  /** Wrapping is compatible with multiplication: it can be applied before or after. */
  lemma {:induction false} WrapMul(x: int, y: int)
    ensures Wrap32(Wrap32(x) * y) == Wrap32(x * y)
  {
    var k := (x - MinInt32) / TwoTo32;
    assert Wrap32(x) == x - k * TwoTo32;
    assert Wrap32(x) * y == x * y - (k * y) * TwoTo32;
    ModShift(x * y - MinInt32, k * y);
  }

  /** C#'s `%` on integers: the remainder of truncating division, which takes the sign of
      the dividend. It throws for a zero divisor, and for `int.MinValue % -1`, whose
      quotient does not fit. */
  function TruncRem(a: Int32, b: Int32): (r: Result<Int32>)
    ensures r.Failure? <==> b == 0 || (a == MinInt32 && b == -1)
    ensures r.Success? ==> Magnitude(r.value) < Magnitude(b)
    ensures r.Success? ==> r.value == 0 || (r.value < 0 <==> a < 0)
    ensures r.Success? && a >= 0 && b > 0 ==> r.value == a % b
    ensures r.Success? ==> (a - r.value) % Magnitude(b) == 0
  {
    if b == 0 then Failure("division by zero")
    else if a == MinInt32 && b == -1 then Failure("overflow")
    else
      TruncDivRemainder(a, b);
      RemainderCongruent(a, b);
      Success(a - TruncDiv(a, b) * b)
  }

  /** A multiple of `m` leaves no remainder modulo `m`. */
  lemma {:induction false} MultipleMod(k: int, m: int)
    requires m > 0
    ensures (k * m) % m == 0
  {
    var q := (k * m) / m;
    var r := (k * m) % m;
    assert k * m == q * m + r;
    assert (k - q) * m == r;
    MultipleBelow(k - q, m);
  }
  /** The only multiple of `m` strictly between `-m` and `m` is zero. */
  lemma {:induction false} MultipleBelow(k: int, m: int)
    requires m > 0 && -m < k * m < m
    ensures k == 0
  {
  }

  /** Adding the modulus does not change the remainder. */
  lemma {:induction false} AddDivisor(a: int, m: int)
    requires m > 0
    ensures (a + m) % m == a % m
  {
    var q := a / m;
    var r := a % m;
    var q2 := (a + m) / m;
    var r2 := (a + m) % m;
    assert a == q * m + r;
    assert a + m == q2 * m + r2;
    assert (q2 - q - 1) * m == r - r2;
    MultipleBelow(q2 - q - 1, m);
  }
}
