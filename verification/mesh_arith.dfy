/** Facts about multiplication, division and remainder that the mesh index arithmetic
    needs and the solver does not find unaided. */
module MeshArith {

  /** A positive multiple of `n` is at least `n`. */
  lemma {:induction false} MulAtLeast(k: int, n: int)
    requires k >= 1 && n >= 0
    ensures k * n >= n
  {
    assert k * n == (k - 1) * n + n;
  }

  lemma {:induction false} MulMonotone(a: nat, b: nat, n: nat)
    requires a <= b
    ensures a * n <= b * n
  {
    assert b * n == a * n + (b - a) * n;
  }

  /** Division by `n` undoes `q * n + r` for a remainder `r` below `n`. */
  lemma {:induction false} DivModOf(n: int, q: int, r: int)
    requires n > 0 && q >= 0 && 0 <= r < n
    ensures (q * n + r) / n == q && (q * n + r) % n == r
  {
    var i := q * n + r;
    var q2 := i / n;
    var r2 := i % n;
    assert i == q2 * n + r2;
    assert (q - q2) * n == r2 - r;
    if q2 < q {
      MulAtLeast(q - q2, n);
    } else if q < q2 {
      MulAtLeast(q2 - q, n);
    }
  }

  /** Adding the divisor keeps the remainder. */
  lemma {:induction false} ModShift(j: nat, n: nat)
    requires n > 0
    ensures (j + n) % n == j % n
  {
    var q := j / n;
    var r := j % n;
    assert j + n == (q + 1) * n + r;
    DivModOf(n, q + 1, r);
  }
}
