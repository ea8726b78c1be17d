/** The integer side of the gradient-noise generator: the hash that picks a gradient
    vector, the tiling of lattice coordinates, and the per-octave repeat sizes and seeds
    of the fractal sums. Interpolation, the gradient table's contents and the float sums
    are not modelled. */
module Perlin {
  import opened Wrappers
  import opened Text
  import opened Int32Math

  /** The size of the gradient table, a prime. */
  const VectorsCount: int := 1753

  /** An `int`'s two's-complement bit pattern. */
  function Bits(x: Int32): bv32 {
    (if x < 0 then x + TwoTo32 else x) as bv32
  }

  /** `x ^ (y << 7) ^ seed` with the sign bit cleared: what is left fits 31 bits, so as
      an `int` it is never negative. */
  function HashBits(x: Int32, y: Int32, seed: Int32): bv31 {
    (((Bits(x) ^ (Bits(y) << 7)) ^ Bits(seed)) & 0x7fff_ffff) as bv31
  }

  /** `GradCoord`'s index into the gradient table: the masked hash modulo the table size.
      The masked hash is never negative, so C#'s `%` and the mathematical remainder agree
      on it, and the index is always in range. */
  function GradIndex(x: Int32, y: Int32, seed: Int32): (r: int)
    ensures 0 <= r < VectorsCount
  {
    (HashBits(x, y, seed) as int) % VectorsCount
  }

  /** The seed's sign bit is masked away: two seeds whose bit patterns differ only there
      pick the same gradient everywhere. */
  lemma {:induction false} GradIndexIgnoresSeedSign(x: Int32, y: Int32, seed: Int32, seed': Int32)
    requires Bits(seed') == Bits(seed) ^ 0x8000_0000
    ensures GradIndex(x, y, seed') == GradIndex(x, y, seed)
  {
    assert HashBits(x, y, seed') == HashBits(x, y, seed);
  }

  /** `y << 7` shifts the top seven bits of `y` out and its eighth bit into the masked
      sign position: only the low 24 bits of `y` reach the table index. */
  lemma {:induction false} GradIndexUsesLow24BitsOfY(x: Int32, y: Int32, y': Int32, seed: Int32)
    requires Bits(y) & 0x00ff_ffff == Bits(y') & 0x00ff_ffff
    ensures GradIndex(x, y, seed) == GradIndex(x, y', seed)
  {
    assert HashBits(x, y, seed) == HashBits(x, y', seed);
  }

  // ----- lattice tiling -----

  /** The four lattice coordinates `Get` hashes: the cell's corners, each reduced modulo
      the repeat size. */
  datatype Lattice = Lattice(x0: Int32, x1: Int32, y0: Int32, y1: Int32)

  /** `Get`'s integer steps, starting from the truncated coordinates `ix` and `iy`: the
      next corner is one further (wrapping in unchecked arithmetic), then every corner is
      reduced with C#'s `%` by `repeat`. A zero repeat size, or `-1` with a corner at
      `int.MinValue`, throws. */
  function LatticeCell(ix: Int32, iy: Int32, repeat: Int32): (r: Result<Lattice>)
    ensures r.Success? <==>
      repeat != 0 && (repeat == -1 ==> ix != MinInt32 && iy != MinInt32 && Wrap32(ix + 1) != MinInt32 && Wrap32(iy + 1) != MinInt32)
  {
    var x0 :- TruncRem(ix, repeat);
    var x1 :- TruncRem(Wrap32(ix + 1), repeat);
    var y0 :- TruncRem(iy, repeat);
    var y1 :- TruncRem(Wrap32(iy + 1), repeat);
    Success(Lattice(x0, x1, y0, y1))
  }

  /** With a positive repeat size and non-negative coordinates below `int.MaxValue`, every
      corner lies in `[0, repeat)` and the far corner is the near one's successor modulo
      the repeat size: the noise tiles with period `repeat`. */
  lemma {:induction false} LatticeTiles(ix: Int32, iy: Int32, repeat: Int32)
    requires repeat > 0 && 0 <= ix < MaxInt32 && 0 <= iy < MaxInt32
    ensures LatticeCell(ix, iy, repeat).Success?
    ensures var c := LatticeCell(ix, iy, repeat).value;
      c.x0 == ix % repeat && c.x1 == (ix + 1) % repeat &&
      c.y0 == iy % repeat && c.y1 == (iy + 1) % repeat &&
      0 <= c.x0 < repeat && 0 <= c.x1 < repeat && 0 <= c.y0 < repeat && 0 <= c.y1 < repeat
  {
    assert Wrap32(ix + 1) == ix + 1;
    assert Wrap32(iy + 1) == iy + 1;
  }

  /** Shifting both coordinates by a whole number of tiles picks the same corners. */
  lemma {:induction false} LatticePeriodic(ix: Int32, iy: Int32, repeat: Int32)
    requires repeat > 0 && 0 <= ix && 0 <= iy && ix + repeat < MaxInt32 && iy + repeat < MaxInt32
    ensures LatticeCell(ix + repeat, iy + repeat, repeat) == LatticeCell(ix, iy, repeat)
  {
    LatticeTiles(ix, iy, repeat);
    LatticeTiles(ix + repeat, iy + repeat, repeat);
    AddDivisor(ix, repeat);
    AddDivisor(ix + 1, repeat);
    AddDivisor(iy, repeat);
    AddDivisor(iy + 1, repeat);
  }

  // ----- octaves -----

  /** The three fractal sums. */
  datatype Fractal = FBM | Billow | RigidMulti

  /** How far the seed has moved after `i` extra octaves: `++seed` in `FBM` and
      `RigidMulti` moves it by one per octave, `+seed` in `Billow` leaves it alone. */
  function SeedOffset(f: Fractal, i: nat): (d: nat)
    ensures d == 0 <==> f == Billow || i == 0
  {
    if f == Billow then 0 else i
  }

  /** The repeat size and seed one call to `Get` receives. */
  datatype Octave = Octave(repeat: Int32, seed: Int32)

  /** `base * factor^n` in unbounded integers. */
  function Power(base: int, n: nat): int
    decreases n
  {
    if n == 0 then 1 else Power(base, n - 1) * base
  }

  /** The closed form of octave `i`: the repeat size multiplied by the lacunarity `i`
      times and the seed advanced `i` steps, both wrapped to 32 bits. */
  function OctaveAt(f: Fractal, lacunarity: Int32, repeat: Int32, seed: Int32, i: nat): Octave {
    Octave(Wrap32(repeat * Power(lacunarity, i)), Wrap32(seed + SeedOffset(f, i)))
  }

  /** The number of `Get` calls: the first octave always, then one per further octave. */
  function OctaveCount(octaves: Int32): (n: nat)
    ensures n >= 1
    ensures octaves >= 1 ==> n == octaves
  {
    if octaves > 1 then octaves else 1
  }

  /** The sequence of (repeat, seed) pairs a fractal sum passes to `Get`, computed as the
      source's loop does: each pass multiplies the repeat size by the lacunarity and
      moves the seed, in 32-bit unchecked arithmetic. */
  method OctaveSchedule(f: Fractal, octaves: Int32, lacunarity: Int32, repeat: Int32, seed: Int32)
    returns (calls: seq<Octave>)
    ensures |calls| == OctaveCount(octaves)
    ensures forall i :: 0 <= i < |calls| ==> calls[i] == OctaveAt(f, lacunarity, repeat, seed, i)
  {
    var r: Int32 := repeat;
    var s: Int32 := seed;
    calls := [Octave(r, s)];
    var i := 1;
    while i < octaves
      invariant 1 <= i <= OctaveCount(octaves)
      invariant |calls| == i
      invariant r == Wrap32(repeat * Power(lacunarity, i - 1))
      invariant s == Wrap32(seed + SeedOffset(f, i - 1))
      invariant forall k :: 0 <= k < i ==> calls[k] == OctaveAt(f, lacunarity, repeat, seed, k)
    {
      var step := SeedOffset(f, i) - SeedOffset(f, i - 1);
      WrapMul(repeat * Power(lacunarity, i - 1), lacunarity);
      assert repeat * Power(lacunarity, i) == repeat * Power(lacunarity, i - 1) * lacunarity;
      WrapAdd(seed + SeedOffset(f, i - 1), step);
      r := Wrap32(r * lacunarity);
      s := Wrap32(s + step);
      calls := calls + [Octave(r, s)];
      i := i + 1;
    }
  }

  /** `Billow` samples every octave with the caller's seed. */
  lemma {:induction false} BillowKeepsSeed(lacunarity: Int32, repeat: Int32, seed: Int32, i: nat)
    ensures OctaveAt(Billow, lacunarity, repeat, seed, i).seed == seed
  {
  }

  /** `FBM` and `RigidMulti` sample every octave with a different seed: fewer than 2^32
      octaves never wrap the seed back onto an earlier one. */
  lemma {:induction false} FbmSeedsDistinct(f: Fractal, lacunarity: Int32, repeat: Int32, seed: Int32, i: nat, j: nat)
    requires f != Billow && i < j <= MaxInt32
    ensures OctaveAt(f, lacunarity, repeat, seed, i).seed != OctaveAt(f, lacunarity, repeat, seed, j).seed
  {
  }

  /** With a lacunarity of one, every octave tiles with the caller's repeat size. */
  lemma {:induction false} UnitLacunarityKeepsRepeat(f: Fractal, repeat: Int32, seed: Int32, i: nat)
    ensures OctaveAt(f, 1, repeat, seed, i).repeat == repeat
  {
    PowerOfOne(i);
  }

  lemma {:induction false} PowerOfOne(n: nat)
    ensures Power(1, n) == 1
    decreases n
  {
    if n > 0 {
      PowerOfOne(n - 1);
    }
  }
}
