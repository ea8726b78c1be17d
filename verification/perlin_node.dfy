/** The Perlin node: its five inputs, its type rule, and how its evaluator hands its
    integer inputs to the fractal sum. */
module PerlinNodes {
  import opened Text
  import opened ValueTypes
  import opened Links
  import opened NodeBase
  import opened Int32Math
  import opened Perlin

  /** Repeat size, octaves and seed as ints and roughness as a float, all with the default
      settings; then the sampled point, a required 2-vector that never gets a default. */
  const PerlinInputs: seq<Link> := [
    Declared(Int, DefaultSettings),
    Declared(Int, DefaultSettings),
    Declared(Int, DefaultSettings),
    Declared(Float, DefaultSettings),
    Declared(Vector2, ValueRequiredFlag | NoDefaultsFlag)]

  /** The four parameters are required and take default constants when left unconnected;
      the sampled point is required and never defaulted. */
  lemma {:induction false} PerlinInputSettings()
    ensures |PerlinInputs| == 5
    ensures forall i :: 0 <= i < 4 ==> ValueRequired(PerlinInputs[i]) && !NoDefaults(PerlinInputs[i])
    ensures ValueRequired(PerlinInputs[4]) && NoDefaults(PerlinInputs[4])
    ensures forall i :: 0 <= i < 5 ==> !IsConnected(PerlinInputs[i])
  {
  }

  /** The declared types, in input order. */
  const PerlinSignature: seq<ValueType> := [Int, Int, Int, Float, Vector2]

  /** Exactly the declared types give a float; anything else, including an unconnected
      input, is an `Error`. */
  function PerlinType(t: seq<ValueType>): (r: ValueType)
    requires |t| >= 5
    ensures r != Error <==> t[..5] == PerlinSignature
    ensures r != Error ==> r == Float
  {
    if t[0] == Int && t[1] == Int && t[2] == Int && t[3] == Float && t[4] == Vector2 then Float
    else Error
  }

  /** The node's inputs are exactly what its rule accepts. */
  lemma {:induction false} PerlinSignatureMatchesInputs()
    ensures forall i :: 0 <= i < 5 ==> PerlinInputs[i].ty == PerlinSignature[i]
    ensures PerlinType(PerlinSignature) == Float
  {
  }

  /** The fixed lacunarity the evaluator passes. */
  const PerlinLacunarity: Int32 := 2

  /** The repeat sizes and seeds the node's float accessor samples with: input 0 is the
      repeat size, input 1 the octave count and input 2 the seed, fed to `FBM` with a
      lacunarity of two. Octave `i` tiles with `repeat * 2^i` (wrapped to 32 bits) and
      uses seed `seed + i`. */
  method PerlinOctaves(repeatSize: Int32, octaves: Int32, seed: Int32) returns (calls: seq<Octave>)
    ensures |calls| == OctaveCount(octaves)
    ensures forall i :: 0 <= i < |calls| ==>
      calls[i].repeat == Wrap32(repeatSize * Power(2, i)) && calls[i].seed == Wrap32(seed + i)
  {
    calls := OctaveSchedule(FBM, octaves, PerlinLacunarity, repeatSize, seed);
  }
}
