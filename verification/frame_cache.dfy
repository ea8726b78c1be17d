/** `NodeProcessor.SeveralOutputsOptimisation`: once a processor feeds more than one
    consumer, each of its typed accessors is wrapped so that the raw accessor runs at
    most once per frame. All accessor kinds of one processor share a single frame stamp;
    `VoidOut` is not an accessor here and is never wrapped. */
module FrameCache {
  import opened NodeBase

  /** `_lastNodeFrame` before any wrapped accessor ran. `NodeProcessor.CurrentFrame`
      starts at 0 and `Process` bumps it before every evaluation, so no frame that is
      evaluated equals it. */
  const InitialStamp: int := -1

  /** The wrapped accessors' state: the one shared stamp and the last value each
      accessor kind cached (a kind that never ran holds its field's default). */
  datatype Cache<T> = Cache(stamp: int, cached: map<Accessor, T>)

  /** The state right after wrapping. */
  function Wrapped<T>(): (c: Cache<T>)
    ensures c.stamp < 0 && c.cached == map[]
  {
    Cache(InitialStamp, map[])
  }

  /** What accessor kind `a` last cached, or the field's default `zero`. */
  function Stored<T>(c: Cache<T>, a: Accessor, zero: T): T {
    if a in c.cached then c.cached[a] else zero
  }

  /** One call of the wrapped accessor `a` during frame `frame`, where `raw` is what the
      raw accessor would return now: in the stamped frame the cached value comes back
      and nothing runs; in any other frame the raw value is computed, cached and
      returned, and the frame is stamped. */
  function Read<T>(c: Cache<T>, a: Accessor, frame: int, raw: T, zero: T): (r: (Cache<T>, T))
    ensures frame == c.stamp ==> r == (c, Stored(c, a, zero))
    ensures frame != c.stamp ==> r.1 == raw && r.0.stamp == frame && Stored(r.0, a, zero) == raw
    ensures forall b :: b != a ==> Stored(r.0, b, zero) == Stored(c, b, zero)
  {
    if frame == c.stamp then (c, Stored(c, a, zero))
    else (Cache(frame, c.cached[a := raw]), raw)
  }

  /** The first call after wrapping, in any frame `Process` evaluates, computes. */
  lemma {:induction false} FirstReadComputes<T>(a: Accessor, frame: nat, raw: T, zero: T)
    ensures Read(Wrapped(), a, frame, raw, zero).1 == raw
  {
  }

  /** A second call of the same accessor in the same frame returns the first call's
      value, whatever the raw accessor would now return. */
  lemma {:induction false} SameFrameReturnsCached<T>(c: Cache<T>, a: Accessor, frame: int, raw1: T, raw2: T, zero: T)
    ensures var (c1, v1) := Read(c, a, frame, raw1, zero);
      Read(c1, a, frame, raw2, zero) == (c1, v1)
  {
  }

  /** A call in a later frame recomputes. */
  lemma {:induction false} LaterFrameRecomputes<T>(c: Cache<T>, a: Accessor, frame: int, later: int, raw1: T, raw2: T, zero: T)
    requires later > frame
    ensures var c1 := Read(c, a, frame, raw1, zero).0;
      Read(c1, a, later, raw2, zero).1 == raw2
  {
  }

  /** The stamp is shared: after one accessor kind ran in a frame, a different kind
      called in the same frame returns whatever it cached before (its default, right
      after wrapping) instead of computing. */
  lemma {:induction false} SecondKindIsStale<T>(a: Accessor, b: Accessor, frame: nat, rawA: T, rawB: T, zero: T)
    requires a != b
    ensures var c1 := Read(Wrapped(), a, frame, rawA, zero).0;
      Read(c1, b, frame, rawB, zero).1 == zero
  {
  }
}
