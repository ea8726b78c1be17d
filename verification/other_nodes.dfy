/** The "Other" node kinds with state that lives across evaluations: Spring, Delta,
    Dozer and Timer. Their type rules are modelled exactly; of their evaluators, the
    parts that are not float arithmetic are: Dozer's hold/reset/freeze choice and Timer's
    reset. Float arithmetic is a function parameter. */
module OtherNodes {
  import opened ValueTypes
  import opened Links
  import opened NodeBase

  // ----- Spring and Delta -----

  /** Spring and Delta both declare one generic value input. */
  const SpringInputs: seq<Link> := [Declared(AutoValue, DefaultSettings)]
  const DeltaInputs: seq<Link> := [Declared(AutoValue, DefaultSettings)]

  /** The values Spring and Delta can smooth or differentiate: floats and the three
      vector shapes, but not colour and not int. */
  predicate IsMotionValue(t: ValueType) {
    t == Float || t == Vector2 || t == Vector3 || t == Vector4
  }

  /** The type rule Spring and Delta share: the input's own type when it is a float or a
      2-, 3- or 4-vector, `Error` for everything else. */
  function MotionType(t: seq<ValueType>): (r: ValueType)
    requires |t| >= 1
    ensures r != Error <==> IsMotionValue(t[0])
    ensures r != Error ==> r == t[0] && IsValueExceptInt(r) && r != Color
  {
    match t[0]
    case Float => Float
    case Vector2 => Vector2
    case Vector3 => Vector3
    case Vector4 => Vector4
    case _ => Error
  }

  // ----- Dozer -----

  const DozerInputs: seq<Link> := [Declared(AutoValue, DefaultSettings), Declared(Bool, DefaultSettings)]

  /** The values a Dozer can hold: the motion values and colour. */
  predicate IsHoldable(t: ValueType) {
    IsMotionValue(t) || t == Color
  }

  /** The Update input must be a bool and the held value a float, vector or colour; the
      result is the held value's type. */
  function DozerType(t: seq<ValueType>): (r: ValueType)
    requires |t| >= 2
    ensures r != Error <==> t[1] == Bool && IsHoldable(t[0])
    ensures r != Error ==> r == t[0]
  {
    if t[1] != Bool then Error
    else match t[0]
      case Float => Float
      case Vector2 => Vector2
      case Vector3 => Vector3
      case Vector4 => Vector4
      case Color => Color
      case _ => Error
  }

  /** One evaluation of a Dozer accessor: with Update set it stores the current input;
      otherwise it falls back to zero unless `Freeze` is set, in which case it keeps what
      it held. The stored value is also the result. */
  function DozerStep<T>(held: T, update: bool, input: T, freeze: bool, zero: T): (r: T)
    ensures update ==> r == input
    ensures !update && freeze ==> r == held
    ensures !freeze ==> r == input || r == zero
  {
    if update then input else if !freeze then zero else held
  }

  /** Evaluation after evaluation: each step is the (Update, input) pair of one frame. */
  function DozerRun<T>(held: T, steps: seq<(bool, T)>, freeze: bool, zero: T): T
    decreases |steps|
  {
    if |steps| == 0 then held
    else DozerRun(DozerStep(held, steps[0].0, steps[0].1, freeze, zero), steps[1..], freeze, zero)
  }

  /** Index of the last step whose Update was set, if any. */
  function LastUpdate<T>(steps: seq<(bool, T)>): (r: int)
    ensures -1 <= r < |steps|
    ensures r >= 0 ==> steps[r].0
    ensures forall k :: r < k < |steps| ==> !steps[k].0
    decreases |steps|
  {
    if |steps| == 0 then -1
    else if steps[|steps| - 1].0 then |steps| - 1
    else LastUpdate(steps[..|steps| - 1])
  }

  lemma {:induction false} DozerRunSnoc<T>(held: T, steps: seq<(bool, T)>, last: (bool, T), freeze: bool, zero: T)
    ensures DozerRun(held, steps + [last], freeze, zero)
         == DozerStep(DozerRun(held, steps, freeze, zero), last.0, last.1, freeze, zero)
    decreases |steps|
  {
    if |steps| > 0 {
      assert (steps + [last])[1..] == steps[1..] + [last];
      DozerRunSnoc(DozerStep(held, steps[0].0, steps[0].1, freeze, zero), steps[1..], last, freeze, zero);
    }
  }

  /** A frozen Dozer holds the input of the last frame whose Update was set, and its
      starting value when there was none. */
  lemma {:induction false} FrozenDozerHoldsLastUpdate<T>(held: T, steps: seq<(bool, T)>, zero: T)
    ensures LastUpdate(steps) >= 0 ==> DozerRun(held, steps, true, zero) == steps[LastUpdate(steps)].1
    ensures LastUpdate(steps) < 0 ==> DozerRun(held, steps, true, zero) == held
    decreases |steps|
  {
    if |steps| > 0 {
      var init := steps[..|steps| - 1];
      var last := steps[|steps| - 1];
      assert steps == init + [last];
      DozerRunSnoc(held, init, last, true, zero);
      FrozenDozerHoldsLastUpdate(held, init, zero);
      if !last.0 {
        assert LastUpdate(steps) == LastUpdate(init);
        if LastUpdate(init) >= 0 {
          assert steps[LastUpdate(init)] == init[LastUpdate(init)];
        }
      }
    }
  }

  /** Without Freeze, a Dozer forgets everything but the current frame: the input when
      Update is set, zero otherwise. */
  lemma {:induction false} UnfrozenDozerIsMemoryless<T>(held: T, steps: seq<(bool, T)>, zero: T)
    requires |steps| > 0
    ensures DozerRun(held, steps, false, zero) == (if steps[|steps| - 1].0 then steps[|steps| - 1].1 else zero)
  {
    var init := steps[..|steps| - 1];
    assert steps == init + [steps[|steps| - 1]];
    DozerRunSnoc(held, init, steps[|steps| - 1], false, zero);
  }

  // ----- Timer -----

  /** What the Timer output does once the time passes the limit. The source's first
      member is `None`; here it is `NoLimit`. */
  datatype LimitType = NoLimit | Repeat | StayToStart | StayToEnd | PingPong | PingPongOnce

  const LimitTypes: seq<LimitType> := [NoLimit, Repeat, StayToStart, StayToEnd, PingPong, PingPongOnce]

  function LimitOrdinal(l: LimitType): (r: nat)
    ensures r < |LimitTypes| && LimitTypes[r] == l
  {
    match l
    case NoLimit => 0
    case Repeat => 1
    case StayToStart => 2
    case StayToEnd => 3
    case PingPong => 4
    case PingPongOnce => 5
  }

  const TimerInputs: seq<Link> := [Declared(Bool, DefaultSettings)]

  /** A bool Reset input gives a float; anything else, including nothing connected, is
      an `Error`. */
  function TimerType(t: seq<ValueType>): (r: ValueType)
    requires |t| >= 1
    ensures r != Error <==> t[0] == Bool
    ensures r != Error ==> r == Float
  {
    if t[0] != Bool then Error else Float
  }

  /** One evaluation's update of the accumulated time: `advance` adds `Dt * TimeSpeed`;
      a set Reset input then overwrites the sum with zero. */
  function TimerTime<T>(time: T, advance: T -> T, reset: bool, zero: T): (r: T)
    ensures reset ==> r == zero
    ensures !reset ==> r == advance(time)
  {
    var advanced := advance(time);
    if reset then zero else advanced
  }

  /** `f` applied `n` times. */
  function Iterate<T>(f: T -> T, x: T, n: nat): T
    decreases n
  {
    if n == 0 then x else f(Iterate(f, x, n - 1))
  }

  /** The accumulated time after a run of evaluations, one Reset flag per evaluation. */
  function TimerRun<T>(time: T, advance: T -> T, resets: seq<bool>, zero: T): T
    decreases |resets|
  {
    if |resets| == 0 then time
    else TimerRun(TimerTime(time, advance, resets[0], zero), advance, resets[1..], zero)
  }

  /** Index of the last evaluation whose Reset was set, if any. */
  function LastReset(resets: seq<bool>): (r: int)
    ensures -1 <= r < |resets|
    ensures r >= 0 ==> resets[r]
    ensures forall k :: r < k < |resets| ==> !resets[k]
    decreases |resets|
  {
    if |resets| == 0 then -1
    else if resets[|resets| - 1] then |resets| - 1
    else LastReset(resets[..|resets| - 1])
  }

  lemma {:induction false} TimerRunSnoc<T>(time: T, advance: T -> T, resets: seq<bool>, last: bool, zero: T)
    ensures TimerRun(time, advance, resets + [last], zero)
         == TimerTime(TimerRun(time, advance, resets, zero), advance, last, zero)
    decreases |resets|
  {
    if |resets| > 0 {
      assert (resets + [last])[1..] == resets[1..] + [last];
      TimerRunSnoc(TimerTime(time, advance, resets[0], zero), advance, resets[1..], last, zero);
    }
  }

  /** The time counts the evaluations since the last reset: a reset evaluation leaves
      exactly zero (its own increment is discarded), and every later evaluation adds one
      increment. Without any reset the increments pile onto the starting time. */
  lemma {:induction false} TimerCountsSinceReset<T>(time: T, advance: T -> T, resets: seq<bool>, zero: T)
    ensures LastReset(resets) >= 0 ==>
      TimerRun(time, advance, resets, zero) == Iterate(advance, zero, |resets| - 1 - LastReset(resets))
    ensures LastReset(resets) < 0 ==>
      TimerRun(time, advance, resets, zero) == Iterate(advance, time, |resets|)
    decreases |resets|
  {
    if |resets| > 0 {
      var init := resets[..|resets| - 1];
      var last := resets[|resets| - 1];
      assert resets == init + [last];
      TimerRunSnoc(time, advance, init, last, zero);
      TimerCountsSinceReset(time, advance, init, zero);
      if !last {
        assert LastReset(resets) == LastReset(init);
      }
    }
  }
}
