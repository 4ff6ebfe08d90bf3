/**
 * The per-node animation state `CircleRectScreenView.State`: a two-position
 * toggle whose `scale` travels from its resting value `prevScale` (0 or 1) to
 * the other end in fixed steps of `ScGap`, then snaps onto that end and stops.
 *
 * `Float` is modelled as an exact `real`. The callbacks of `update` and
 * `startUpdating` become returned values: the arrival value of `update` as an
 * `Option`, and whether `startUpdating` fired its callback as a `bool`.
 */
module ScaleState {
  import opened Wrappers

  /** The fixed step `scGap` by which `update` moves `scale`. */
  const ScGap: real := 0.01

  /** `State(scale, dir, prevScale)`; `dir` is 0 while idle and +1 or -1 while animating. */
  datatype State = State(scale: real, dir: real, prevScale: real)

  /** The all-zero state a node starts with (the data class defaults). */
  const Initial: State := State(0.0, 0.0, 0.0)

  /** What one `update` yields: the new state and the value passed to the callback, if it fired. */
  datatype Stepped = Stepped(next: State, arrived: Option<real>)

  /** What one `startUpdating` yields: the new state and whether the callback fired. */
  datatype Started = Started(next: State, started: bool)

  function Abs(x: real): (r: real)
    ensures r >= 0.0 && (r == x || r == -x)
  {
    if x < 0.0 then -x else x
  }

  /**
   * An invariant that holds in every state reachable from `Initial`: at rest
   * on 0 or 1 while idle; while animating, heading away from the resting value
   * and at most one unit along.
   */
  predicate Valid(s: State)
  {
    && (s.prevScale == 0.0 || s.prevScale == 1.0)
    && (s.dir == 0.0 ==> s.scale == s.prevScale)
    && (s.dir != 0.0 ==> s.dir == 1.0 - 2.0 * s.prevScale)
    && (s.dir == 1.0 ==> 0.0 <= s.scale - s.prevScale <= 1.0)
    && (s.dir == -1.0 ==> 0.0 <= s.prevScale - s.scale <= 1.0)
  }

  /** An idle state at rest on one of the two ends. */
  predicate Resting(s: State)
  {
    Valid(s) && s.dir == 0.0
  }

  /**
   * `update`: move `scale` one step in direction `dir`; once it has gone more
   * than one unit from `prevScale`, snap onto `prevScale + dir`, go idle, make
   * that the new resting value and report it.
   */
  function Update(s: State): (r: Stepped)
    // Arrival: exactly the snap, the stop and the commit, and the committed value is reported.
    ensures r.arrived.Some? ==>
              && r.next.scale == s.prevScale + s.dir
              && r.next.dir == 0.0
              && r.next.prevScale == s.prevScale + s.dir
              && r.arrived.value == r.next.prevScale
    // No arrival: only `scale` changes, by one signed step.
    ensures r.arrived.None? ==>
              r.next == s.(scale := s.scale + s.dir * ScGap)
    // It arrives exactly when the stepped value is more than one unit from the resting value.
    ensures r.arrived.Some? <==> Abs(s.scale + s.dir * ScGap - s.prevScale) > 1.0
    // `Valid` is preserved by `update`.
    ensures Valid(s) ==> Valid(r.next)
    // From a `Valid` state, an arrival lands on the opposite end.
    ensures Valid(s) && r.arrived.Some? ==> r.arrived.value == 1.0 - s.prevScale && s.dir != 0.0
    // An idle `Valid` state is left untouched and nothing is reported.
    ensures Resting(s) ==> r == Stepped(s, None)
  {
    var scale := s.scale + s.dir * ScGap;
    if Abs(scale - s.prevScale) > 1.0 then
      var arrived := s.prevScale + s.dir;
      Stepped(State(arrived, 0.0, arrived), Some(arrived))
    else
      Stepped(s.(scale := scale), None)
  }

  /**
   * `startUpdating`: when idle, set the direction away from the resting value
   * (`1 - 2 * prevScale`) and fire the callback; otherwise do nothing.
   */
  function StartUpdating(s: State): (r: Started)
    // The callback fires exactly when the state was idle.
    ensures r.started <==> s.dir == 0.0
    // While animating, nothing changes.
    ensures !r.started ==> r.next == s
    // When it starts, only the direction is set, to `1 - 2 * prevScale`.
    ensures r.started ==> r.next == s.(dir := 1.0 - 2.0 * s.prevScale)
    // `Valid` is preserved by `startUpdating`.
    ensures Valid(s) ==> Valid(r.next)
    // From rest it always heads to the other end: up from 0, down from 1.
    ensures Resting(s) ==>
              && r.started
              && r.next.dir == (if s.prevScale == 0.0 then 1.0 else -1.0)
  {
    if s.dir == 0.0 then
      Started(s.(dir := 1.0 - 2.0 * s.prevScale), true)
    else
      Started(s, false)
  }

  /** The defaults are at rest on 0. */
  lemma InitialResting()
    ensures Resting(Initial) && Initial.prevScale == 0.0
  {
  }

  /** Between calls a `Valid` state's `scale` stays within [0, 1], and `dir` is -1, 0 or +1. */
  lemma ValidBounds(s: State)
    requires Valid(s)
    ensures 0.0 <= s.scale <= 1.0
    ensures s.dir == -1.0 || s.dir == 0.0 || s.dir == 1.0
  {
    if s.dir == 1.0 {
      assert s.prevScale == 0.0;
    } else if s.dir == -1.0 {
      assert s.prevScale == 1.0;
    }
  }
}
