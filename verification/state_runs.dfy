/**
 * Repeated `update` calls on one `ScaleState.State`, as a caller driving the
 * animation frame by frame would make them, and the facts that follow: an
 * armed state arrives on exactly the 101st update, reports once, and two
 * full toggles bring a node back to where it rested.
 */
module StateRuns {
  import opened Wrappers
  import opened ScaleState

  /** The state after a number of updates, and every value reported on the way, in order. */
  datatype Trace = Trace(final: State, reports: seq<real>)

  /** `k` consecutive calls of `update`, starting from `s`. */
  function Run(s: State, k: nat): (r: Trace)
    decreases k
  {
    if k == 0 then
      Trace(s, [])
    else
      var st := Update(s);
      var rest := Run(st.next, k - 1);
      Trace(rest.final, st.arrived.ToSeq() + rest.reports)
  }

  /** Updating an idle state any number of times changes nothing and reports nothing. */
  lemma {:induction false} RunIdle(s: State, k: nat)
    requires Resting(s)
    ensures Run(s, k) == Trace(s, [])
    decreases k
  {
    if k > 0 {
      RunIdle(s, k - 1);
    }
  }

  /**
   * Across any number of updates from a `Valid` state: the state stays
   * `Valid`, the callback fires at most once, it fires exactly when an
   * animating state has come to rest, and what it reports is the opposite end,
   * which is then the resting value.
   */
  lemma {:induction false} RunInvariant(s: State, k: nat)
    requires Valid(s)
    ensures Valid(Run(s, k).final)
    ensures |Run(s, k).reports| <= 1
    ensures |Run(s, k).reports| == 1 <==> s.dir != 0.0 && Run(s, k).final.dir == 0.0
    ensures |Run(s, k).reports| == 1 ==>
              Run(s, k).reports[0] == 1.0 - s.prevScale
              && Run(s, k).final.prevScale == Run(s, k).reports[0]
    decreases k
  {
    if k > 0 {
      var st := Update(s);
      RunInvariant(st.next, k - 1);
      if st.arrived.Some? {
        RunIdle(st.next, k - 1);
        assert Run(s, k).reports == [st.arrived.value] + [];
      } else {
        assert Run(s, k).reports == [] + Run(st.next, k - 1).reports;
      }
    }
  }

  /** `startUpdating` followed by enough updates to finish one toggle. */
  function Toggle(s: State): (r: State)
  {
    Run(StartUpdating(s).next, 101).final
  }

  /** An armed state `k` steps along its way. */
  function Along(s: State, k: nat): (r: State)
  {
    var travelled := (k as real) * ScGap;
    s.(scale := if s.dir == 1.0 then s.prevScale + travelled else s.prevScale - travelled)
  }

  /** Before the 100th step is taken, one more update moves one step further and reports nothing. */
  lemma StepAlong(s: State, k: nat)
    requires Valid(s) && s.dir != 0.0
    requires k < 100
    ensures Update(Along(s, k)) == Stepped(Along(s, k + 1), None)
  {
    assert ((k + 1) as real) * ScGap == (k as real) * ScGap + ScGap;
  }

  /**
   * From a state armed by `startUpdating`, the first 100 updates each move
   * `scale` one step of `ScGap` along and report nothing.
   */
  lemma {:induction false} ArmedRun(s: State, k: nat)
    requires Valid(s) && s.dir != 0.0 && s.scale == s.prevScale
    requires k <= 100
    ensures Run(s, k) == Trace(Along(s, k), [])
  {
    if k == 0 {
      assert Along(s, 0) == s;
    } else {
      ArmedRun(s, k - 1);
      RunLast(s, k - 1);
      StepAlong(s, k - 1);
      assert Run(s, k).reports == [] + [];
    }
  }

  /** Running `k + 1` updates is running `k` and then one more. */
  lemma RunLast(s: State, k: nat)
    ensures Run(s, k + 1).final == Update(Run(s, k).final).next
    ensures Run(s, k + 1).reports == Run(s, k).reports + Update(Run(s, k).final).arrived.ToSeq()
  {
    RunSplit(s, k, 1);
    var last := Update(Run(s, k).final);
    assert Run(Run(s, k).final, 1).reports == last.arrived.ToSeq() + [];
  }

  /** After 100 steps an armed state sits on the opposite end, and the next update arrives there. */
  lemma AlongToEnd(a: State)
    requires Valid(a) && a.dir != 0.0
    ensures Along(a, 100).scale == a.prevScale + a.dir
    ensures Update(Along(a, 100)) ==
              Stepped(State(a.prevScale + a.dir, 0.0, a.prevScale + a.dir), Some(a.prevScale + a.dir))
  {
    var e := Along(a, 100);
    if a.dir == 1.0 {
      assert e.scale + e.dir * ScGap - e.prevScale == 1.01;
    } else {
      assert a.dir == -1.0;
      assert e.scale + e.dir * ScGap - e.prevScale == -1.01;
    }
  }

  /**
   * Any armed state still at its resting value (as `startUpdating` leaves it)
   * is still travelling after `n` = 100 updates and arrives on the 101st. The
   * count is a parameter so that the solver does not unfold `Run` a hundred times.
   */
  lemma ArmedArrives(a: State, n: nat)
    requires Valid(a) && a.dir != 0.0 && a.scale == a.prevScale
    requires n == 100
    ensures Run(a, n).reports == []
    ensures Run(a, n).final.dir != 0.0
    ensures Run(a, n + 1) ==
              Trace(State(a.prevScale + a.dir, 0.0, a.prevScale + a.dir), [a.prevScale + a.dir])
  {
    ArmedRun(a, n);
    AlongToEnd(a);
    RunLast(a, n);
    assert Run(a, n + 1).reports == [] + [a.prevScale + a.dir];
  }

  /**
   * `startUpdating` from rest, then updates: no arrival within 100 updates,
   * arrival on the 101st at the opposite end `1 - prevScale`, reported exactly
   * once, after which the node rests there.
   */
  lemma ArrivesOnUpdate101(s: State)
    requires Resting(s)
    ensures Run(StartUpdating(s).next, 100).reports == []
    ensures Run(StartUpdating(s).next, 100).final.dir != 0.0
    ensures Run(StartUpdating(s).next, 101) ==
              Trace(State(1.0 - s.prevScale, 0.0, 1.0 - s.prevScale), [1.0 - s.prevScale])
  {
    var a := StartUpdating(s).next;
    ArmedArrives(a, 100);
  }

  /** Running `j + k` updates is running `j` and then `k` more, with the reports concatenated. */
  lemma {:induction false} RunSplit(s: State, j: nat, k: nat)
    ensures Run(s, j + k).final == Run(Run(s, j).final, k).final
    ensures Run(s, j + k).reports == Run(s, j).reports + Run(Run(s, j).final, k).reports
    decreases j
  {
    if j > 0 {
      var st := Update(s);
      var a := st.arrived.ToSeq();
      RunSplit(st.next, j - 1, k);
      var mid := Run(st.next, j - 1);
      var tail := Run(mid.final, k);
      assert Run(s, j) == Trace(mid.final, a + mid.reports);
      assert j + k - 1 == (j - 1) + k;
      assert Run(s, j + k) == Trace(tail.final, a + (mid.reports + tail.reports));
      assert a + (mid.reports + tail.reports) == (a + mid.reports) + tail.reports;
    }
  }

  /**
   * However many updates follow the 101st, a node tapped from rest ends at
   * rest on the opposite end, and its callback has fired exactly once.
   */
  lemma ReportsOnce(s: State, k: nat)
    requires Resting(s)
    requires k >= 101
    ensures Run(StartUpdating(s).next, k) ==
              Trace(State(1.0 - s.prevScale, 0.0, 1.0 - s.prevScale), [1.0 - s.prevScale])
  {
    var a := StartUpdating(s).next;
    var n: nat := 100;
    var rest: nat := k - (n + 1);
    var target := State(1.0 - s.prevScale, 0.0, 1.0 - s.prevScale);
    ArmedArrives(a, n);
    var arrived := Run(a, n + 1);
    assert arrived == Trace(target, [1.0 - s.prevScale]);
    RunSplit(a, n + 1, rest);
    RunIdle(target, rest);
    assert Run(target, rest) == Trace(target, []);
    assert (n + 1) + rest == k;
    assert Run(a, k).final == target;
    assert Run(a, k).reports == [1.0 - s.prevScale] + [];
  }

  /** A toggle from rest lands at rest on the other end. */
  lemma ToggleFlips(s: State)
    requires Resting(s)
    ensures Resting(Toggle(s))
    ensures Toggle(s).prevScale == 1.0 - s.prevScale
    ensures Toggle(s).scale == Toggle(s).prevScale
  {
    ArrivesOnUpdate101(s);
  }

  /** Two complete toggles return a resting node to where it started: 0 to 1 to 0, or 1 to 0 to 1. */
  lemma ToggleTwiceRestores(s: State)
    requires Resting(s)
    ensures Toggle(Toggle(s)) == s
  {
    ToggleFlips(s);
    ToggleFlips(Toggle(s));
  }
}
