/** A steady beacon is always detected, whatever the detector has seen before. */
module BeaconDetection {
  import opened Common
  import opened IntervalStatistics
  import opened Beacon
  import opened BeaconSoundness

  /** Successive gaps all lie in [low, high]. */
  ghost predicate Steady(flow: seq<real>, low: real, high: real) {
    forall i :: 0 <= i < |flow| - 1 ==> low <= flow[i + 1] - flow[i] <= high
  }

  /** The jitter and the pace for which the configuration promises detection. */
  ghost predicate Detectable(cfg: Config, low: real, high: real) {
    && cfg.Sane() && cfg.minEvents >= 2 && cfg.debounce <= low <= high && cfg.minInterval <= low
    && high - low <= 2.0 * cfg.maxCv * low
    && Steps(cfg.minEvents - 1, high) <= cfg.window
  }

  lemma {:induction false} SteadyDistance(flow: seq<real>, low: real, high: real, p: nat, q: nat)
    requires Steady(flow, low, high) && p <= q < |flow|
    ensures Steps(q - p, low) <= flow[q] - flow[p] <= Steps(q - p, high)
    decreases q
  {
    if p < q {
      SteadyDistance(flow, low, high, p, q - 1);
      assert low <= flow[q - 1 + 1] - flow[q - 1] <= high;
      StepsNext(q - 1 - p, low);
      StepsNext(q - 1 - p, high);
    }
  }

  lemma StepsOrder(x: int, y: int, step: real)
    requires x <= y && 0.0 <= step
    ensures Steps(x, step) <= Steps(y, step) && (x == 0 ==> Steps(y, step) >= 0.0)
  {
  }

  lemma SteadyOrder(flow: seq<real>, low: real, high: real, p: nat, q: nat)
    requires Steady(flow, low, high) && p <= q < |flow| && low >= 0.0
    ensures flow[p] <= flow[q]
  {
    SteadyDistance(flow, low, high, p, q);
    StepsOrder(0, q - p, low);
  }

  lemma SteadySlice(flow: seq<real>, low: real, high: real, p: nat, q: nat)
    requires Steady(flow, low, high) && p <= q <= |flow|
    ensures Steady(flow[p..q], low, high)
  {
    forall i | 0 <= i < q - p - 1
      ensures low <= flow[p..q][i + 1] - flow[p..q][i] <= high
    {
      assert low <= flow[p + i + 1] - flow[p + i] <= high;
    }
  }

  lemma SquareOrder(x: real, y: real)
    requires 0.0 <= x <= y
    ensures Square(x) <= Square(y)
  {
    SquareMonotone(x, y);
  }

  lemma ProductOrder(c: real, x: real, y: real)
    requires 0.0 <= c && x <= y
    ensures c * x <= c * y
  {
  }

  /** A bounded jitter keeps the largest possible variance within the limit. */
  lemma JitterWithinLimit(cfg: Config, low: real, high: real, mean: real)
    requires Detectable(cfg, low, high) && low <= mean
    ensures Square((high - low) / 2.0) <= VarianceLimit(cfg, mean)
  {
    ProductOrder(cfg.maxCv, low, mean);
    SquareOrder((high - low) / 2.0, cfg.maxCv * mean);
  }

  /** A long enough steady deque passes the regularity test. */
  lemma SteadyAlarm(cfg: Config, low: real, high: real, kept: seq<real>)
    requires Detectable(cfg, low, high) && Steady(kept, low, high) && |kept| >= cfg.minEvents
    ensures Judge(cfg, kept).Alarm? && Judge(cfg, kept).evidence == kept
  {
    hide Square, VarianceLimit, Variance, Mean;
    var intervals := Intervals(kept);
    assert AllWithin(intervals, low, high);
    MeanWithin(intervals, low, high);
    VarianceBound(intervals, low, high);
    JitterWithinLimit(cfg, low, high, Mean(intervals));
  }

  /** The history after the first `n` events of `flow`. */
  ghost function After(before: seq<real>, flow: seq<real>, n: nat): (history: seq<real>)
    requires n <= |flow|
    ensures n > 0 ==> history != [] && Last(history) == flow[n - 1] && Front(history) == before + flow[..n - 1]
  {
    assert n > 0 ==> Front(before + flow[..n]) == before + flow[..n - 1];
    before + flow[..n]
  }

  lemma AfterStep(cfg: Config, before: seq<real>, flow: seq<real>, n: nat)
    requires n < |flow|
    ensures Deque(cfg, After(before, flow, n + 1)) == Observe(cfg, Deque(cfg, After(before, flow, n)), flow[n]).0
    ensures VerdictOn(cfg, After(before, flow, n + 1)) == Observe(cfg, Deque(cfg, After(before, flow, n)), flow[n]).1
  {
  }

  /** While fewer than minEvents events have arrived on an empty deque, it holds exactly those. */
  lemma {:induction false} FreshDeque(cfg: Config, low: real, high: real, before: seq<real>, flow: seq<real>, n: nat)
    requires Detectable(cfg, low, high) && Steady(flow, low, high) && n <= |flow|
    requires Deque(cfg, before) == [] && n < cfg.minEvents
    ensures Deque(cfg, After(before, flow, n)) == flow[..n]
    ensures n > 0 ==> VerdictOn(cfg, After(before, flow, n)) == TooFew
  {
    if n == 0 {
      assert before + flow[..0] == before;
    } else {
      FreshDeque(cfg, low, high, before, flow, n - 1);
      FreshAdmission(cfg, low, high, flow, n);
      AfterStep(cfg, before, flow, n - 1);
    }
  }

  lemma FreshAdmission(cfg: Config, low: real, high: real, flow: seq<real>, n: nat)
    requires Detectable(cfg, low, high) && Steady(flow, low, high) && 0 < n <= |flow| && n <= cfg.minEvents
    ensures !IsRetransmission(cfg, flow[..n - 1], flow[n - 1])
    ensures Kept(cfg, flow[..n - 1], flow[n - 1]) == flow[..n]
  {
    hide Steps;
    if n > 1 {
      assert low <= flow[n - 2 + 1] - flow[n - 2];
    }
    SteadyDistance(flow, low, high, 0, n - 1);
    StepsOrder(n - 1, cfg.minEvents - 1, high);
    assert flow[..n - 1] + [flow[n - 1]] == flow[..n];
    PruneNothing(flow[..n], flow[n - 1] - cfg.window);
  }

  /** From an empty deque a steady beacon alarms exactly at its event number minEvents. */
  lemma FreshDetection(cfg: Config, low: real, high: real, before: seq<real>, flow: seq<real>)
    requires Detectable(cfg, low, high) && Steady(flow, low, high)
    requires Deque(cfg, before) == [] && |flow| >= cfg.minEvents
    ensures forall n :: 0 < n < cfg.minEvents ==> !VerdictOn(cfg, After(before, flow, n)).Alarm?
    ensures VerdictOn(cfg, After(before, flow, cfg.minEvents)).Alarm?
    ensures VerdictOn(cfg, After(before, flow, cfg.minEvents)).evidence == flow[..cfg.minEvents]
  {
    forall n | 0 < n < cfg.minEvents
      ensures !VerdictOn(cfg, After(before, flow, n)).Alarm?
    {
      FreshDeque(cfg, low, high, before, flow, n);
    }
    var n := cfg.minEvents;
    FreshDeque(cfg, low, high, before, flow, n - 1);
    FreshAdmission(cfg, low, high, flow, n);
    AfterStep(cfg, before, flow, n - 1);
    SteadySlice(flow, low, high, 0, n);
    SteadyAlarm(cfg, low, high, flow[..n]);
  }

  /**
   * The deque splits into entries no later than the flow's second event and the flow's own
   * events from index `j` on; what the flow lost is older than the window at event `i`.
   */
  ghost predicate Shape(cfg: Config, deque: seq<real>, flow: seq<real>, i: nat, k: nat, j: nat)
    requires 1 <= i < |flow|
  {
    && k <= |deque| && 2 <= j <= i + 1
    && deque == deque[..k] + flow[j..i + 1]
    && (forall e :: 0 <= e < k ==> deque[e] <= flow[1])
    && (forall q :: 2 <= q < j ==> flow[q] < flow[i] - cfg.window)
  }

  ghost predicate Quiet(cfg: Config, before: seq<real>, flow: seq<real>, n: nat)
    requires n <= |flow|
  {
    forall m :: 0 < m <= n ==> !VerdictOn(cfg, After(before, flow, m)).Alarm?
  }

  lemma {:induction false} SortedDeque(times: seq<real>, gap: real, p: nat, q: nat)
    requires Spaced(times, gap) && gap >= 0.0 && p <= q < |times|
    ensures times[p] <= times[q]
    decreases q
  {
    if p < q {
      SortedDeque(times, gap, p, q - 1);
      assert times[q - 1 + 1] - times[q - 1] >= gap;
    }
  }

  /** Dropping the first `n` entries, all older than the cutoff, keeps the shape. */
  lemma ShapePrune(cfg: Config, extended: seq<real>, flow: seq<real>, i: nat, k: nat, j: nat, n: nat)
      returns (k': nat, j': nat)
    requires 1 <= i < |flow| && n <= |extended|
    requires Shape(cfg, extended, flow, i, k, j)
    requires forall e :: 0 <= e < n ==> extended[e] < flow[i] - cfg.window
    ensures Shape(cfg, extended[n..], flow, i, k', j')
  {
    var early, own := extended[..k], flow[j..i + 1];
    if n <= k {
      k', j' := k - n, j;
      DropFromFirst(early, own, n);
    } else {
      k', j' := 0, j + (n - k);
      DropFromSecond(early, own, n);
      assert own[n - k..] == flow[j'..i + 1];
      assert extended[n..] == extended[n..][..0] + flow[j'..i + 1];
      forall q | j <= q < j'
        ensures flow[q] < flow[i] - cfg.window
      {
        assert extended[k + q - j] == own[q - j];
      }
    }
  }

  lemma DropFromFirst(x: seq<real>, y: seq<real>, n: nat)
    requires n <= |x|
    ensures (x + y)[n..] == x[n..] + y && (x + y)[n..][..|x| - n] == x[n..]
  {
  }

  lemma DropFromSecond(x: seq<real>, y: seq<real>, n: nat)
    requires |x| <= n <= |x| + |y|
    ensures (x + y)[n..] == y[n - |x|..]
  {
  }

  lemma ShapeExtend(cfg: Config, deque: seq<real>, flow: seq<real>, i: nat, k: nat, j: nat)
    requires 1 <= i && i + 1 < |flow| && flow[i] <= flow[i + 1]
    requires Shape(cfg, deque, flow, i, k, j)
    ensures Shape(cfg, deque + [flow[i + 1]], flow, i + 1, k, j)
  {
    var extended := deque + [flow[i + 1]];
    assert extended[..k] == deque[..k];
    assert extended == deque[..k] + (flow[j..i + 1] + [flow[i + 1]]);
    assert flow[j..i + 1] + [flow[i + 1]] == flow[j..i + 2];
  }

  lemma ShapeAccepts(cfg: Config, deque: seq<real>, flow: seq<real>, i: nat, k: nat, j: nat)
    requires 1 <= i && i + 1 < |flow|
    requires flow[1] <= flow[i] && flow[i] + cfg.debounce <= flow[i + 1]
    requires Shape(cfg, deque, flow, i, k, j)
    ensures !IsRetransmission(cfg, deque, flow[i + 1])
  {
    if deque != [] && j <= i {
      assert Last(deque) == flow[j..i + 1][i - j];
    }
  }

  /** The next event is accepted and, after pruning, the deque has the shape again. */
  lemma ShapeStep(cfg: Config, deque: seq<real>, flow: seq<real>, i: nat, k: nat, j: nat)
      returns (k': nat, j': nat)
    requires 1 <= i && i + 1 < |flow| && 0.0 <= cfg.debounce
    requires flow[1] <= flow[i] && flow[i] + cfg.debounce <= flow[i + 1]
    requires Shape(cfg, deque, flow, i, k, j)
    ensures !IsRetransmission(cfg, deque, flow[i + 1])
    ensures Shape(cfg, Kept(cfg, deque, flow[i + 1]), flow, i + 1, k', j')
    ensures Kept(cfg, deque, flow[i + 1]) != [] ==> Kept(cfg, deque, flow[i + 1])[0] >= flow[i + 1] - cfg.window
  {
    hide Shape, Prune, IsRetransmission;
    ShapeAccepts(cfg, deque, flow, i, k, j);
    ShapeExtend(cfg, deque, flow, i, k, j);
    var extended := deque + [flow[i + 1]];
    var n := PruneDropsPrefix(extended, flow[i + 1] - cfg.window);
    k', j' := ShapePrune(cfg, extended, flow, i + 1, k, j, n);
  }

  lemma SteadyPace(cfg: Config, low: real, high: real, flow: seq<real>, i: nat)
    requires Detectable(cfg, low, high) && Steady(flow, low, high) && 1 <= i && i + 1 < |flow|
    ensures flow[1] <= flow[i] && flow[i] + cfg.debounce <= flow[i + 1]
  {
    SteadyOrder(flow, low, high, 1, i);
    assert low <= flow[i + 1] - flow[i] <= high;
  }

  /** After the first event, alarm or not, the newest entry is no later than it. */
  lemma FirstEvent(cfg: Config, before: seq<real>, flow: seq<real>)
    requires cfg.Sane() && flow != []
    requires Deque(cfg, before) != [] ==> Last(Deque(cfg, before)) <= flow[0]
    ensures var first := Deque(cfg, After(before, flow, 1));
      && Spaced(first, cfg.debounce) && (first != [] ==> Last(first) <= flow[0])
  {
    hide Judge, Deque;
    assert before + flow[..0] == before;
    AfterStep(cfg, before, flow, 0);
    DequeInvariant(cfg, before);
    DequeInvariant(cfg, After(before, flow, 1));
    if !IsRetransmission(cfg, Deque(cfg, before), flow[0]) {
      var n := KeptInvariant(cfg, Deque(cfg, before), flow[0]);
    }
  }

  /** The second event is accepted; without an alarm everything up to it has the shape. */
  lemma ShapeStart(cfg: Config, before: seq<real>, flow: seq<real>)
    requires cfg.Sane() && |flow| >= 2 && flow[0] + cfg.debounce <= flow[1]
    requires Deque(cfg, before) != [] ==> Last(Deque(cfg, before)) <= flow[0]
    requires Quiet(cfg, before, flow, 2)
    ensures Shape(cfg, Deque(cfg, After(before, flow, 2)), flow, 1, |Deque(cfg, After(before, flow, 2))|, 2)
  {
    hide Judge, Deque, Kept, Spans;
    FirstEvent(cfg, before, flow);
    AfterStep(cfg, before, flow, 1);
    assert !VerdictOn(cfg, After(before, flow, 2)).Alarm?;
    var n := KeptInvariant(cfg, Deque(cfg, After(before, flow, 1)), flow[1]);
    ShapeOfEarly(cfg, Deque(cfg, After(before, flow, 2)), flow);
  }

  lemma ShapeOfEarly(cfg: Config, deque: seq<real>, flow: seq<real>)
    requires cfg.Sane() && |flow| >= 2 && Spaced(deque, cfg.debounce) && deque != [] && Last(deque) <= flow[1]
    ensures Shape(cfg, deque, flow, 1, |deque|, 2)
  {
    forall e | 0 <= e < |deque|
      ensures deque[e] <= flow[1]
    {
      SortedDeque(deque, cfg.debounce, e, |deque| - 1);
    }
    assert deque == deque[..|deque|] + flow[2..2];
  }

  lemma {:induction false} ShapeWhileQuiet(
    cfg: Config, low: real, high: real, before: seq<real>, flow: seq<real>, i: nat)
      returns (k: nat, j: nat)
    requires Detectable(cfg, low, high) && Steady(flow, low, high) && 1 <= i < |flow|
    requires Deque(cfg, before) != [] ==> Last(Deque(cfg, before)) <= flow[0]
    requires Quiet(cfg, before, flow, i + 1)
    ensures Shape(cfg, Deque(cfg, After(before, flow, i + 1)), flow, i, k, j)
  {
    hide Judge, Deque, Steps;
    if i == 1 {
      assert low <= flow[0 + 1] - flow[0] <= high;
      ShapeStart(cfg, before, flow);
      return |Deque(cfg, After(before, flow, 2))|, 2;
    }
    k, j := ShapeWhileQuiet(cfg, low, high, before, flow, i - 1);
    SteadyPace(cfg, low, high, flow, i - 1);
    k, j := ShapeStep(cfg, Deque(cfg, After(before, flow, i)), flow, i - 1, k, j);
    AfterStep(cfg, before, flow, i);
    assert !VerdictOn(cfg, After(before, flow, i + 1)).Alarm?;
  }

  /** Once the window has passed the second event, the last minEvents events of the flow all lie in it. */
  lemma WindowHoldsEnough(cfg: Config, low: real, high: real, flow: seq<real>, m: nat)
    requires Detectable(cfg, low, high) && Steady(flow, low, high) && 2 <= m < |flow|
    requires flow[m] > flow[1] + cfg.window
    ensures m - (cfg.minEvents - 1) >= 2
    ensures flow[m - (cfg.minEvents - 1)] >= flow[m] - cfg.window
  {
    hide Steps;
    var q := m - (cfg.minEvents - 1);
    if q < 2 {
      SteadyDistance(flow, low, high, 1, m);
      StepsOrder(m - 1, cfg.minEvents - 1, high);
      assert false;
    }
    SteadyDistance(flow, low, high, q, m);
  }

  /** A deque of that shape is then a long steady stretch of the flow. */
  lemma ShapeIsFlow(cfg: Config, deque: seq<real>, flow: seq<real>, m: nat, k: nat, j: nat)
    requires 2 <= m < |flow| && flow[m] > flow[1] + cfg.window && cfg.minEvents >= 2
    requires m - (cfg.minEvents - 1) >= 2 && flow[m - (cfg.minEvents - 1)] >= flow[m] - cfg.window
    requires Shape(cfg, deque, flow, m, k, j)
    requires deque != [] ==> deque[0] >= flow[m] - cfg.window
    ensures deque == flow[j..m + 1] && |deque| >= cfg.minEvents
  {
    assert k == 0;
    assert j <= m - (cfg.minEvents - 1);
  }

  /**
   * From any reachable deque whose newest entry is not in the flow's future, a steady beacon
   * alarms no later than at any event more than the window after its second one.
   */
  lemma GuaranteedDetection(cfg: Config, low: real, high: real, before: seq<real>, flow: seq<real>, m: nat)
    requires Detectable(cfg, low, high) && Steady(flow, low, high) && 2 <= m < |flow|
    requires Deque(cfg, before) != [] ==> Last(Deque(cfg, before)) <= flow[0]
    requires flow[m] > flow[1] + cfg.window
    ensures exists n :: 0 < n <= m + 1 && VerdictOn(cfg, After(before, flow, n)).Alarm?
  {
    hide Judge, Deque, Steps;
    if Quiet(cfg, before, flow, m + 1) {
      var deque := Deque(cfg, After(before, flow, m));
      var k, j := ShapeWhileQuiet(cfg, low, high, before, flow, m - 1);
      SteadyPace(cfg, low, high, flow, m - 1);
      k, j := ShapeStep(cfg, deque, flow, m - 1, k, j);
      WindowHoldsEnough(cfg, low, high, flow, m);
      ShapeIsFlow(cfg, Kept(cfg, deque, flow[m]), flow, m, k, j);
      AlarmAt(cfg, low, high, before, flow, m, j);
    }
  }

  lemma AlarmAt(cfg: Config, low: real, high: real, before: seq<real>, flow: seq<real>, m: nat, j: nat)
    requires Detectable(cfg, low, high) && Steady(flow, low, high) && j <= m < |flow|
    requires !IsRetransmission(cfg, Deque(cfg, After(before, flow, m)), flow[m])
    requires Kept(cfg, Deque(cfg, After(before, flow, m)), flow[m]) == flow[j..m + 1]
    requires m + 1 - j >= cfg.minEvents
    ensures VerdictOn(cfg, After(before, flow, m + 1)).Alarm?
  {
    hide Deque, Judge, Detectable, Steady;
    AfterStep(cfg, before, flow, m);
    SteadySlice(flow, low, high, j, m + 1);
    SteadyAlarm(cfg, low, high, flow[j..m + 1]);
  }

  /** Retransmissions leave the deque as it is. */
  lemma {:induction false} RetransmissionsKeepDeque(cfg: Config, before: seq<real>, retries: seq<real>)
    requires Deque(cfg, before) != []
    requires forall r :: 0 <= r < |retries| ==> retries[r] - Last(Deque(cfg, before)) < cfg.debounce
    ensures Deque(cfg, before + retries) == Deque(cfg, before)
    ensures retries != [] ==> VerdictOn(cfg, before + retries) == Debounced
  {
    hide Judge;
    if retries == [] {
      assert before + retries == before;
    } else {
      RetransmissionsKeepDeque(cfg, before, Front(retries));
      assert Front(before + retries) == before + Front(retries);
    }
  }

  /**
   * Inserting retransmissions of the newest accepted event anywhere in a history changes
   * neither the deque nor any later verdict.
   */
  lemma {:induction false} RetransmissionsInvisible(
    cfg: Config, before: seq<real>, retries: seq<real>, later: seq<real>)
    requires Deque(cfg, before) != []
    requires forall r :: 0 <= r < |retries| ==> retries[r] - Last(Deque(cfg, before)) < cfg.debounce
    ensures Deque(cfg, before + retries + later) == Deque(cfg, before + later)
    ensures later != [] ==> VerdictOn(cfg, before + retries + later) == VerdictOn(cfg, before + later)
  {
    hide Judge;
    if later == [] {
      RetransmissionsKeepDeque(cfg, before, retries);
      assert before + retries + later == before + retries && before + later == before;
    } else {
      RetransmissionsInvisible(cfg, before, retries, Front(later));
      assert Front(before + retries + later) == before + retries + Front(later);
      assert Front(before + later) == before + Front(later);
    }
  }

  // ---------- a beacon with retransmissions ----------

  /** One beacon: its first packet, then retransmissions that follow within the debounce. */
  datatype Beat = Beat(time: real, retries: seq<real>)

  ghost predicate Retried(cfg: Config, beats: seq<Beat>) {
    forall i, r :: 0 <= i < |beats| && 0 <= r < |beats[i].retries| ==>
      beats[i].retries[r] - beats[i].time < cfg.debounce
  }

  function Times(beats: seq<Beat>): seq<real> {
    seq(|beats|, i requires 0 <= i < |beats| => beats[i].time)
  }

  /** Every packet of the beats, in order. */
  function Packets(beats: seq<Beat>): seq<real> {
    if beats == [] then [] else Packets(Front(beats)) + [Last(beats).time] + Last(beats).retries
  }

  /** No packet up to the `n`th alarms. */
  ghost predicate SilentFor(cfg: Config, before: seq<real>, packets: seq<real>, n: nat)
    requires n <= |packets|
  {
    forall m :: 0 < m <= n ==> !VerdictOn(cfg, After(before, packets, m)).Alarm?
  }

  /** The retransmissions follow the newest entry within the debounce. */
  ghost predicate Absorbs(cfg: Config, deque: seq<real>, retries: seq<real>) {
    deque != [] && forall r :: 0 <= r < |retries| ==> retries[r] - Last(deque) < cfg.debounce
  }

  /** Retransmissions after a silent stretch stay silent. */
  lemma SilentBeat(cfg: Config, before: seq<real>, packets: seq<real>, beat: Beat)
    requires SilentFor(cfg, before, packets, |packets|)
    requires var arrived := before + packets + [beat.time];
      !VerdictOn(cfg, arrived).Alarm? && Absorbs(cfg, Deque(cfg, arrived), beat.retries)
    ensures var longer := packets + [beat.time] + beat.retries; SilentFor(cfg, before, longer, |longer|)
    ensures Deque(cfg, before + (packets + [beat.time] + beat.retries)) == Deque(cfg, before + packets + [beat.time])
  {
    hide Deque, VerdictOn;
    var arrived, longer := before + packets + [beat.time], packets + [beat.time] + beat.retries;
    forall m | 0 < m <= |longer|
      ensures !VerdictOn(cfg, After(before, longer, m)).Alarm?
    {
      if m <= |packets| {
        assert longer[..m] == packets[..m];
        assert After(before, longer, m) == After(before, packets, m);
      } else {
        var k := m - |packets| - 1;
        assert longer[..m] == packets + [beat.time] + beat.retries[..k];
        assert After(before, longer, m) == arrived + beat.retries[..k];
        if k == 0 {
          assert arrived + beat.retries[..0] == arrived;
        } else {
          RetransmissionsKeepDeque(cfg, arrived, beat.retries[..k]);
        }
      }
    }
    RetransmissionsKeepDeque(cfg, arrived, beat.retries);
    assert before + longer == arrived + beat.retries;
  }

  lemma PacketsStep(before: seq<real>, beats: seq<Beat>)
    requires beats != []
    ensures Packets(beats) == Packets(Front(beats)) + [Last(beats).time] + Last(beats).retries
    ensures before + Packets(beats) == before + (Packets(Front(beats)) + [Last(beats).time] + Last(beats).retries)
  {
  }

  lemma PacketsOfPrefix(before: seq<real>, beats: seq<Beat>, n: nat)
    requires 0 < n <= |beats|
    ensures var front := Packets(beats[..n - 1]);
      && Packets(beats[..n]) == front + [beats[n - 1].time] + beats[n - 1].retries
      && before + Packets(beats[..n]) == before + (front + [beats[n - 1].time] + beats[n - 1].retries)
  {
    hide Packets;
    assert Front(beats[..n]) == beats[..n - 1] && Last(beats[..n]) == beats[n - 1];
    PacketsStep(before, beats[..n]);
  }

  lemma {:induction false} NoisyDeque(cfg: Config, low: real, high: real, before: seq<real>, beats: seq<Beat>)
    requires Detectable(cfg, low, high) && Steady(Times(beats), low, high) && Retried(cfg, beats)
    requires Deque(cfg, before) == [] && |beats| < cfg.minEvents
    ensures Deque(cfg, before + Packets(beats)) == Times(beats)
    ensures SilentFor(cfg, before, Packets(beats), |Packets(beats)|)
    decreases |beats|
  {
    hide Deque, Judge, Detectable;
    if beats == [] {
      assert before + Packets([]) == before;
    } else {
      var front, last := Front(beats), Last(beats);
      assert Times(front) == Times(beats)[..|beats| - 1];
      SteadySlice(Times(beats), low, high, 0, |beats| - 1);
      NoisyDeque(cfg, low, high, before, front);
      NextBeat(cfg, low, high, before, beats);
      assert Last(Times(beats)) == last.time;
      hide SilentFor, Packets;
      SilentBeat(cfg, before, Packets(front), last);
      PacketsStep(before, beats);
    }
  }

  /** The first packet of the next beat is accepted like the next event of a flow without retransmissions. */
  lemma NextBeat(cfg: Config, low: real, high: real, before: seq<real>, beats: seq<Beat>)
    requires Detectable(cfg, low, high) && Steady(Times(beats), low, high)
    requires 0 < |beats| <= cfg.minEvents && Deque(cfg, before + Packets(Front(beats))) == Times(Front(beats))
    ensures var arrived := before + Packets(Front(beats)) + [Last(beats).time];
      if |beats| < cfg.minEvents then Deque(cfg, arrived) == Times(beats) && VerdictOn(cfg, arrived) == TooFew
      else VerdictOn(cfg, arrived).Alarm? && VerdictOn(cfg, arrived).evidence == Times(beats)
  {
    var times, n := Times(beats), |beats|;
    assert Times(Front(beats)) == times[..n - 1] && times[..n] == times;
    FreshAdmission(cfg, low, high, times, n);
    if n == cfg.minEvents {
      SteadyAlarm(cfg, low, high, times);
    }
    hide Judge, Kept, Detectable, Steady, IsRetransmission;
    var arrived := before + Packets(Front(beats)) + [Last(beats).time];
    assert Front(arrived) == before + Packets(Front(beats)) && Last(arrived) == Last(beats).time == times[n - 1];
    if n < cfg.minEvents {
      TooFewToJudge(cfg, times);
    }
  }

  lemma TooFewToJudge(cfg: Config, kept: seq<real>)
    requires |kept| < cfg.minEvents
    ensures Judge(cfg, kept) == TooFew
  {
    hide IntervalRegularity, TooIrregular;
  }

  /**
   * From an empty deque a steady beacon with retransmissions alarms at the first packet of
   * beat number minEvents and at no packet before it.
   */
  lemma NoisyDetection(cfg: Config, low: real, high: real, before: seq<real>, beats: seq<Beat>)
    requires Detectable(cfg, low, high) && Steady(Times(beats), low, high) && Retried(cfg, beats)
    requires Deque(cfg, before) == [] && |beats| == cfg.minEvents
    ensures beats != []
    ensures SilentFor(cfg, before, Packets(Front(beats)), |Packets(Front(beats))|)
    ensures var arrived := before + Packets(Front(beats)) + [Last(beats).time];
      VerdictOn(cfg, arrived).Alarm? && VerdictOn(cfg, arrived).evidence == Times(beats)
  {
    hide VerdictOn, Deque, SilentFor;
    var front := Front(beats);
    assert Times(front) == Times(beats)[..|beats| - 1];
    SteadySlice(Times(beats), low, high, 0, |beats| - 1);
    NoisyDeque(cfg, low, high, before, front);
    NextBeat(cfg, low, high, before, beats);
  }

  // ---------- the same from any reachable deque ----------

  /**
   * The first beat is not in the past of what came before, and it is either accepted, or taken
   * with all its retransmissions for retransmissions of the newest entry.
   */
  ghost predicate CleanStart(cfg: Config, before: seq<real>, beats: seq<Beat>) {
    beats != [] &&
    (Deque(cfg, before) != [] ==>
      var newest := Last(Deque(cfg, before));
      && newest <= beats[0].time
      && (newest + cfg.debounce <= beats[0].time
          || Absorbs(cfg, Deque(cfg, before), beats[0].retries)))
  }

  /** The newest entry is the beat before `n`, or, before the second, something no later than the first. */
  ghost predicate EndsWithin(deque: seq<real>, beats: seq<Beat>, n: nat)
    requires 0 < n <= |beats|
  {
    deque != [] && (if n == 1 then Last(deque) <= beats[0].time else Last(deque) == beats[n - 1].time)
  }

  /**
   * Until the beats alone raise an alarm, their retransmissions change nothing: the deque is
   * that of the beats alone, and from the second beat on ends with the latest one.
   */
  lemma {:induction false} NoisyFollows(cfg: Config, low: real, high: real, before: seq<real>, beats: seq<Beat>, n: nat)
    requires Detectable(cfg, low, high) && Steady(Times(beats), low, high) && Retried(cfg, beats)
    requires CleanStart(cfg, before, beats) && n <= |beats| && Quiet(cfg, before, Times(beats), n)
    ensures Deque(cfg, before + Packets(beats[..n])) == Deque(cfg, After(before, Times(beats), n))
    ensures n > 0 ==> EndsWithin(Deque(cfg, before + Packets(beats[..n])), beats, n)
    ensures SilentFor(cfg, before, Packets(beats[..n]), |Packets(beats[..n])|)
  {
    if n == 0 {
      assert before + Packets(beats[..0]) == before && before + Times(beats)[..0] == before;
    } else {
      hide Deque, SilentFor, Quiet, VerdictOn, Packets, Times, Detectable, Steady, After;
      hide CleanStart, Retried, EndsWithin, Absorbs;
      TimesLength(beats);
      QuietFront(cfg, before, Times(beats), n);
      NoisyFollows(cfg, low, high, before, beats, n - 1);
      SameVerdict(cfg, before, beats, n);
      BeatAbsorbed(cfg, low, high, before, beats, n);
      SilentBeat(cfg, before, Packets(beats[..n - 1]), beats[n - 1]);
      PacketsOfPrefix(before, beats, n);
    }
  }

  lemma QuietFront(cfg: Config, before: seq<real>, flow: seq<real>, n: nat)
    requires 0 < n <= |flow| && Quiet(cfg, before, flow, n)
    ensures Quiet(cfg, before, flow, n - 1) && !VerdictOn(cfg, After(before, flow, n)).Alarm?
  {
    hide VerdictOn;
  }

  lemma TimesLength(beats: seq<Beat>)
    ensures |Times(beats)| == |beats| && forall i :: 0 <= i < |beats| ==> Times(beats)[i] == beats[i].time
  {
  }

  /** On equal deques the next beat meets the same fate. */
  lemma SameVerdict(cfg: Config, before: seq<real>, beats: seq<Beat>, n: nat)
    requires 0 < n <= |beats| && |Times(beats)| == |beats|
    requires Deque(cfg, before + Packets(beats[..n - 1])) == Deque(cfg, After(before, Times(beats), n - 1))
    ensures var arrived := before + Packets(beats[..n - 1]) + [beats[n - 1].time];
      && VerdictOn(cfg, arrived) == VerdictOn(cfg, After(before, Times(beats), n))
      && Deque(cfg, arrived) == Deque(cfg, After(before, Times(beats), n))
  {
    hide Observe;
    TimesLength(beats);
    AfterStep(cfg, before, Times(beats), n - 1);
    var arrived := before + Packets(beats[..n - 1]) + [beats[n - 1].time];
    assert Front(arrived) == before + Packets(beats[..n - 1]);
  }

  /** Unless it alarms, the first packet of a beat leaves a deque that its retransmissions do not change. */
  lemma BeatAbsorbed(cfg: Config, low: real, high: real, before: seq<real>, beats: seq<Beat>, n: nat)
    requires Detectable(cfg, low, high) && Steady(Times(beats), low, high) && CleanStart(cfg, before, beats)
    requires 0 < n <= |beats| && Retried(cfg, beats)
    requires n > 1 ==> EndsWithin(Deque(cfg, before + Packets(beats[..n - 1])), beats, n - 1)
    requires !VerdictOn(cfg, before + Packets(beats[..n - 1]) + [beats[n - 1].time]).Alarm?
    ensures var deque := Deque(cfg, before + Packets(beats[..n - 1]) + [beats[n - 1].time]);
      EndsWithin(deque, beats, n) && Absorbs(cfg, deque, beats[n - 1].retries)
  {
    hide Deque, Judge, Packets, Times, VerdictOn;
    var sofar, now := before + Packets(beats[..n - 1]), beats[n - 1].time;
    var deque := Deque(cfg, sofar);
    if n > 1 {
      TimesLength(beats);
      assert low <= Times(beats)[n - 2 + 1] - Times(beats)[n - 2] <= high;
      Accepted(cfg, sofar, now);
    } else {
      NoPackets(beats);
      assert sofar == before;
      if deque != [] && now - Last(deque) < cfg.debounce {
        DequeAfter(cfg, sofar, now);
      } else {
        Accepted(cfg, sofar, now);
      }
    }
  }

  lemma NoPackets(beats: seq<Beat>)
    ensures Packets(beats[..0]) == []
  {
  }

  /** An accepted event that raises no alarm is the newest entry. */
  lemma Accepted(cfg: Config, history: seq<real>, now: real)
    requires cfg.Sane() && !IsRetransmission(cfg, Deque(cfg, history), now)
    requires !VerdictOn(cfg, history + [now]).Alarm?
    ensures Deque(cfg, history + [now]) != [] && Last(Deque(cfg, history + [now])) == now
  {
    hide Deque, VerdictOn, Judge;
    DequeInvariant(cfg, history);
    var k := KeptInvariant(cfg, Deque(cfg, history), now);
    DequeAfter(cfg, history, now);
  }

  lemma DequeAfter(cfg: Config, history: seq<real>, now: real)
    ensures Deque(cfg, history + [now]) == Observe(cfg, Deque(cfg, history), now).0
    ensures VerdictOn(cfg, history + [now]) == Observe(cfg, Deque(cfg, history), now).1
  {
    hide Observe;
    assert Front(history + [now]) == history;
  }

  /** The first alarm of a run that has one. */
  lemma FirstAlarm(cfg: Config, before: seq<real>, flow: seq<real>, n: nat) returns (m: nat)
    requires 0 < n <= |flow| && VerdictOn(cfg, After(before, flow, n)).Alarm?
    ensures 0 < m <= n && VerdictOn(cfg, After(before, flow, m)).Alarm? && Quiet(cfg, before, flow, m - 1)
  {
    hide VerdictOn;
    m := 1;
    while !VerdictOn(cfg, After(before, flow, m)).Alarm?
      invariant 0 < m <= n && Quiet(cfg, before, flow, m - 1)
      decreases n - m
    {
      m := m + 1;
    }
  }

  /**
   * From any reachable deque a steady beacon with retransmissions, whose first beat is
   * accepted or absorbed as a whole, alarms no later than at the first packet of any beat more
   * than the window after the second one; the packets before that alarm are silent.
   */
  lemma NoisyGuaranteedDetection(cfg: Config, low: real, high: real, before: seq<real>, beats: seq<Beat>, m: nat)
      returns (n: nat)
    requires Detectable(cfg, low, high) && Steady(Times(beats), low, high) && Retried(cfg, beats)
    requires CleanStart(cfg, before, beats) && 2 <= m < |beats|
    requires beats[m].time > beats[1].time + cfg.window
    ensures n <= m && SilentFor(cfg, before, Packets(beats[..n]), |Packets(beats[..n])|)
    ensures VerdictOn(cfg, before + Packets(beats[..n]) + [beats[n].time]).Alarm?
  {
    hide Deque, VerdictOn, SilentFor, Packets, Times;
    TimesLength(beats);
    GuaranteedDetection(cfg, low, high, before, Times(beats), m);
    var late :| 0 < late <= m + 1 && VerdictOn(cfg, After(before, Times(beats), late)).Alarm?;
    var first := FirstAlarm(cfg, before, Times(beats), late);
    n := first - 1;
    NoisyFollows(cfg, low, high, before, beats, n);
    SameVerdict(cfg, before, beats, first);
  }
}
