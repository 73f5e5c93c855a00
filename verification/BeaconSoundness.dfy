/** What the beacon deque keeps over every run, and what every alarm is evidence of. */
module BeaconSoundness {
  import opened Common
  import opened IntervalStatistics
  import opened Beacon

  /** Consecutive entries are at least `gap` apart. */
  ghost predicate Spaced(times: seq<real>, gap: real) {
    forall i :: 0 <= i < |times| - 1 ==> times[i + 1] - times[i] >= gap
  }

  ghost predicate Spans(times: seq<real>, window: real) {
    times != [] ==> Last(times) - times[0] <= window
  }

  lemma {:induction false} PruneDropsPrefix(times: seq<real>, cutoff: real) returns (n: nat)
    ensures n <= |times| && Prune(times, cutoff) == times[n..]
    ensures forall i :: 0 <= i < n ==> times[i] < cutoff
    ensures n < |times| ==> times[n] >= cutoff
  {
    if times != [] && times[0] < cutoff {
      n := PruneDropsPrefix(times[1..], cutoff);
      assert times[1..][n..] == times[n + 1..];
      forall i | 0 <= i < n + 1
        ensures times[i] < cutoff
      {
        if i > 0 { assert times[i] == times[1..][i - 1]; }
      }
      n := n + 1;
    } else {
      n := 0;
    }
  }

  /** An accepted event leaves a spaced deque inside the window that ends with that event. */
  lemma KeptInvariant(cfg: Config, times: seq<real>, now: real) returns (n: nat)
    requires cfg.Sane() && Spaced(times, cfg.debounce) && !IsRetransmission(cfg, times, now)
    ensures n <= |times| && Kept(cfg, times, now) == (times + [now])[n..]
    ensures var kept := Kept(cfg, times, now);
      && kept != [] && Last(kept) == now
      && Spaced(kept, cfg.debounce) && Spans(kept, cfg.window)
  {
    var extended := times + [now];
    n := PruneDropsPrefix(extended, now - cfg.window);
    assert extended[|times|] == now;
    assert Spaced(extended, cfg.debounce);
    forall i | 0 <= i < |extended[n..]| - 1
      ensures extended[n..][i + 1] - extended[n..][i] >= cfg.debounce
    {
      assert extended[i + n + 1] - extended[i + n] >= cfg.debounce;
    }
  }

  /**
   * Over all histories, even with a clock that steps back: the deque is spaced, fits the
   * window and is a subsequence of the flow's own events.
   */
  lemma {:induction false} DequeInvariant(cfg: Config, history: seq<real>)
    requires cfg.Sane()
    ensures Spaced(Deque(cfg, history), cfg.debounce)
    ensures Spans(Deque(cfg, history), cfg.window)
    ensures IsSubsequence(Deque(cfg, history), history)
    decreases |history|
  {
    if history != [] {
      var front, now := Front(history), Last(history);
      DequeInvariant(cfg, front);
      assert history == front + [now];
      var times := Deque(cfg, front);
      if IsRetransmission(cfg, times, now) {
        SubsequenceExtend(times, front, now);
      } else {
        KeptFromHistory(cfg, history);
      }
    }
  }

  /** The deque on which the last event is judged. */
  ghost function JudgedDeque(cfg: Config, history: seq<real>): seq<real>
    requires history != []
  {
    Kept(cfg, Deque(cfg, Front(history)), Last(history))
  }

  lemma KeptFromHistory(cfg: Config, history: seq<real>)
    requires cfg.Sane() && history != []
    requires Spaced(Deque(cfg, Front(history)), cfg.debounce)
    requires IsSubsequence(Deque(cfg, Front(history)), Front(history))
    requires !IsRetransmission(cfg, Deque(cfg, Front(history)), Last(history))
    ensures var kept := JudgedDeque(cfg, history);
      && IsSubsequence(kept, history) && kept != [] && Last(kept) == Last(history)
      && Spaced(kept, cfg.debounce) && Spans(kept, cfg.window)
  {
    hide Deque, Kept, Judge, IsSubsequence;
    var front, now := Front(history), Last(history);
    var times := Deque(cfg, front);
    var n := KeptInvariant(cfg, times, now);
    SubsequenceExtend(times, front, now);
    assert history == front + [now];
    SubsequenceDrop(times + [now], history, n);
  }

  lemma {:induction false} SpacedSpan(times: seq<real>, gap: real)
    requires Spaced(times, gap) && times != []
    ensures Last(times) - times[0] >= Steps(|times| - 1, gap)
  {
    if |times| > 1 {
      var front := Front(times);
      assert Spaced(front, gap);
      SpacedSpan(front, gap);
      var n := |times| - 1;
      assert times[n - 1 + 1] - times[n - 1] >= gap;
      StepsNext(n - 1, gap);
    }
  }

  /** The deque holds at most window / debounce + 1 entries. */
  lemma DequeLength(cfg: Config, history: seq<real>)
    requires cfg.Sane()
    ensures Deque(cfg, history) != [] ==> Steps(|Deque(cfg, history)| - 1, cfg.debounce) <= cfg.window
  {
    hide Steps, Deque;
    DequeInvariant(cfg, history);
    if Deque(cfg, history) != [] {
      SpacedSpan(Deque(cfg, history), cfg.debounce);
    }
  }

  lemma SpacedMean(times: seq<real>, gap: real)
    requires |times| >= 2 && Spaced(times, gap)
    ensures Mean(Intervals(times)) == Pace(times) >= gap
  {
    hide Steps, Mean, Pace, Intervals, Spaced;
    SpacedSpan(times, gap);
    MeanTelescopes(times);
    PaceAtLeast(times, gap);
  }

  lemma PaceAtLeast(times: seq<real>, gap: real)
    requires |times| >= 2 && times[|times| - 1] - times[0] >= Steps(|times| - 1, gap)
    ensures Pace(times) >= gap
  {
    QuotientAtLeast(times[|times| - 1] - times[0], (|times| - 1) as real, gap);
  }

  /** The least number of entries an alarm is raised on. */
  function Needed(cfg: Config): nat { if cfg.minEvents < 2 then 2 else cfg.minEvents }

  lemma AlarmNeeds(cfg: Config, kept: seq<real>)
    ensures Judge(cfg, kept).Alarm? ==> |kept| >= Needed(cfg)
  {
    hide VarianceLimit, Variance, Mean;
  }

  /** What an alarming verdict on a deque says about the deque. */
  lemma AlarmingDeque(cfg: Config, kept: seq<real>)
    requires Judge(cfg, kept).Alarm? && |kept| >= 2 && Mean(Intervals(kept)) == Pace(kept)
    requires cfg.maxCv < 1.0 || Pace(kept) >= cfg.minInterval
    ensures Pace(kept) >= cfg.minInterval
    ensures Variance(Intervals(kept)) <= VarianceLimit(cfg, Pace(kept))
    ensures Judge(cfg, kept) == Alarm(kept, Spread(Variance(Intervals(kept)), Pace(kept)))
  {
    hide VarianceLimit, Variance, Mean, Pace;
  }

  lemma VerdictOnKept(cfg: Config, history: seq<real>)
    requires history != [] && VerdictOn(cfg, history) != Debounced
    ensures !IsRetransmission(cfg, Deque(cfg, Front(history)), Last(history))
    ensures VerdictOn(cfg, history) == Judge(cfg, JudgedDeque(cfg, history))
  {
    hide Judge, Deque, Kept;
  }

  /** The evidence is made of the flow's own events, ends now, and beats as steadily as configured. */
  ghost predicate Witnessed(cfg: Config, history: seq<real>, evidence: seq<real>, regularity: Regularity)
    requires history != []
  {
    && IsSubsequence(evidence, history)
    && |evidence| >= 2 && |evidence| >= cfg.minEvents && Last(evidence) == Last(history)
    && Spaced(evidence, cfg.debounce) && Spans(evidence, cfg.window)
    && Pace(evidence) >= cfg.minInterval
    && Variance(Intervals(evidence)) <= VarianceLimit(cfg, Pace(evidence))
    && regularity == Spread(Variance(Intervals(evidence)), Pace(evidence))
  }

  /**
   * The configurations whose alarms are all beacons: a coefficient limit under 1, or no mean
   * below the minimum interval, because of the debounce or because the window is too short.
   */
  predicate SoundlyConfigured(cfg: Config) {
    || cfg.maxCv < 1.0
    || cfg.minInterval <= cfg.debounce
    || Steps(Needed(cfg) - 1, cfg.debounce) > cfg.window
  }

  lemma StepsGrow(m: int, n: int, step: real)
    requires m <= n && 0.0 <= step
    ensures Steps(m, step) <= Steps(n, step)
  {
  }

  lemma DequeFits(cfg: Config, kept: seq<real>)
    requires cfg.Sane() && |kept| >= Needed(cfg) && Spaced(kept, cfg.debounce) && Spans(kept, cfg.window)
    ensures Steps(Needed(cfg) - 1, cfg.debounce) <= cfg.window
  {
    hide Steps;
    SpacedSpan(kept, cfg.debounce);
    StepsGrow(Needed(cfg) - 1, |kept| - 1, cfg.debounce);
  }

  /**
   * Every alarm is witnessed by at least minEvents denied flows of one key, ending with the
   * present one, inside the window, pairwise a debounce apart, with a bounded variation.
   */
  lemma AlarmSound(cfg: Config, history: seq<real>)
    requires cfg.Sane() && SoundlyConfigured(cfg) && history != []
    ensures VerdictOn(cfg, history).Alarm?
            ==> Witnessed(cfg, history, VerdictOn(cfg, history).evidence, VerdictOn(cfg, history).regularity)
  {
    hide VarianceLimit, Deque, IsSubsequence, Variance, Judge, VerdictOn, Pace, Mean, JudgedDeque, Intervals, Steps;
    if VerdictOn(cfg, history).Alarm? {
      VerdictOnKept(cfg, history);
      DequeInvariant(cfg, Front(history));
      KeptFromHistory(cfg, history);
      var evidence := JudgedDeque(cfg, history);
      AlarmNeeds(cfg, evidence);
      DequeFits(cfg, evidence);
      SpacedMean(evidence, cfg.debounce);
      AlarmingDeque(cfg, evidence);
    }
  }

  // ---------- and exactly then ----------

  ghost predicate Sound(cfg: Config) {
    forall history: seq<real> :: history != [] && VerdictOn(cfg, history).Alarm?
      ==> Witnessed(cfg, history, VerdictOn(cfg, history).evidence, VerdictOn(cfg, history).regularity)
  }

  lemma FrontFits(cfg: Config, history: seq<real>)
    requires cfg.Sane() && history != [] && Spaced(history, cfg.debounce) && Spans(history, cfg.window)
    ensures Spaced(Front(history), cfg.debounce) && Spans(Front(history), cfg.window)
    ensures Front(history) != [] ==> Last(history) - Last(Front(history)) >= cfg.debounce
  {
    if |history| > 1 {
      var n := |history| - 1;
      assert history[n - 1 + 1] - history[n - 1] >= cfg.debounce;
    }
  }

  /** Spaced events that fit in the window are all kept. */
  lemma KeepsAll(cfg: Config, history: seq<real>)
    requires cfg.Sane() && history != [] && Spaced(history, cfg.debounce) && Spans(history, cfg.window)
    ensures !IsRetransmission(cfg, Front(history), Last(history))
    ensures Kept(cfg, Front(history), Last(history)) == history
  {
    hide Prune, Spaced;
    FrontFits(cfg, history);
    assert Front(history) + [Last(history)] == history;
    PruneNothing(history, Last(history) - cfg.window);
  }

  /** Up to the least number an alarm needs, such events are judged as they are. */
  lemma {:induction false} JudgedAsTheyAre(cfg: Config, history: seq<real>)
    requires cfg.Sane() && Spaced(history, cfg.debounce) && Spans(history, cfg.window)
    requires |history| <= Needed(cfg)
    ensures history != [] ==> VerdictOn(cfg, history) == Judge(cfg, history)
    ensures |history| < Needed(cfg) ==> Deque(cfg, history) == history
    decreases |history|
  {
    if history != [] {
      hide Judge, Kept, IsRetransmission;
      FrontFits(cfg, history);
      JudgedAsTheyAre(cfg, Front(history));
      KeepsAll(cfg, history);
      AlarmNeeds(cfg, history);
    }
  }

  /** Events one debounce apart. */
  function Ticks(cfg: Config, n: nat): seq<real> { seq(n, i requires 0 <= i < n => Steps(i, cfg.debounce)) }

  lemma TicksFit(cfg: Config)
    requires cfg.Sane() && Steps(Needed(cfg) - 1, cfg.debounce) <= cfg.window
    ensures var ticks := Ticks(cfg, Needed(cfg));
      && Spaced(ticks, cfg.debounce) && Spans(ticks, cfg.window)
      && Pace(ticks) == cfg.debounce
  {
    var ticks := Ticks(cfg, Needed(cfg));
    forall i | 0 <= i < |ticks| - 1
      ensures ticks[i + 1] - ticks[i] >= cfg.debounce
    {
      StepsNext(i, cfg.debounce);
    }
    StepsPace(Needed(cfg) - 1, cfg.debounce);
  }

  lemma StepsPace(n: nat, step: real)
    requires n > 0
    ensures Steps(0, step) == 0.0 && Steps(n, step) / n as real == step
  {
  }

  lemma LowMeanAlarm(cfg: Config, kept: seq<real>)
    requires |kept| >= Needed(cfg) && Mean(Intervals(kept)) < cfg.minInterval && cfg.maxCv >= 1.0
    ensures Judge(cfg, kept) == Alarm(kept, LowMean(Mean(Intervals(kept))))
  {
    hide VarianceLimit, Variance, Mean;
  }

  /** Every alarm of a configuration is witnessed exactly if it is soundly configured. */
  lemma AlarmSoundExactly(cfg: Config)
    requires cfg.Sane()
    ensures Sound(cfg) <==> SoundlyConfigured(cfg)
  {
    hide VerdictOn, Witnessed, Mean, Steps, Judge;
    if SoundlyConfigured(cfg) {
      forall history: seq<real> | history != [] && VerdictOn(cfg, history).Alarm?
        ensures Witnessed(cfg, history, VerdictOn(cfg, history).evidence, VerdictOn(cfg, history).regularity)
      {
        AlarmSound(cfg, history);
      }
    } else {
      var ticks := Ticks(cfg, Needed(cfg));
      TicksFit(cfg);
      JudgedAsTheyAre(cfg, ticks);
      MeanTelescopes(ticks);
      LowMeanAlarm(cfg, ticks);
      Unwitnessed(cfg, ticks, ticks, Mean(Intervals(ticks)));
    }
  }

  lemma Unwitnessed(cfg: Config, history: seq<real>, evidence: seq<real>, mean: real)
    requires history != []
    ensures !Witnessed(cfg, history, evidence, LowMean(mean))
  {
  }

  const LOOSE := Config(60.0, 4, 0.5, 1.0, 0.0)

  /** With a limit of 1 and no debounce even an alarm on events that are not steady is raised. */
  lemma UnsteadyAlarm()
    ensures var history := [0.0, 0.0, 0.0, 0.3]; var verdict := VerdictOn(LOOSE, history);
      && LOOSE.Sane() && verdict.Alarm? && verdict.evidence == history
      && Variance(Intervals(history)) > VarianceLimit(LOOSE, Pace(history))
  {
    var history := [0.0, 0.0, 0.0, 0.3];
    UnsteadyVariance();
    MeanTelescopes(history);
    hide Variance, VarianceLimit, Mean, Intervals, VerdictOn, Judge;
    JudgedAsTheyAre(LOOSE, history);
    LowMeanAlarm(LOOSE, history);
  }

  lemma UnsteadyVariance()
    ensures var history := [0.0, 0.0, 0.0, 0.3];
      Pace(history) == 0.1 && Variance(Intervals(history)) == 0.02 && VarianceLimit(LOOSE, Pace(history)) == 0.01
  {
    var intervals := Intervals([0.0, 0.0, 0.0, 0.3]);
    assert intervals == [0.0, 0.0, 0.3];
    MeanTelescopes([0.0, 0.0, 0.0, 0.3]);
    assert intervals[..2] == [0.0, 0.0] && [0.0, 0.0][..1] == [0.0] && [0.0][..0] == [];
    hide Mean;
    assert Deviation([], 0.1) == 0.0;
    assert Deviation([0.0], 0.1) == 0.01;
    assert Deviation([0.0, 0.0], 0.1) == 0.02;
    assert Deviation(intervals, 0.1) == 0.06;
  }

  /**
   * Exactly when an event alarms: it is no retransmission, enough entries are kept, and their
   * coefficient of variation, fixed at 1 for a pace below the minimum, is within the limit.
   */
  lemma AlarmExactly(cfg: Config, history: seq<real>)
    requires history != []
    ensures var times, now, kept := Deque(cfg, Front(history)), Last(history), JudgedDeque(cfg, history);
      VerdictOn(cfg, history).Alarm? <==>
        && (times != [] ==> now - Last(times) >= cfg.debounce)
        && |kept| >= 2 && |kept| >= cfg.minEvents
        && (if Pace(kept) < cfg.minInterval then cfg.maxCv >= 1.0
            else Variance(Intervals(kept)) <= (cfg.maxCv * Pace(kept)) * (cfg.maxCv * Pace(kept)))
  {
    hide Deque, Kept, Judge, Variance, Mean, Pace, Intervals;
    JudgedExactly(cfg, JudgedDeque(cfg, history));
  }

  lemma JudgedExactly(cfg: Config, kept: seq<real>)
    ensures Judge(cfg, kept).Alarm? <==>
        && |kept| >= 2 && |kept| >= cfg.minEvents
        && (if Pace(kept) < cfg.minInterval then cfg.maxCv >= 1.0
            else Variance(Intervals(kept)) <= (cfg.maxCv * Pace(kept)) * (cfg.maxCv * Pace(kept)))
  {
    hide Variance, Mean, Pace, Square;
    if |kept| >= 2 {
      MeanTelescopes(kept);
      LimitIs(cfg, Pace(kept));
      hide VarianceLimit;
    }
  }

  lemma LimitIs(cfg: Config, mean: real)
    ensures VarianceLimit(cfg, mean) == (cfg.maxCv * mean) * (cfg.maxCv * mean)
  {
  }

  /** Two successive entries are never closer than the debounce, so no low-mean or crashing verdict. */
  lemma NeverLowMean(cfg: Config, history: seq<real>)
    requires cfg.Tuned() && history != []
    ensures VerdictOn(cfg, history) != DivisionByZero
    ensures VerdictOn(cfg, history).Irregular? || VerdictOn(cfg, history).Alarm?
            ==> IntervalRegularity(cfg, JudgedDeque(cfg, history)).value.Spread?
                && IntervalRegularity(cfg, JudgedDeque(cfg, history)).value.mean >= cfg.debounce > 0.0
  {
    hide VarianceLimit, Deque, IsSubsequence, Variance, Pace, Mean, Kept;
    DequeInvariant(cfg, Front(history));
    if !IsRetransmission(cfg, Deque(cfg, Front(history)), Last(history)) {
      KeptFromHistory(cfg, history);
      if |JudgedDeque(cfg, history)| >= 2 {
        SpacedMean(JudgedDeque(cfg, history), cfg.debounce);
      }
    }
  }

  /** Some flow makes the regularity test divide by zero exactly when minEvents admits one event. */
  lemma CrashExactly(cfg: Config)
    requires cfg.Sane()
    ensures (exists history :: history != [] && VerdictOn(cfg, history) == DivisionByZero) <==> cfg.minEvents <= 1
  {
    if cfg.minEvents <= 1 {
      FirstEventCrashes(cfg);
    } else {
      forall history: seq<real> | history != []
        ensures VerdictOn(cfg, history) != DivisionByZero
      {
        NoCrash(cfg, JudgedDeque(cfg, history));
      }
    }
  }

  lemma NoCrash(cfg: Config, kept: seq<real>)
    requires cfg.minEvents >= 2
    ensures Judge(cfg, kept) != DivisionByZero
  {
    hide VarianceLimit, Variance;
  }

  lemma PruneNothing(times: seq<real>, cutoff: real)
    requires times != [] ==> times[0] >= cutoff
    ensures Prune(times, cutoff) == times
  {
  }

  lemma SingletonCrashes(cfg: Config, time: real)
    requires cfg.minEvents <= 1
    ensures Judge(cfg, [time]) == DivisionByZero
  {
    hide VarianceLimit, Variance, Mean;
    assert Intervals([time]) == [];
  }

  lemma FirstEventCrashes(cfg: Config)
    requires cfg.Sane() && cfg.minEvents <= 1
    ensures VerdictOn(cfg, [0.0]) == DivisionByZero
  {
    assert Deque(cfg, []) == [];
    hide Judge, Deque, Prune;
    PruneNothing([0.0], 0.0 - cfg.window);
    SingletonCrashes(cfg, 0.0);
    assert Front([0.0]) == [] && [] + [0.0] == [0.0];
  }

  /** Regularity does not depend on where the clock starts. */
  lemma RegularityShift(cfg: Config, times: seq<real>, offset: real)
    ensures IntervalRegularity(cfg, Shifted(times, offset)) == IntervalRegularity(cfg, times)
  {
    ShiftedIntervals(times, offset);
  }

  /** Nor on the unit of time, as long as the mean stays at or above minInterval. */
  lemma RegularityScale(cfg: Config, times: seq<real>, factor: real)
    requires cfg.Sane() && |times| >= 2 && factor > 0.0
    requires Mean(Intervals(times)) >= cfg.minInterval && Mean(Intervals(times)) * factor >= cfg.minInterval
    ensures IntervalRegularity(cfg, times).Some? && IntervalRegularity(cfg, Scaled(times, factor)).Some?
    ensures TooIrregular(cfg, IntervalRegularity(cfg, Scaled(times, factor)).value)
       <==> TooIrregular(cfg, IntervalRegularity(cfg, times).value)
  {
    hide VarianceLimit, Variance, Square;
    var intervals, scaled := Intervals(times), Intervals(Scaled(times, factor));
    ScaledIntervals(times, factor);
    ScaledMean(intervals, factor);
    ScaledVariance(intervals, factor);
    ScaledLimit(cfg, Mean(intervals), factor, Mean(scaled));
    PositiveSquare(factor);
    SameJudgement(cfg, Spread(Variance(intervals), Mean(intervals)), Spread(Variance(scaled), Mean(scaled)),
                  Square(factor));
    assert IntervalRegularity(cfg, times) == Some(Spread(Variance(intervals), Mean(intervals)));
    assert IntervalRegularity(cfg, Scaled(times, factor)) == Some(Spread(Variance(scaled), Mean(scaled)));
  }

  lemma ScaledLimit(cfg: Config, mean: real, factor: real, scaledMean: real)
    requires scaledMean == mean * factor
    ensures VarianceLimit(cfg, scaledMean) == VarianceLimit(cfg, mean) * Square(factor)
  {
    assert cfg.maxCv * scaledMean == (cfg.maxCv * mean) * factor;
    SquareProduct(cfg.maxCv * mean, factor);
  }

  lemma PositiveSquare(x: real)
    requires x > 0.0
    ensures Square(x) > 0.0
  {
    var inverse := 1.0 / x;
    assert x * inverse == 1.0;
    assert Square(x) * Square(inverse) == 1.0;
  }

  lemma SameJudgement(cfg: Config, plain: Regularity, scaled: Regularity, f: real)
    requires plain.Spread? && scaled.Spread? && f > 0.0
    requires scaled.variance == plain.variance * f
    requires VarianceLimit(cfg, scaled.mean) == VarianceLimit(cfg, plain.mean) * f
    ensures TooIrregular(cfg, scaled) <==> TooIrregular(cfg, plain)
  {
    hide VarianceLimit;
    CompareScaled(plain.variance, VarianceLimit(cfg, plain.mean), f);
  }

  lemma CompareScaled(x: real, y: real, f: real)
    requires f > 0.0
    ensures x * f > y * f <==> x > y
  {
    assert x * f - y * f == (x - y) * f;
  }
}
