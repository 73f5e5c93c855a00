/** How many alerts a flow can raise: an alarm uses its evidence up. */
module BeaconAlerts {
  import opened Common
  import opened IntervalStatistics
  import opened Beacon
  import opened BeaconSoundness
  import opened BeaconDetection

  lemma KeptSize(cfg: Config, times: seq<real>, now: real)
    ensures |Kept(cfg, times, now)| <= |times| + 1
  {
    var n := PruneDropsPrefix(times + [now], now - cfg.window);
  }

  /** One event adds at most one entry, and an alarm leaves none of the entries it was raised on. */
  lemma EventSize(cfg: Config, times: seq<real>, now: real)
    ensures var (next, verdict) := Observe(cfg, times, now);
      && (verdict.Alarm? ==> next == [] && cfg.minEvents <= |verdict.evidence| <= |times| + 1)
      && |next| <= |times| + 1
  {
    hide IntervalRegularity, TooIrregular, Kept;
    KeptSize(cfg, times, now);
  }

  lemma SmallDequeSilent(cfg: Config, times: seq<real>, now: real)
    requires |times| + 1 < cfg.minEvents
    ensures !Observe(cfg, times, now).1.Alarm?
  {
    hide Observe;
    EventSize(cfg, times, now);
  }

  /** The events after an alarm are all the deque can hold. */
  lemma {:induction false} DequeAfterAlarm(cfg: Config, history: seq<real>, later: seq<real>)
    requires history != [] && VerdictOn(cfg, history).Alarm?
    ensures |Deque(cfg, history + later)| <= |later|
  {
    hide Observe;
    if later == [] {
      assert history + later == history;
      EventSize(cfg, Deque(cfg, Front(history)), Last(history));
    } else {
      DequeAfterAlarm(cfg, history, Front(later));
      assert Front(history + later) == history + Front(later);
      EventSize(cfg, Deque(cfg, history + Front(later)), Last(later));
    }
  }

  /** After an alarm the next minEvents - 1 events of the flow raise none, whatever their times. */
  lemma SilentAfterAlarm(cfg: Config, history: seq<real>, later: seq<real>)
    requires history != [] && VerdictOn(cfg, history).Alarm? && 0 < |later| < cfg.minEvents
    ensures !VerdictOn(cfg, history + later).Alarm?
  {
    hide Observe, Deque;
    DequeAfterAlarm(cfg, history, Front(later));
    assert Front(history + later) == history + Front(later) && Last(history + later) == Last(later);
    SmallDequeSilent(cfg, Deque(cfg, history + Front(later)), Last(later));
  }

  function Product(n: nat, size: int): int { n * size }

  lemma ProductNext(n: nat, size: int)
    ensures Product(n + 1, size) == Product(n, size) + size && Product(0, size) == 0
  {
  }

  /** Over every run each alert has used up minEvents events of the flow, and none of those still stored. */
  lemma {:induction false} AlertsUseEvents(cfg: Config, flow: Flow, history: seq<real>)
    ensures Product(|OwnAlerts(cfg, flow, history)|, cfg.minEvents) + |Deque(cfg, history)| <= |history|
    decreases |history|
  {
    hide Observe, Product;
    if history == [] {
      ProductNext(0, cfg.minEvents);
    } else {
      AlertsUseEvents(cfg, flow, Front(history));
      EventSize(cfg, Deque(cfg, Front(history)), Last(history));
      ProductNext(|OwnAlerts(cfg, flow, Front(history))|, cfg.minEvents);
    }
  }

  /** On every valid detector: minEvents * alerts + stored entries is at most the events seen, for each key. */
  lemma DetectorUsesEvents(detector: Detector, flow: Flow)
    requires detector.Valid()
    ensures Product(|AlertsOf(detector.alerts, flow)|, detector.cfg.minEvents)
            + |Lookup(detector.beaconTimes, flow)| <= |Project(detector.log, flow)|
  {
    hide AlertsOf, OwnAlerts, Alerts, Project, Product, Deque;
    KeysIndependent(detector.cfg, detector.log, flow);
    AlertsUseEvents(detector.cfg, flow, Project(detector.log, flow));
    assert Lookup(detector.beaconTimes, flow) == Deque(detector.cfg, Project(detector.log, flow));
  }

  // ---------- what the alerts report ----------

  /** The alert that the `n`th event of the history raises. */
  ghost predicate RaisedAt(cfg: Config, flow: Flow, history: seq<real>, n: int, alert: Alert) {
    && 0 < n <= |history| && VerdictOn(cfg, history[..n]).Alarm?
    && alert.flow == flow && alert.count == |VerdictOn(cfg, history[..n]).evidence|
    && alert.regularity == VerdictOn(cfg, history[..n]).regularity
  }

  /** Every alert of a key reports an alarm of its own history: key, event count and regularity. */
  lemma {:induction false} AlertsReportAlarms(cfg: Config, flow: Flow, history: seq<real>, k: nat)
    requires k < |OwnAlerts(cfg, flow, history)|
    ensures exists n :: RaisedAt(cfg, flow, history, n, OwnAlerts(cfg, flow, history)[k])
    decreases |history|
  {
    hide VerdictOn;
    var front, own := Front(history), OwnAlerts(cfg, flow, history);
    assert history[..|history|] == history;
    if k < |OwnAlerts(cfg, flow, front)| {
      AlertsReportAlarms(cfg, flow, front, k);
      var n :| RaisedAt(cfg, flow, front, n, OwnAlerts(cfg, flow, front)[k]);
      assert front[..n] == history[..n];
      assert RaisedAt(cfg, flow, history, n, own[k]);
    } else {
      assert RaisedAt(cfg, flow, history, |history|, own[k]);
    }
  }

  // ---------- the alerts of a steady beacon ----------

  lemma OwnAlertsStep(cfg: Config, flow: Flow, history: seq<real>)
    requires history != []
    ensures OwnAlerts(cfg, flow, history)
         == OwnAlerts(cfg, flow, Front(history)) + AlertsOn(flow, VerdictOn(cfg, history))
  {
    hide VerdictOn, AlertsOn;
  }

  /** A quiet stretch adds no alert. */
  lemma {:induction false} QuietAddsNothing(cfg: Config, flow: Flow, before: seq<real>, events: seq<real>, n: nat)
    requires n <= |events| && Quiet(cfg, before, events, n)
    ensures OwnAlerts(cfg, flow, After(before, events, n)) == OwnAlerts(cfg, flow, before)
  {
    if n == 0 {
      assert before + events[..0] == before;
    } else {
      hide VerdictOn, OwnAlerts;
      QuietAddsNothing(cfg, flow, before, events, n - 1);
      OwnAlertsStep(cfg, flow, After(before, events, n));
    }
  }

  lemma FirstRound(cfg: Config, low: real, high: real, before: seq<real>, events: seq<real>)
    requires Detectable(cfg, low, high) && Steady(events, low, high)
    requires Deque(cfg, before) == [] && |events| >= cfg.minEvents
    ensures cfg.minEvents >= 2
    ensures Quiet(cfg, before, events, cfg.minEvents - 1)
    ensures var history := After(before, events, cfg.minEvents);
      VerdictOn(cfg, history).Alarm? && |VerdictOn(cfg, history).evidence| == cfg.minEvents && Deque(cfg, history) == []
  {
    var history := After(before, events, cfg.minEvents);
    FreshDetection(cfg, low, high, before, events);
    hide Steady;
    EventSize(cfg, Deque(cfg, Front(history)), Last(history));
  }

  /** The first minEvents events of a steady beacon raise exactly one alert and leave the deque empty. */
  lemma OneAlertPerRound(cfg: Config, low: real, high: real, flow: Flow, before: seq<real>, events: seq<real>)
    requires Detectable(cfg, low, high) && Steady(events, low, high)
    requires Deque(cfg, before) == [] && |events| >= cfg.minEvents
    ensures cfg.minEvents >= 2
    ensures var own := OwnAlerts(cfg, flow, After(before, events, cfg.minEvents));
      |own| == |OwnAlerts(cfg, flow, before)| + 1 && Last(own).flow == flow && Last(own).count == cfg.minEvents
    ensures Deque(cfg, After(before, events, cfg.minEvents)) == []
  {
    hide VerdictOn, OwnAlerts, Deque, Detectable, Steady, Quiet, After;
    FirstRound(cfg, low, high, before, events);
    QuietAddsNothing(cfg, flow, before, events, cfg.minEvents - 1);
    AlarmAdds(cfg, flow, before, events, cfg.minEvents);
  }

  lemma AlarmAdds(cfg: Config, flow: Flow, before: seq<real>, events: seq<real>, n: nat)
    requires 0 < n <= |events| && VerdictOn(cfg, After(before, events, n)).Alarm?
    ensures var own := OwnAlerts(cfg, flow, After(before, events, n));
      && |own| == |OwnAlerts(cfg, flow, After(before, events, n - 1))| + 1
      && Last(own).flow == flow && Last(own).count == |VerdictOn(cfg, After(before, events, n)).evidence|
  {
    hide VerdictOn, OwnAlerts;
    OwnAlertsStep(cfg, flow, After(before, events, n));
  }

  lemma MultipleAtLeast(size: nat, d: int)
    ensures d >= 1 ==> size * d >= size
    ensures d <= -1 ==> size * d <= 0 - size as int
  {
  }

  lemma QuotientIs(n: nat, size: nat, q: int, r: nat)
    requires r < size && n == size * q + r
    ensures n / size == q
  {
    var d := n / size - q;
    assert size * d == r - n % size;
    MultipleAtLeast(size, d);
  }

  /** How many whole rounds of `size` events there are. */
  function Rounds(n: nat, size: int): nat
    requires size > 0
  {
    n / size
  }

  lemma RoundsNext(n: nat, size: nat)
    requires size > 0
    ensures Rounds(n, size) == if n < size then 0 else Rounds(n - size, size) + 1
  {
    if n >= size {
      QuotientNext(n, size);
    }
  }

  lemma QuotientNext(n: nat, size: nat)
    requires 0 < size <= n
    ensures n / size == (n - size) / size + 1
  {
    var q, r := (n - size) / size, (n - size) % size;
    assert n == size * (q + 1) + r;
    QuotientIs(n, size, q + 1, r);
  }

  lemma ShortBeaconQuiet(cfg: Config, low: real, high: real, before: seq<real>, events: seq<real>)
    requires Detectable(cfg, low, high) && Steady(events, low, high) && Deque(cfg, before) == []
    requires |events| < cfg.minEvents
    ensures Quiet(cfg, before, events, |events|)
  {
    hide Deque, VerdictOn, Detectable, Steady;
    forall m | 0 < m <= |events|
      ensures !VerdictOn(cfg, After(before, events, m)).Alarm?
    {
      FreshDeque(cfg, low, high, before, events, m);
    }
  }

  lemma AfterAll(before: seq<real>, events: seq<real>, n: nat)
    requires n <= |events|
    ensures After(before, events, |events|) == before + events
    ensures After(before, events, n) + events[n..] == before + events
    ensures events[n..] == events[n..|events|]
  {
    assert events[..n] + events[n..] == events && events[..|events|] == events;
    assert before + events[..n] + events[n..] == before + (events[..n] + events[n..]);
  }

  /** From an empty deque a steady beacon of n events raises exactly n / minEvents alerts. */
  lemma {:induction false} SteadyAlertCount(
    cfg: Config, low: real, high: real, flow: Flow, before: seq<real>, events: seq<real>)
    requires Detectable(cfg, low, high) && Steady(events, low, high) && Deque(cfg, before) == []
    ensures cfg.minEvents >= 2
    ensures |OwnAlerts(cfg, flow, before + events)| 
         == |OwnAlerts(cfg, flow, before)| + Rounds(|events|, cfg.minEvents)
    decreases |events|
  {
    assert cfg.minEvents >= 2;
    hide Deque, OwnAlerts, Detectable, Steady, Quiet, After, Rounds;
    var n := cfg.minEvents;
    RoundsNext(|events|, n);
    if |events| < n {
      ShortBeaconQuiet(cfg, low, high, before, events);
      QuietAddsNothing(cfg, flow, before, events, |events|);
      AfterAll(before, events, 0);
    } else {
      OneAlertPerRound(cfg, low, high, flow, before, events);
      SteadySlice(events, low, high, n, |events|);
      AfterAll(before, events, n);
      SteadyAlertCount(cfg, low, high, flow, After(before, events, n), events[n..]);
    }
  }
}
