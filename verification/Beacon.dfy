/** The C2-beacon detector: a debounced, expiring deque per flow and a regularity test on it. */
module Beacon {
  import opened Common
  import opened IntervalStatistics

  datatype Config = Config(window: real, minEvents: int, minInterval: real, maxCv: real, debounce: real) {
    /** What the detector needs for its arithmetic to be meaningful. */
    ghost predicate Sane() {
      0.0 < minInterval && 0.0 <= maxCv && 0.0 <= debounce && 0.0 <= window
    }

    /** The stronger relation the shipped defaults satisfy. */
    ghost predicate Tuned() {
      Sane() && minInterval <= debounce && minEvents >= 2
    }
  }

  datatype Flow = Flow(srcIp: string, dstIp: string, dstPort: int, proto: string)

  /** `LowMean` stands for the fixed coefficient 1.0; `Spread` for sqrt(variance) / mean. */
  datatype Regularity = LowMean(mean: real) | Spread(variance: real, mean: real)

  datatype Verdict =
    | Debounced
    | TooFew
    | DivisionByZero
    | Irregular
    | Alarm(evidence: seq<real>, regularity: Regularity)

  datatype Alert = Alert(flow: Flow, count: nat, regularity: Regularity)

  /** `None` is the division by the zero number of intervals. */
  function IntervalRegularity(cfg: Config, times: seq<real>): Option<Regularity> {
    var intervals := Intervals(times);
    if intervals == [] then None
    else
      var mean := Mean(intervals);
      if mean < cfg.minInterval then Some(LowMean(mean)) else Some(Spread(Variance(intervals), mean))
  }

  function VarianceLimit(cfg: Config, mean: real): real { Square(cfg.maxCv * mean) }

  /** coefficient > maxCv, squared so that no root is taken. */
  predicate TooIrregular(cfg: Config, regularity: Regularity) {
    match regularity
    case LowMean(_) => 1.0 > cfg.maxCv
    case Spread(variance, mean) => variance > VarianceLimit(cfg, mean)
  }

  /** Drops leading entries older than `cutoff`. */
  function Prune(times: seq<real>, cutoff: real): seq<real> {
    if times != [] && times[0] < cutoff then Prune(times[1..], cutoff) else times
  }

  /** The verdict on a pruned deque. */
  function Judge(cfg: Config, kept: seq<real>): Verdict {
    if |kept| < cfg.minEvents then TooFew
    else match IntervalRegularity(cfg, kept)
      case None => DivisionByZero
      case Some(regularity) => if TooIrregular(cfg, regularity) then Irregular else Alarm(kept, regularity)
  }

  predicate IsRetransmission(cfg: Config, times: seq<real>, now: real) {
    times != [] && now - Last(times) < cfg.debounce
  }

  function Kept(cfg: Config, times: seq<real>, now: real): seq<real> {
    Prune(times + [now], now - cfg.window)
  }

  function Observe(cfg: Config, times: seq<real>, now: real): (seq<real>, Verdict) {
    if IsRetransmission(cfg, times, now) then (times, Debounced)
    else
      var kept := Kept(cfg, times, now);
      var verdict := Judge(cfg, kept);
      (if verdict.Alarm? then [] else kept, verdict)
  }

  /** The deque after the denied flows `history` of one key, clock unconstrained. */
  function Deque(cfg: Config, history: seq<real>): seq<real>
    decreases |history|
  {
    if history == [] then [] else Observe(cfg, Deque(cfg, Front(history)), Last(history)).0
  }

  /** The verdict on the last event of `history`. */
  function VerdictOn(cfg: Config, history: seq<real>): Verdict
    requires history != []
  {
    Observe(cfg, Deque(cfg, Front(history)), Last(history)).1
  }

  /** Every alert of a mixed log of flows, in order. */
  ghost function Alerts(cfg: Config, log: seq<(Flow, real)>): seq<Alert>
    decreases |log|
  {
    if log == [] then []
    else Alerts(cfg, Front(log)) + AlertsOn(Last(log).0, LastVerdict(cfg, log))
  }

  ghost function LastVerdict(cfg: Config, log: seq<(Flow, real)>): Verdict
    requires log != []
  {
    VerdictOn(cfg, Project(log, Last(log).0))
  }

  function AlertsOn(flow: Flow, verdict: Verdict): seq<Alert> {
    match verdict
    case Alarm(evidence, regularity) => [Alert(flow, |evidence|, regularity)]
    case _ => []
  }

  class Detector {
    const cfg: Config
    var beaconTimes: map<Flow, seq<real>>
    var alerts: seq<Alert>
    ghost var log: seq<(Flow, real)>

    /** Each key's deque is the deque of that key's own history, so keys never affect each other. */
    ghost predicate Valid()
      reads this
    {
      && (forall flow :: Lookup(beaconTimes, flow) == Deque(cfg, Project(log, flow)))
      && alerts == Alerts(cfg, log)
    }

    constructor (cfg: Config)
      requires cfg.Sane()
      ensures Valid() && this.cfg == cfg && log == []
    {
      this.cfg := cfg;
      beaconTimes, alerts, log := map[], [], [];
    }

    method CheckBeacon(flow: Flow, now: real) returns (verdict: Verdict)
      requires Valid()
      modifies this
      ensures Valid() && log == old(log) + [(flow, now)]
      ensures verdict == LastVerdict(cfg, log)
      ensures alerts == old(alerts) + AlertsOn(flow, verdict)
      ensures forall other :: other != flow ==> Lookup(beaconTimes, other) == old(Lookup(beaconTimes, other))
    {
      hide Observe, Alerts, Project, Deque, LastVerdict;
      LogStep(cfg, log, flow, now);
      log := log + [(flow, now)];
      var times;
      times, verdict := Admit(Lookup(beaconTimes, flow), now);
      beaconTimes := beaconTimes[flow := times];
      if verdict.Alarm? {
        alerts := alerts + [Alert(flow, |verdict.evidence|, verdict.regularity)];
      }
    }

    /** The deque operations of one call, from the debounce test to the clearing on an alarm. */
    method Admit(deque: seq<real>, now: real) returns (times: seq<real>, verdict: Verdict)
      ensures (times, verdict) == Observe(cfg, deque, now)
    {
      times := deque;
      if times != [] && now - Last(times) < cfg.debounce {
        return times, Debounced;
      }
      times := times + [now];
      while times != [] && times[0] < now - cfg.window
        invariant Prune(times, now - cfg.window) == Kept(cfg, deque, now)
      {
        times := times[1..];
      }
      verdict := EvaluateDeque(times);
      if verdict.Alarm? {
        times := [];
      }
    }

    /** The length test and the regularity test on the pruned deque. */
    method EvaluateDeque(times: seq<real>) returns (verdict: Verdict)
      ensures verdict == Judge(cfg, times)
    {
      if |times| < cfg.minEvents {
        return TooFew;
      }
      var regularity := IntervalRegularity(cfg, times);
      if regularity == None {
        return DivisionByZero;
      }
      if TooIrregular(cfg, regularity.value) {
        return Irregular;
      }
      return Alarm(times, regularity.value);
    }
  }

  lemma LogStep(cfg: Config, log: seq<(Flow, real)>, flow: Flow, now: real)
    ensures var longer, times := log + [(flow, now)], Deque(cfg, Project(log, flow));
      && Deque(cfg, Project(longer, flow)) == Observe(cfg, times, now).0
      && LastVerdict(cfg, longer) == Observe(cfg, times, now).1
      && Alerts(cfg, longer) == Alerts(cfg, log) + AlertsOn(flow, LastVerdict(cfg, longer))
      && forall other :: other != flow ==> Project(longer, other) == Project(log, other)
  {
    ProjectStep(log, flow, now);
    assert Front(log + [(flow, now)]) == log;
    assert Front(Project(log, flow) + [now]) == Project(log, flow);
  }

  // ---------- keys are independent ----------

  function AlertsOf(alerts: seq<Alert>, flow: Flow): seq<Alert>
    decreases |alerts|
  {
    if alerts == [] then []
    else AlertsOf(Front(alerts), flow) + (if Last(alerts).flow == flow then [Last(alerts)] else [])
  }

  /** The alerts a key's own history raises. */
  function OwnAlerts(cfg: Config, flow: Flow, history: seq<real>): seq<Alert>
    decreases |history|
  {
    if history == [] then [] else OwnAlerts(cfg, flow, Front(history)) + AlertsOn(flow, VerdictOn(cfg, history))
  }

  lemma AlertsOfAppend(alerts: seq<Alert>, flow: Flow, verdict: Verdict, other: Flow)
    ensures AlertsOf(alerts + AlertsOn(flow, verdict), other)
         == AlertsOf(alerts, other) + if flow == other then AlertsOn(flow, verdict) else []
  {
    if verdict.Alarm? {
      assert Front(alerts + AlertsOn(flow, verdict)) == alerts;
    } else {
      assert alerts + AlertsOn(flow, verdict) == alerts;
    }
  }

  lemma AlertsAppend(cfg: Config, log: seq<(Flow, real)>, flow: Flow, now: real)
    ensures Alerts(cfg, log + [(flow, now)])
         == Alerts(cfg, log) + AlertsOn(flow, VerdictOn(cfg, Project(log, flow) + [now]))
  {
    hide VerdictOn, AlertsOn;
    ProjectStep(log, flow, now);
    assert Front(log + [(flow, now)]) == log;
  }

  /** In every mixed run the alerts of one key are those its own events would raise alone. */
  lemma {:induction false} KeysIndependent(cfg: Config, log: seq<(Flow, real)>, flow: Flow)
    ensures AlertsOf(Alerts(cfg, log), flow) == OwnAlerts(cfg, flow, Project(log, flow))
    decreases |log|
  {
    hide AlertsOf, OwnAlerts, Alerts, Project;
    if log == [] {
      NoAlertsYet(cfg, flow);
    } else {
      KeysIndependent(cfg, Front(log), flow);
      KeysIndependentStep(cfg, Front(log), Last(log).0, Last(log).1, flow);
      assert log == Front(log) + [(Last(log).0, Last(log).1)];
    }
  }

  lemma NoAlertsYet(cfg: Config, flow: Flow)
    ensures AlertsOf(Alerts(cfg, []), flow) == OwnAlerts(cfg, flow, Project([], flow))
  {
    var log: seq<(Flow, real)> := [];
    assert Project(log, flow) == [] && Alerts(cfg, log) == [];
  }

  lemma KeysIndependentStep(cfg: Config, log: seq<(Flow, real)>, key: Flow, now: real, flow: Flow)
    requires AlertsOf(Alerts(cfg, log), flow) == OwnAlerts(cfg, flow, Project(log, flow))
    ensures AlertsOf(Alerts(cfg, log + [(key, now)]), flow) == OwnAlerts(cfg, flow, Project(log + [(key, now)], flow))
  {
    hide AlertsOf, OwnAlerts, Alerts, Project, AlertsOn, VerdictOn;
    var history := Project(log, key);
    AlertsAppend(cfg, log, key, now);
    ProjectStep(log, key, now);
    AlertsOfAppend(Alerts(cfg, log), key, VerdictOn(cfg, history + [now]), flow);
    OwnAlertsAppend(cfg, key, history, now);
  }

  lemma OwnAlertsAppend(cfg: Config, flow: Flow, history: seq<real>, now: real)
    ensures OwnAlerts(cfg, flow, history + [now])
         == OwnAlerts(cfg, flow, history) + AlertsOn(flow, VerdictOn(cfg, history + [now]))
  {
    hide VerdictOn, AlertsOn;
    assert Front(history + [now]) == history;
  }
}
