/** The detection-availability watchdog: one alert per outage, repeated at a bounded rate. */
module Watchdog {
  import opened Common

  /** What one check finds for one script. */
  datatype Observation = Observation(up: bool, now: real)

  /** The time an absent entry stands for. */
  const NEVER := 0.0

  function AlertedAt(last: Option<real>): real {
    match last
    case None => NEVER
    case Some(t) => t
  }

  predicate Due(repeatSeconds: real, last: Option<real>, seen: Observation) {
    !seen.up && seen.now - AlertedAt(last) >= repeatSeconds
  }

  /** The entry kept for a script after the checks in `history`. */
  function LastAlerted(repeatSeconds: real, history: seq<Observation>): Option<real>
    decreases |history|
  {
    if history == [] || Last(history).up then None
    else if Alerts(repeatSeconds, history) then Some(Last(history).now)
    else LastAlerted(repeatSeconds, Front(history))
  }

  /** The last check of `history` raises an alert. */
  predicate Alerts(repeatSeconds: real, history: seq<Observation>)
    decreases |history|, 0
  {
    history != [] && Due(repeatSeconds, LastAlerted(repeatSeconds, Front(history)), Last(history))
  }

  /** The alerts of a mixed log of checks. */
  ghost function AlertLog(repeatSeconds: real, log: seq<(string, Observation)>): seq<(string, real)>
    decreases |log|
  {
    if log == [] then []
    else
      var (script, seen) := Last(log);
      AlertLog(repeatSeconds, Front(log))
        + (if Alerts(repeatSeconds, Project(log, script)) then [(script, seen.now)] else [])
  }

  /** What one round of checks adds to the log. */
  ghost function Round(scripts: seq<string>, up: set<string>, now: real): seq<(string, Observation)> {
    seq(|scripts|, i requires 0 <= i < |scripts| => (scripts[i], Observation(scripts[i] in up, now)))
  }

  /** A script that is down and was last alerted, or the epoch was, at least the repeat interval ago. */
  predicate Overdue(repeatSeconds: real, up: bool, now: real, entries: map<string, real>, script: string) {
    !up && now - (if script in entries then entries[script] else 0.0) >= repeatSeconds
  }

  function NewAlert(repeatSeconds: real, up: bool, now: real, entries: map<string, real>, script: string)
    : seq<(string, real)>
  {
    if Overdue(repeatSeconds, up, now, entries, script) then [(script, now)] else []
  }

  function NewEntries(repeatSeconds: real, up: bool, now: real, entries: map<string, real>, script: string)
    : map<string, real>
  {
    if up then entries - {script}
    else if Overdue(repeatSeconds, up, now, entries, script) then entries[script := now]
    else entries
  }

  /**
   * What one round does: it alerts exactly the checked scripts that are overdue, at this time;
   * it clears the entries of the running ones, renews those of the alerted, keeps all others.
   */
  ghost predicate RoundDone(
    repeatSeconds: real, scripts: seq<string>, up: set<string>, now: real,
    before: map<string, real>, after: map<string, real>, added: seq<(string, real)>)
  {
    && (forall k :: 0 <= k < |added| ==> added[k].1 == now)
    && (forall script :: (script, now) in added <==>
          script in scripts && Overdue(repeatSeconds, script in up, now, before, script))
    && (forall script :: script in after <==>
          (script in before && !(script in scripts && script in up))
          || (script in scripts && Overdue(repeatSeconds, script in up, now, before, script)))
    && (forall script :: script in after ==>
          after[script] == if script in scripts && Overdue(repeatSeconds, script in up, now, before, script) then now
                           else if script in before then before[script] else now)
  }

  lemma RoundParts(scripts: seq<string>, up: set<string>, now: real)
    ensures |Round(scripts, up, now)| == |scripts|
    ensures Round(scripts, up, now)[..0] == [] && Round(scripts, up, now)[..|scripts|] == Round(scripts, up, now)
    ensures scripts[..0] == [] && scripts[..|scripts|] == scripts
  {
  }

  lemma RoundStep(scripts: seq<string>, up: set<string>, now: real, i: nat)
    requires i < |scripts|
    ensures |Round(scripts, up, now)| == |scripts|
    ensures Round(scripts, up, now)[..i + 1]
         == Round(scripts, up, now)[..i] + [(scripts[i], Observation(scripts[i] in up, now))]
    ensures scripts[..i + 1] == scripts[..i] + [scripts[i]]
  {
  }

  lemma NothingDone(repeatSeconds: real, up: set<string>, now: real, entries: map<string, real>)
    ensures RoundDone(repeatSeconds, [], up, now, entries, entries, [])
  {
  }

  lemma SuffixAppend(start: seq<(string, real)>, all: seq<(string, real)>, more: seq<(string, real)>)
    requires start <= all
    ensures start <= all + more && (all + more)[|start|..] == all[|start|..] + more
  {
  }

  lemma OneMoreDone(
    repeatSeconds: real, scripts: seq<string>, up: set<string>, now: real,
    before: map<string, real>, entries: map<string, real>, added: seq<(string, real)>, script: string)
    requires RoundDone(repeatSeconds, scripts, up, now, before, entries, added)
    ensures RoundDone(repeatSeconds, scripts + [script], up, now, before,
                      NewEntries(repeatSeconds, script in up, now, entries, script),
                      added + NewAlert(repeatSeconds, script in up, now, entries, script))
  {
  }

  class Watch {
    const repeatSeconds: real
    var lastAlerted: map<string, real>
    var alerts: seq<(string, real)>
    ghost var log: seq<(string, Observation)>

    /** Each script's entry depends on the checks of that script only. */
    ghost predicate Valid()
      reads this
    {
      && (forall script :: Entry(script) == LastAlerted(repeatSeconds, Project(log, script)))
      && alerts == AlertLog(repeatSeconds, log)
    }

    function Entry(script: string): Option<real>
      reads this
    {
      if script in lastAlerted then Some(lastAlerted[script]) else None
    }

    constructor (repeatSeconds: real)
      ensures Valid() && this.repeatSeconds == repeatSeconds && log == []
    {
      this.repeatSeconds := repeatSeconds;
      lastAlerted, alerts, log := map[], [], [];
    }

    /** `up` holds the scripts that are running. */
    method Check(scripts: seq<string>, up: set<string>, now: real)
      requires Valid()
      modifies this
      ensures Valid() && log == old(log) + Round(scripts, up, now)
      ensures old(alerts) <= alerts
      ensures RoundDone(repeatSeconds, scripts, up, now, old(lastAlerted), lastAlerted, alerts[|old(alerts)|..])
    {
      hide RoundDone, Overdue, NewAlert, NewEntries, Round, Valid;
      NothingDone(repeatSeconds, up, now, lastAlerted);
      RoundParts(scripts, up, now);
      assert alerts[|alerts|..] == [];
      for i := 0 to |scripts|
        invariant Valid() && log == old(log) + Round(scripts, up, now)[..i]
        invariant old(alerts) <= alerts
        invariant RoundDone(repeatSeconds, scripts[..i], up, now,
                            old(lastAlerted), lastAlerted, alerts[|old(alerts)|..])
      {
        ghost var entries, reported := lastAlerted, alerts;
        CheckScript(scripts[i], scripts[i] in up, now);
        OneMoreDone(repeatSeconds, scripts[..i], up, now, old(lastAlerted), entries, reported[|old(alerts)|..],
                    scripts[i]);
        RoundStep(scripts, up, now, i);
        SuffixAppend(old(alerts), reported, NewAlert(repeatSeconds, scripts[i] in up, now, entries, scripts[i]));
      }
    }

    /** One script: running clears its entry; down alerts it if the repeat interval has passed. */
    method CheckScript(script: string, up: bool, now: real)
      requires Valid()
      modifies this
      ensures Valid() && log == old(log) + [(script, Observation(up, now))]
      ensures alerts == old(alerts) + NewAlert(repeatSeconds, up, now, old(lastAlerted), script)
      ensures lastAlerted == NewEntries(repeatSeconds, up, now, old(lastAlerted), script)
    {
      hide LastAlerted, Alerts, AlertLog, Project;
      LogStep(repeatSeconds, log, script, Observation(up, now));
      log := log + [(script, Observation(up, now))];
      if up {
        lastAlerted := lastAlerted - {script};
        return;
      }
      if now - AlertedAt(Entry(script)) < repeatSeconds {
        return;
      }
      lastAlerted := lastAlerted[script := now];
      alerts := alerts + [(script, now)];
    }
  }

  lemma LogStep(repeatSeconds: real, log: seq<(string, Observation)>, script: string, seen: Observation)
    ensures var longer, history := log + [(script, seen)], Project(log, script);
      && Project(longer, script) == history + [seen]
      && (Alerts(repeatSeconds, history + [seen]) <==> Due(repeatSeconds, LastAlerted(repeatSeconds, history), seen))
      && LastAlerted(repeatSeconds, history + [seen])
         == (if seen.up then None
             else if Due(repeatSeconds, LastAlerted(repeatSeconds, history), seen) then Some(seen.now)
             else LastAlerted(repeatSeconds, history))
      && AlertLog(repeatSeconds, longer)
         == AlertLog(repeatSeconds, log)
            + (if Due(repeatSeconds, LastAlerted(repeatSeconds, history), seen) then [(script, seen.now)] else [])
      && forall other :: other != script ==> Project(longer, other) == Project(log, other)
  {
    ProjectStep(log, script, seen);
    assert Front(log + [(script, seen)]) == log;
    assert Front(Project(log, script) + [seen]) == Project(log, script);
  }

  /** On every valid watch each alert is for a logged check that found that script down at that time. */
  lemma AlertsAreForDownScripts(watch: Watch, k: nat)
    requires watch.Valid() && k < |watch.alerts|
    ensures var (script, time) := watch.alerts[k];
      exists i :: 0 <= i < |watch.log| && watch.log[i] == (script, Observation(false, time))
  {
    LoggedDown(watch.repeatSeconds, watch.log, k);
  }

  lemma {:induction false} LoggedDown(repeatSeconds: real, log: seq<(string, Observation)>, k: nat)
    requires k < |AlertLog(repeatSeconds, log)|
    ensures var alert := AlertLog(repeatSeconds, log)[k];
      exists i :: 0 <= i < |log| && log[i] == (alert.0, Observation(false, alert.1))
    decreases |log|
  {
    hide LastAlerted;
    var front, last := Front(log), Last(log);
    assert log == front + [(last.0, last.1)];
    ProjectStep(front, last.0, last.1);
    if k < |AlertLog(repeatSeconds, front)| {
      LoggedDown(repeatSeconds, front, k);
      var alert := AlertLog(repeatSeconds, front)[k];
      var i :| 0 <= i < |front| && front[i] == (alert.0, Observation(false, alert.1));
      assert log[i] == front[i];
    } else {
      assert log[|log| - 1] == (last.0, Observation(false, last.1.now));
    }
  }

  // ---------- one outage ----------

  /** The script was up, or never seen, before the outage. */
  ghost predicate Armed(before: seq<Observation>) {
    before == [] || Last(before).up
  }

  /** An unbroken stretch of down checks under a clock that never steps back. */
  ghost predicate Outage(down: seq<Observation>) {
    && (forall i :: 0 <= i < |down| ==> !down[i].up)
    && (forall i, j :: 0 <= i <= j < |down| ==> down[i].now <= down[j].now)
  }

  /** Check `n` of the outage raises an alert. */
  ghost predicate AlertAt(repeatSeconds: real, before: seq<Observation>, down: seq<Observation>, n: int) {
    0 <= n < |down| && Alerts(repeatSeconds, before + down[..n + 1])
  }

  lemma OutageStep(repeatSeconds: real, before: seq<Observation>, down: seq<Observation>, n: nat)
    requires Armed(before) && Outage(down) && n < |down|
    ensures LastAlerted(repeatSeconds, before + down[..0]) == None
    ensures AlertAt(repeatSeconds, before, down, n)
       <==> Due(repeatSeconds, LastAlerted(repeatSeconds, before + down[..n]), down[n])
    ensures LastAlerted(repeatSeconds, before + down[..n + 1])
         == if AlertAt(repeatSeconds, before, down, n) then Some(down[n].now)
            else LastAlerted(repeatSeconds, before + down[..n])
  {
    assert before + down[..0] == before;
    var history := before + down[..n + 1];
    assert Front(history) == before + down[..n] && Last(history) == down[n];
  }

  /** Any up check re-arms: the first down check after it alerts exactly when the clock has reached repeatSeconds. */
  lemma FirstDownCheck(repeatSeconds: real, before: seq<Observation>, down: seq<Observation>)
    requires Armed(before) && Outage(down) && down != []
    ensures AlertAt(repeatSeconds, before, down, 0) <==> down[0].now >= repeatSeconds
  {
    OutageStep(repeatSeconds, before, down, 0);
  }

  /** After every check of an outage the entry is the latest alert, and less than repeatSeconds old. */
  lemma {:induction false} LatestAlert(repeatSeconds: real, before: seq<Observation>, down: seq<Observation>, n: nat)
      returns (i: nat)
    requires Armed(before) && Outage(down) && n < |down| && 0.0 < repeatSeconds <= down[0].now
    ensures i <= n && AlertAt(repeatSeconds, before, down, i)
    ensures LastAlerted(repeatSeconds, before + down[..n + 1]) == Some(down[i].now)
    ensures forall k :: i < k <= n ==> !AlertAt(repeatSeconds, before, down, k)
    ensures down[n].now - down[i].now < repeatSeconds
  {
    hide Alerts, LastAlerted;
    OutageStep(repeatSeconds, before, down, n);
    if n == 0 || AlertAt(repeatSeconds, before, down, n) {
      return n;
    }
    i := LatestAlert(repeatSeconds, before, down, n - 1);
    assert !AlertAt(repeatSeconds, before, down, n);
  }

  /** Two alerts of one outage are at least repeatSeconds apart. */
  lemma AlertsSpaced(repeatSeconds: real, before: seq<Observation>, down: seq<Observation>, i: nat, j: nat)
    requires Armed(before) && Outage(down) && i < j < |down| && 0.0 < repeatSeconds <= down[0].now
    requires AlertAt(repeatSeconds, before, down, i) && AlertAt(repeatSeconds, before, down, j)
    ensures down[j].now - down[i].now >= repeatSeconds
  {
    hide Alerts, LastAlerted;
    var k := LatestAlert(repeatSeconds, before, down, j - 1);
    OutageStep(repeatSeconds, before, down, j);
    assert k >= i;
  }

  /** While an outage lasts and checks are at most `gap` apart, the next alert comes within repeatSeconds + gap. */
  lemma AlertsKeepComing(
    repeatSeconds: real, before: seq<Observation>, down: seq<Observation>, gap: real, i: nat, j: nat)
    requires Armed(before) && Outage(down) && i < j < |down| && 0.0 < repeatSeconds <= down[0].now
    requires forall k :: 0 <= k < |down| - 1 ==> down[k + 1].now - down[k].now <= gap
    requires AlertAt(repeatSeconds, before, down, i)
    requires forall k :: i < k < j ==> !AlertAt(repeatSeconds, before, down, k)
    ensures down[j].now - down[i].now < repeatSeconds + gap
  {
    hide Alerts, LastAlerted;
    var k := LatestAlert(repeatSeconds, before, down, j - 1);
    assert k == i;
    assert down[j - 1 + 1].now - down[j - 1].now <= gap;
  }
}
