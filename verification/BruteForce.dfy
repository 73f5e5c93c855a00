/** The Modbus brute-force tracker: append, prune, and reset on an alert. */
module BruteForce {
  import opened Common
  import opened SlidingWindow
  import Modbus

  datatype Config = Config(threshold: int, window: real)

  /** `Other` is a packet without an IP or Raw layer. */
  datatype Packet = Other | Traffic(srcIp: string, payload: seq<int>)

  datatype Alert = Alert(srcIp: string, errorCount: nat)

  const FUNCTION_OFFSET := 7

  predicate IsException(packet: Packet) {
    packet.Traffic? && |packet.payload| >= 8 && packet.payload[FUNCTION_OFFSET] > 128
  }

  /** The source's list once the present exception is appended and the list pruned. */
  function Admit(cfg: Config, pending: seq<real>, now: real): seq<real> {
    Keep(pending + [now], now - cfg.window)
  }

  /** What stays pending after the exceptions `history` of one source. */
  function Pending(cfg: Config, history: seq<real>): seq<real>
    decreases |history|
  {
    if history == [] then []
    else
      var admitted := Admit(cfg, Pending(cfg, Front(history)), Last(history));
      if |admitted| >= cfg.threshold then [] else admitted
  }

  /** The list with the last exception of `history` appended, before it is pruned. */
  function Extended(cfg: Config, history: seq<real>): seq<real>
    requires history != []
  {
    Pending(cfg, Front(history)) + [Last(history)]
  }

  /** The list the last exception of `history` is judged on. */
  function Judged(cfg: Config, history: seq<real>): seq<real>
    requires history != []
  {
    Admit(cfg, Pending(cfg, Front(history)), Last(history))
  }

  predicate Fires(cfg: Config, history: seq<real>) {
    history != [] && |Judged(cfg, history)| >= cfg.threshold
  }

  /** The evidence of every alert, in order. */
  ghost function Evidence(cfg: Config, history: seq<real>): seq<seq<real>>
    decreases |history|
  {
    if history == [] then []
    else Evidence(cfg, Front(history)) + (if Fires(cfg, history) then [Judged(cfg, history)] else [])
  }

  /** The exceptions that left the list because they were too old. */
  ghost function Expired(cfg: Config, history: seq<real>): multiset<real>
    decreases |history|
  {
    if history == [] then multiset{}
    else Expired(cfg, Front(history)) + (multiset(Extended(cfg, history)) - multiset(Judged(cfg, history)))
  }

  /** The alerts of a mixed log of exceptions. */
  ghost function Alerts(cfg: Config, log: seq<(string, real)>): seq<Alert>
    decreases |log|
  {
    if log == [] then [] else Alerts(cfg, Front(log)) + LastAlert(cfg, log)
  }

  ghost function LastAlert(cfg: Config, log: seq<(string, real)>): seq<Alert>
    requires log != []
  {
    var history := Project(log, Last(log).0);
    if Fires(cfg, history) then [Alert(Last(log).0, |Judged(cfg, history)|)] else []
  }

  class Tracker {
    const cfg: Config
    var errorTracker: map<string, seq<real>>
    var alerts: seq<Alert>
    ghost var log: seq<(string, real)>

    /** Each source's list depends on that source's own exceptions only. */
    ghost predicate Valid()
      reads this
    {
      && (forall src :: Lookup(errorTracker, src) == Pending(cfg, Project(log, src)))
      && alerts == Alerts(cfg, log)
    }

    constructor (cfg: Config)
      ensures Valid() && this.cfg == cfg && log == []
    {
      this.cfg := cfg;
      errorTracker, alerts, log := map[], [], [];
    }

    method ProcessPacket(packet: Packet, currentTime: real)
      requires Valid()
      modifies this
      ensures Valid()
      ensures log == old(log) + if IsException(packet) then [(packet.srcIp, currentTime)] else []
      ensures alerts == old(alerts) + if IsException(packet) then LastAlert(cfg, log) else []
      ensures !IsException(packet) ==> errorTracker == old(errorTracker)
    {
      hide Pending, Alerts, Project, LastAlert;
      if packet.Traffic? {
        if |packet.payload| >= 8 {
          var functionCode, srcIp := packet.payload[FUNCTION_OFFSET], packet.srcIp;
          if functionCode > 128 {
            RecordException(srcIp, currentTime);
          }
        }
      }
    }

    /** Append, prune, compare and reset for one exception. */
    method RecordException(srcIp: string, currentTime: real)
      requires Valid()
      modifies this
      ensures Valid()
      ensures log == old(log) + [(srcIp, currentTime)]
      ensures alerts == old(alerts) + LastAlert(cfg, log)
    {
      hide Pending, Keep, Alerts, Project;
      LogStep(cfg, log, srcIp, currentTime);
      log := log + [(srcIp, currentTime)];
      errorTracker := errorTracker[srcIp := Lookup(errorTracker, srcIp) + [currentTime]];
      errorTracker := errorTracker[srcIp := Keep(errorTracker[srcIp], currentTime - cfg.window)];
      if |errorTracker[srcIp]| >= cfg.threshold {
        alerts := alerts + [Alert(srcIp, |errorTracker[srcIp]|)];
        errorTracker := errorTracker[srcIp := []];
      }
    }
  }

  lemma LogStep(cfg: Config, log: seq<(string, real)>, src: string, now: real)
    ensures var longer, history := log + [(src, now)], Project(log, src);
      && Project(longer, src) == history + [now]
      && Judged(cfg, history + [now]) == Admit(cfg, Pending(cfg, history), now)
      && Pending(cfg, Project(longer, src))
         == (if Fires(cfg, history + [now]) then [] else Judged(cfg, history + [now]))
      && Alerts(cfg, longer) == Alerts(cfg, log) + LastAlert(cfg, longer)
      && forall other :: other != src ==> Project(longer, other) == Project(log, other)
  {
    ProjectStep(log, src, now);
    assert Front(log + [(src, now)]) == log;
    assert Front(Project(log, src) + [now]) == Project(log, src);
  }

  // ---------- what counts as an exception ----------

  /** The exception answer to a request: the function code plus 128, and an exception code. */
  function ExceptionResponse(asked: Modbus.Byte, code: Modbus.Byte, unitId: Modbus.Byte): seq<Modbus.Byte>
    requires asked < 128
  {
    [0, 1, 0, 0, 0, 3, unitId, asked + 128, code]
  }

  /** A payload counts exactly if it has an octet 7 above 128. */
  lemma ExceptionsCounted(src: string, asked: Modbus.Byte, code: Modbus.Byte, unitId: Modbus.Byte)
    requires asked < 128
    ensures IsException(Traffic(src, ExceptionResponse(asked, code, unitId))) <==> asked >= 1
  {
  }

  /** Answers that are no exceptions never count: reads and the echoes of writes. */
  lemma AnswersNotCounted(
    src: string, register: Modbus.Register, value: Modbus.Register, values: seq<Modbus.Register>,
    unitId: Modbus.Byte)
    ensures !IsException(Traffic(src, Modbus.SingleWrite(register, value, unitId)))
    ensures |values| <= 127 ==>
              && Modbus.ReadResponse(values, unitId).Some?
              && !IsException(Traffic(src, Modbus.ReadResponse(values, unitId).value))
              && Modbus.MultipleWrite(register, values, unitId).Some?
              && !IsException(Traffic(src, Modbus.MultipleWrite(register, values, unitId).value))
  {
    Modbus.BuiltOctets(register, value, values, unitId);
    if |values| <= 127 {
      Modbus.ReadResponseLayout(values, unitId);
      Modbus.MultipleWriteLayout(register, values, unitId);
    }
    hide Modbus.SingleWrite, Modbus.ReadResponse, Modbus.MultipleWrite;
  }

  /** Octet by octet: short payloads and everything up to 128 are ignored. */
  lemma ExceptionExactly(packet: Packet)
    ensures IsException(packet)
       <==> packet.Traffic? && |packet.payload| >= 8 && packet.payload[7] >= 129
  {
  }

  // ---------- conservation ----------

  ghost function Union(lists: seq<seq<real>>): multiset<real> {
    if lists == [] then multiset{} else Union(Front(lists)) + multiset(Last(lists))
  }

  lemma {:induction false} KeepMultiset(times: seq<real>, cutoff: real)
    ensures multiset(Keep(times, cutoff)) <= multiset(times)
  {
    if times != [] {
      hide Keep;
      KeepMultiset(Front(times), cutoff);
      assert times == Front(times) + [Last(times)];
      KeepStep(times, cutoff);
    }
  }

  /** Less than the threshold is ever pending, for any clock. */
  lemma PendingBelowThreshold(cfg: Config, history: seq<real>)
    requires cfg.threshold >= 1
    ensures |Pending(cfg, history)| < cfg.threshold
  {
  }

  lemma {:induction false} KeepShrinks(times: seq<real>, cutoff: real)
    ensures |Keep(times, cutoff)| <= |times|
  {
    if times != [] {
      KeepShrinks(Front(times), cutoff);
    }
  }

  /** Every alert reports exactly the threshold. */
  lemma FiresWithThreshold(cfg: Config, history: seq<real>)
    requires cfg.threshold >= 1 && Fires(cfg, history)
    ensures |Judged(cfg, history)| == cfg.threshold
  {
    PendingBelowThreshold(cfg, Front(history));
    KeepShrinks(Pending(cfg, Front(history)) + [Last(history)], Last(history) - cfg.window);
  }

  /**
   * For any clock, every exception is exactly once in the evidence of an alert, expired or
   * pending; each alert takes exactly the threshold of them.
   */
  lemma Conservation(cfg: Config, history: seq<real>)
    requires cfg.threshold >= 1
    ensures multiset(history)
         == Union(Evidence(cfg, history)) + Expired(cfg, history) + multiset(Pending(cfg, history))
    ensures forall i :: 0 <= i < |Evidence(cfg, history)| ==> |Evidence(cfg, history)[i]| == cfg.threshold
    ensures |Pending(cfg, history)| < cfg.threshold
  {
    hide Pending, Evidence, Expired, Union;
    PendingBelowThreshold(cfg, history);
    EvidenceSizes(cfg, history);
    EveryExceptionAccounted(cfg, history);
  }

  ghost predicate Accounted(cfg: Config, history: seq<real>) {
    multiset(history) == Union(Evidence(cfg, history)) + Expired(cfg, history) + multiset(Pending(cfg, history))
  }

  lemma {:induction false} EveryExceptionAccounted(cfg: Config, history: seq<real>)
    ensures Accounted(cfg, history)
    decreases |history|
  {
    if history == [] {
      assert Evidence(cfg, []) == [] && Pending(cfg, []) == [];
    } else {
      hide Accounted;
      EveryExceptionAccounted(cfg, Front(history));
      AccountedStep(cfg, history);
    }
  }

  lemma AccountedStep(cfg: Config, history: seq<real>)
    requires history != [] && Accounted(cfg, Front(history))
    ensures Accounted(cfg, history)
  {
    hide Pending, Judged, Evidence, Expired, Union, Extended;
    JudgedMultiset(cfg, history);
    ConservationStep(cfg, history);
    MultisetAppend(Front(history), Last(history));
    assert history == Front(history) + [Last(history)];
    Associate(Union(Evidence(cfg, Front(history))) + Expired(cfg, Front(history)),
              multiset(Pending(cfg, Front(history))), multiset{Last(history)});
  }

  lemma {:induction false} EvidenceSizes(cfg: Config, history: seq<real>)
    requires cfg.threshold >= 1
    ensures forall i :: 0 <= i < |Evidence(cfg, history)| ==> |Evidence(cfg, history)[i]| == cfg.threshold
    decreases |history|
  {
    hide Keep;
    if history != [] {
      EvidenceSizes(cfg, Front(history));
      if Fires(cfg, history) {
        FiresWithThreshold(cfg, history);
      }
    }
  }

  lemma Associate(a: multiset<real>, b: multiset<real>, c: multiset<real>)
    ensures (a + b) + c == a + (b + c)
  {
  }

  lemma Regroup(u: multiset<real>, e: multiset<real>, x: multiset<real>, judged: multiset<real>)
    requires judged <= x
    ensures (u + judged) + (e + (x - judged)) + multiset{} == u + e + x
    ensures u + (e + (x - judged)) + judged == u + e + x
  {
  }

  lemma MultisetAppend(times: seq<real>, t: real)
    ensures multiset(times + [t]) == multiset(times) + multiset{t}
  {
  }

  lemma JudgedMultiset(cfg: Config, history: seq<real>)
    requires history != []
    ensures multiset(Judged(cfg, history)) <= multiset(Extended(cfg, history))
    ensures multiset(Extended(cfg, history)) == multiset(Pending(cfg, Front(history))) + multiset{Last(history)}
  {
    hide Pending, Keep;
    MultisetAppend(Pending(cfg, Front(history)), Last(history));
    KeepMultiset(Extended(cfg, history), Last(history) - cfg.window);
  }

  lemma PendingAfter(cfg: Config, history: seq<real>)
    requires history != []
    ensures Pending(cfg, history) == if Fires(cfg, history) then [] else Judged(cfg, history)
  {
    hide Keep;
  }

  /** One exception moves what was pending, and itself, to the evidence, the expired or the pending. */
  lemma ConservationStep(cfg: Config, history: seq<real>)
    requires history != []
    requires multiset(Judged(cfg, history)) <= multiset(Extended(cfg, history))
    ensures Union(Evidence(cfg, history)) + Expired(cfg, history) + multiset(Pending(cfg, history))
         == Union(Evidence(cfg, Front(history))) + Expired(cfg, Front(history)) + multiset(Extended(cfg, history))
  {
    hide Keep, Extended, Judged;
    var judged := Judged(cfg, history);
    Regroup(Union(Evidence(cfg, Front(history))), Expired(cfg, Front(history)),
            multiset(Extended(cfg, history)), multiset(judged));
    PendingAfter(cfg, history);
    hide Pending, Fires;
    if Fires(cfg, history) {
      assert Front(Evidence(cfg, Front(history)) + [judged]) == Evidence(cfg, Front(history));
      assert Union(Evidence(cfg, history)) == Union(Evidence(cfg, Front(history))) + multiset(judged);
    } else {
      assert Evidence(cfg, history) == Evidence(cfg, Front(history));
    }
  }

  lemma {:induction false} UnionSize(lists: seq<seq<real>>, size: nat)
    requires forall i :: 0 <= i < |lists| ==> |lists[i]| == size
    ensures |Union(lists)| == Product(|lists|, size)
  {
    if lists != [] {
      UnionSize(Front(lists), size);
      ProductNext(|Front(lists)|, size);
    }
  }

  function Product(n: nat, size: nat): nat { n * size }

  lemma ProductNext(n: nat, size: nat)
    ensures Product(n + 1, size) == Product(n, size) + size
  {
  }

  /** exceptions = threshold * alerts + expired + pending. */
  lemma ConservationCount(cfg: Config, history: seq<real>)
    requires cfg.threshold >= 1
    ensures |history|
         == Product(|Evidence(cfg, history)|, cfg.threshold) + |Expired(cfg, history)| + |Pending(cfg, history)|
  {
    hide Product;
    Conservation(cfg, history);
    UnionSize(Evidence(cfg, history), cfg.threshold);
    assert |multiset(history)| == |history|;
    assert |multiset(Pending(cfg, history))| == |Pending(cfg, history)|;
  }

  /** What expires was seen, and is a full window older than an exception of the source that came no earlier. */
  lemma {:induction false} ExpiredIsOld(cfg: Config, history: seq<real>, t: real)
    requires t in Expired(cfg, history)
    ensures exists i, j :: 0 <= j <= i < |history| && history[j] == t && t <= history[i] - cfg.window
    decreases |history|
  {
    hide Pending, Keep, Judged, Extended;
    var front, now := Front(history), Last(history);
    if t in Expired(cfg, front) {
      ExpiredIsOld(cfg, front, t);
      var i, j :| 0 <= j <= i < |front| && front[j] == t && t <= front[i] - cfg.window;
      assert history[i] == front[i] && history[j] == front[j];
    } else {
      assert t in multiset(Extended(cfg, history)) - multiset(Judged(cfg, history));
      JudgedIsKept(cfg, history);
      DroppedIsOld(Extended(cfg, history), now - cfg.window, t);
      assert history[|history| - 1] == now;
      ExtendedMembers(cfg, history, t);
      var j :| 0 <= j < |history| && history[j] == t;
    }
  }

  lemma ExtendedMembers(cfg: Config, history: seq<real>, t: real)
    requires history != [] && t in multiset(Extended(cfg, history))
    ensures t in history
  {
    hide Pending, IsSubsequence;
    var front := Front(history);
    PendingSubsequence(cfg, front);
    SubsequenceMembers(Pending(cfg, front), front);
    assert history == front + [Last(history)];
    if t != Last(history) {
      assert t in Pending(cfg, front);
    }
  }

  lemma JudgedIsKept(cfg: Config, history: seq<real>)
    requires history != []
    ensures Judged(cfg, history) == Keep(Extended(cfg, history), Last(history) - cfg.window)
  {
    hide Keep, Pending;
  }

  lemma {:induction false} DroppedIsOld(times: seq<real>, cutoff: real, t: real)
    requires multiset(times)[t] > multiset(Keep(times, cutoff))[t]
    ensures t <= cutoff
  {
    hide Keep;
    KeepNothing(cutoff);
    KeepStep(times, cutoff);
    assert times == Front(times) + [Last(times)];
    if t > cutoff {
      if multiset(Front(times))[t] > multiset(Keep(Front(times), cutoff))[t] {
        DroppedIsOld(Front(times), cutoff, t);
      }
    }
  }

  // ---------- the tracker's own alerts ----------

  /** The alerts of one source. */
  function AlertsOf(alerts: seq<Alert>, src: string): seq<Alert>
    decreases |alerts|
  {
    if alerts == [] then []
    else AlertsOf(Front(alerts), src) + (if Last(alerts).srcIp == src then [Last(alerts)] else [])
  }

  lemma AlertsOfAppend(alerts: seq<Alert>, alert: Alert, src: string)
    ensures AlertsOf(alerts + [alert], src) == AlertsOf(alerts, src) + (if alert.srcIp == src then [alert] else [])
  {
    assert Front(alerts + [alert]) == alerts;
  }

  /** One alert per piece of evidence, reporting its size. */
  ghost predicate Reports(alerts: seq<Alert>, evidence: seq<seq<real>>, src: string) {
    && |alerts| == |evidence|
    && forall i :: 0 <= i < |alerts| ==> alerts[i] == Alert(src, |evidence[i]|)
  }

  lemma EvidenceStep(cfg: Config, history: seq<real>, now: real)
    ensures Evidence(cfg, history + [now])
         == Evidence(cfg, history) + (if Fires(cfg, history + [now]) then [Judged(cfg, history + [now])] else [])
  {
    hide Fires, Judged;
    assert Front(history + [now]) == history;
  }

  lemma AlertsStep(cfg: Config, log: seq<(string, real)>, src: string, now: real)
    ensures var history := Project(log, src) + [now];
      Alerts(cfg, log + [(src, now)])
      == Alerts(cfg, log) + (if Fires(cfg, history) then [Alert(src, |Judged(cfg, history)|)] else [])
  {
    hide Fires, Judged;
    ProjectStep(log, src, now);
    assert Front(log + [(src, now)]) == log;
  }

  /** In every mixed run the alerts of a source report its own evidence, one for one. */
  lemma {:induction false} AlertsReportEvidence(cfg: Config, log: seq<(string, real)>, src: string)
    ensures Reports(AlertsOf(Alerts(cfg, log), src), Evidence(cfg, Project(log, src)), src)
    decreases |log|
  {
    hide AlertsOf, Alerts, Evidence, Project, Reports;
    if log == [] {
      NothingReported(cfg, src);
    } else {
      AlertsReportEvidence(cfg, Front(log), src);
      ReportsStep(cfg, Front(log), Last(log).0, Last(log).1, src);
      assert log == Front(log) + [(Last(log).0, Last(log).1)];
    }
  }

  lemma NothingReported(cfg: Config, src: string)
    ensures Reports(AlertsOf(Alerts(cfg, []), src), Evidence(cfg, Project([], src)), src)
  {
  }

  lemma ReportsStep(cfg: Config, log: seq<(string, real)>, key: string, now: real, src: string)
    requires Reports(AlertsOf(Alerts(cfg, log), src), Evidence(cfg, Project(log, src)), src)
    ensures var longer := log + [(key, now)];
      Reports(AlertsOf(Alerts(cfg, longer), src), Evidence(cfg, Project(longer, src)), src)
  {
    hide AlertsOf, Alerts, Evidence, Project, Fires, Judged;
    var history := Project(log, key);
    AlertsStep(cfg, log, key, now);
    ProjectStep(log, key, now);
    EvidenceStep(cfg, history, now);
    if Fires(cfg, history + [now]) {
      AlertsOfAppend(Alerts(cfg, log), Alert(key, |Judged(cfg, history + [now])|), src);
    } else {
      assert Alerts(cfg, log) + [] == Alerts(cfg, log);
      assert Evidence(cfg, history) + [] == Evidence(cfg, history);
    }
    if key != src {
      var own := AlertsOf(Alerts(cfg, log), src);
      assert own + [] == own;
    }
  }

  /**
   * On every valid tracker and for every source: exceptions = threshold * alerts + expired +
   * pending, where the alerts are the logged ones and each reports exactly the threshold.
   */
  lemma TrackerConservation(tracker: Tracker, src: string)
    requires tracker.Valid() && tracker.cfg.threshold >= 1
    ensures var history, own := Project(tracker.log, src), AlertsOf(tracker.alerts, src);
      && |history| == Product(|own|, tracker.cfg.threshold) + |Expired(tracker.cfg, history)|
                      + |Lookup(tracker.errorTracker, src)|
      && (forall i :: 0 <= i < |own| ==> own[i] == Alert(src, tracker.cfg.threshold))
      && |Lookup(tracker.errorTracker, src)| < tracker.cfg.threshold
  {
    hide AlertsOf, Alerts, Evidence, Project, Pending, Expired, Product;
    var history := Project(tracker.log, src);
    AlertsReportEvidence(tracker.cfg, tracker.log, src);
    EvidenceSizes(tracker.cfg, history);
    ConservationCount(tracker.cfg, history);
    PendingBelowThreshold(tracker.cfg, history);
    assert Lookup(tracker.errorTracker, src) == Pending(tracker.cfg, history);
  }

  // ---------- soundness and completeness ----------

  lemma EmptySubsequence(history: seq<real>)
    ensures IsSubsequence([], history)
  {
  }

  lemma NothingPending(cfg: Config)
    ensures Pending(cfg, []) == []
  {
  }

  lemma {:induction false} PendingSubsequence(cfg: Config, history: seq<real>)
    ensures IsSubsequence(Pending(cfg, history), history)
    ensures history != [] ==> IsSubsequence(Judged(cfg, history), history)
    decreases |history|
  {
    hide IsSubsequence, Keep, Pending, Judged, Fires;
    EmptySubsequence(history);
    if history == [] {
      NothingPending(cfg);
    } else {
      PendingSubsequence(cfg, Front(history));
      SubsequenceExtend(Pending(cfg, Front(history)), Front(history), Last(history));
      assert history == Front(history) + [Last(history)];
      KeepSubsequence(Extended(cfg, history), Last(history) - cfg.window);
      JudgedIsKept(cfg, history);
      SubsequenceTransitive(Judged(cfg, history), Extended(cfg, history), history);
      PendingAfter(cfg, history);
    }
  }

  lemma {:induction false} SubsequenceMembers(sub: seq<real>, full: seq<real>)
    requires IsSubsequence(sub, full)
    ensures forall t :: t in sub ==> t in full
    decreases |full|
  {
    if sub != [] {
      assert sub == Front(sub) + [Last(sub)] && full == Front(full) + [Last(full)];
      if Last(sub) == Last(full) && IsSubsequence(Front(sub), Front(full)) {
        SubsequenceMembers(Front(sub), Front(full));
      } else {
        SubsequenceMembers(sub, Front(full));
      }
    }
  }

  /** Under a clock that never steps back, an alert has `threshold` exceptions spanning less than the window. */
  lemma AlertSound(cfg: Config, history: seq<real>)
    requires cfg.threshold >= 1 && NonDecreasing(history) && Fires(cfg, history)
    ensures var evidence := Judged(cfg, history);
      && IsSubsequence(evidence, history) && |evidence| == cfg.threshold
      && forall s, t :: s in evidence && t in evidence ==> t - s < cfg.window
  {
    var evidence, now := Judged(cfg, history), Last(history);
    PendingSubsequence(cfg, history);
    FiresWithThreshold(cfg, history);
    KeepMembers(Pending(cfg, Front(history)) + [now], now - cfg.window);
    SubsequenceMembers(evidence, history);
  }

  /** While no alert is raised, a burst inside the window stays pending as a whole. */
  lemma {:induction false} BurstStaysPending(cfg: Config, before: seq<real>, burst: seq<real>) returns (m: nat)
    requires Burst(cfg, burst) && Silent(cfg, before, burst)
    ensures m <= |Pending(cfg, before + burst)| && Pending(cfg, before + burst)[m..] == burst
  {
    if burst == [] {
      m := |Pending(cfg, before + burst)|;
    } else {
      hide Keep, Fires;
      var front := Front(burst);
      SilentFront(cfg, before, burst);
      m := BurstStaysPending(cfg, before, front);
      m := BurstSurvives(cfg, Pending(cfg, before + front), m, burst);
    }
  }

  /** The exceptions all lie less than the window apart. */
  ghost predicate Burst(cfg: Config, burst: seq<real>) {
    forall i, j :: 0 <= i <= j < |burst| ==> burst[j] - burst[i] < cfg.window
  }

  ghost predicate Silent(cfg: Config, before: seq<real>, burst: seq<real>) {
    forall n :: 0 < n <= |burst| ==> !Fires(cfg, before + burst[..n])
  }

  lemma SilentFront(cfg: Config, before: seq<real>, burst: seq<real>)
    requires burst != [] && Silent(cfg, before, burst)
    ensures Silent(cfg, before, Front(burst))
    ensures Pending(cfg, before + burst) == Admit(cfg, Pending(cfg, before + Front(burst)), Last(burst))
  {
    hide Keep;
    forall n | 0 < n <= |Front(burst)|
      ensures !Fires(cfg, before + Front(burst)[..n])
    {
      assert Front(burst)[..n] == burst[..n];
    }
    assert Front(before + burst) == before + Front(burst);
    assert burst[..|burst|] == burst;
    assert !Fires(cfg, before + burst);
  }

  lemma BurstSurvives(cfg: Config, pending: seq<real>, m: nat, burst: seq<real>) returns (k: nat)
    requires burst != [] && m <= |pending| && pending[m..] == Front(burst) && Burst(cfg, burst)
    ensures k <= |Admit(cfg, pending, Last(burst))| && Admit(cfg, pending, Last(burst))[k..] == burst
  {
    hide Keep;
    var now := Last(burst);
    assert pending + [now] == pending[..m] + burst;
    KeepConcat(pending[..m], burst, now - cfg.window);
    KeepAll(burst, now - cfg.window);
    k := |Keep(pending[..m], now - cfg.window)|;
  }

  /**
   * Whatever came before, among any `threshold` successive exceptions of one source that
   * span less than the window at least one raises an alert.
   */
  lemma BurstAlerts(cfg: Config, before: seq<real>, burst: seq<real>)
    requires cfg.threshold >= 1 && |burst| == cfg.threshold && Burst(cfg, burst)
    ensures exists n :: 0 < n <= |burst| && Fires(cfg, before + burst[..n])
  {
    if Silent(cfg, before, burst) {
      var m := BurstStaysPending(cfg, before, burst);
      PendingBelowThreshold(cfg, before + burst);
    }
  }
}
