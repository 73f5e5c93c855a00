/** The gateway-side responder: at most one drop per source, once its offences cluster. */
module Responder {
  import opened Common
  import opened SlidingWindow
  import opened OffenceWindow

  /** A line of the alert log; `validIp` is the outcome of parsing the source as an address. */
  datatype Line =
    | Malformed
    | AlertLine(alertType: Option<string>, sourceIp: Option<string>, validIp: bool)

  const WATCH_TYPES := {"UNAUTHORIZED_MODBUS_WRITE", "DNP3_WRITE_UNAUTHORIZED", "DNP3_UNAUTHORIZED_CONTROL"}

  /** A watched alert with a usable source. */
  predicate IsOffence(line: Line) {
    && line.AlertLine?
    && line.alertType.Some? && line.alertType.value in WATCH_TYPES
    && line.sourceIp.Some? && line.sourceIp.value != "" && line.validIp
  }

  class GatewayResponder {
    const cfg: Config
    var state: map<string, seq<real>>
    var blocked: set<string>
    /** The sources for which a drop was applied, in order. */
    var drops: seq<string>
    ghost var log: seq<(string, real)>

    ghost predicate Valid()
      reads this
    {
      && (forall src :: src in blocked <==> Tripped(cfg, Project(log, src)))
      && (forall src :: src !in blocked ==> Lookup(state, src) == Stored(cfg, Project(log, src)))
      && (forall src :: src in blocked <==> src in drops)
      && (forall i, j :: 0 <= i < j < |drops| ==> drops[i] != drops[j])
    }

    constructor (cfg: Config)
      ensures Valid() && this.cfg == cfg && log == []
    {
      this.cfg := cfg;
      state, blocked, drops, log := map[], {}, [], [];
    }

    method ProcessLine(line: Line, now: real)
      requires Valid()
      modifies this
      ensures Valid()
      ensures log == old(log) + if IsOffence(line) then [(line.sourceIp.value, now)] else []
      ensures old(blocked) <= blocked && old(drops) <= drops
      ensures drops != old(drops)
         <==> IsOffence(line) && Tripped(cfg, Project(log, line.sourceIp.value))
              && !Tripped(cfg, Project(old(log), line.sourceIp.value))
      ensures drops != old(drops) ==> drops == old(drops) + [line.sourceIp.value]
    {
      hide Tripped, Stored, Keep, Project;
      if line == Malformed {
        return;
      }
      if line.alertType == None || line.alertType.value !in WATCH_TYPES {
        return;
      }
      if line.sourceIp == None || line.sourceIp.value == "" {
        return;
      }
      var sourceIp := line.sourceIp.value;
      LogStep(cfg, log, sourceIp, now);
      if sourceIp in blocked {
        if line.validIp {
          log := log + [(sourceIp, now)];
        }
        return;
      }
      if !line.validIp {
        return;
      }
      log := log + [(sourceIp, now)];
      var crossed;
      state, crossed := Record(cfg, state, sourceIp, now);
      if crossed {
        drops := drops + [sourceIp];
        blocked := blocked + {sourceIp};
      }
    }
  }

  lemma LogStep(cfg: Config, log: seq<(string, real)>, src: string, now: real)
    ensures var longer, history := log + [(src, now)], Project(log, src);
      && Project(longer, src) == history + [now]
      && (Tripped(cfg, history + [now]) <==>
          Tripped(cfg, history) || Crosses(cfg, history + [now]))
      && Stored(cfg, history + [now]) == Recorded(cfg, Stored(cfg, history), now)
      && forall other :: other != src ==> Project(longer, other) == Project(log, other)
  {
    hide Keep, Project;
    ProjectStep(log, src, now);
    assert Front(Project(log, src) + [now]) == Project(log, src);
  }

  /** Over every run: a source is blocked exactly when `threshold` of its offences span less than the window. */
  lemma BlockedExactly(responder: GatewayResponder, src: string)
    requires responder.Valid() && responder.cfg.Sane() && NonDecreasing(Project(responder.log, src))
    ensures src in responder.blocked
       <==> exists p, q :: Cluster(responder.cfg, Project(responder.log, src), p, q)
  {
    hide Tripped, Project, Cluster;
    var history := Project(responder.log, src);
    TrippedExactly(responder.cfg, history);
    assert src in responder.blocked <==> Tripped(responder.cfg, history);
  }

  // ---------- which lines are offences ----------

  /** With an address that parses, exactly the three write and control alerts are offences; an empty source never is. */
  lemma OffencesExactly(alertType: string, sourceIp: string)
    ensures IsOffence(AlertLine(Some(alertType), Some(sourceIp), true))
       <==> && sourceIp != ""
            && (alertType == "UNAUTHORIZED_MODBUS_WRITE" || alertType == "DNP3_WRITE_UNAUTHORIZED"
                || alertType == "DNP3_UNAUTHORIZED_CONTROL")
    ensures !IsOffence(AlertLine(Some(alertType), Some(sourceIp), false))
    ensures !IsOffence(AlertLine(None, Some(sourceIp), true)) && !IsOffence(AlertLine(Some(alertType), None, true))
    ensures !IsOffence(Malformed)
  {
  }
}
