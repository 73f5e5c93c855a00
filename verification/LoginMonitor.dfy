/** The login-failure monitor: the same window, with an alert on every failure over the threshold. */
module LoginMonitor {
  import opened Common
  import opened SlidingWindow
  import opened OffenceWindow

  /** The fields of a parsed access-log entry; absent fields read as empty strings. */
  datatype Line = Malformed | Entry(request: string, location: string, remoteAddr: string)

  datatype Alert = Alert(sourceIp: string, attemptCount: nat)

  predicate StartsAt(text: string, i: nat, part: string) {
    i + |part| <= |text| && text[i..i + |part|] == part
  }

  predicate Contains(text: string, part: string) {
    exists i :: 0 <= i <= |text| && StartsAt(text, i, part)
  }

  /** A failed login redirects back to the login page. */
  predicate IsLoginFailure(line: Line) {
    && line.Entry? && "POST " <= line.request
    && Contains(line.request, "login.htm") && Contains(line.location, "login.htm")
  }

  predicate IsAttempt(line: Line) {
    IsLoginFailure(line) && line.remoteAddr != ""
  }

  /** The alerts of a mixed log of failures. */
  ghost function Alerts(cfg: Config, log: seq<(string, real)>): seq<Alert>
    decreases |log|
  {
    if log == [] then [] else Alerts(cfg, Front(log)) + LastAlert(cfg, log)
  }

  ghost function LastAlert(cfg: Config, log: seq<(string, real)>): seq<Alert>
    requires log != []
  {
    var history := Project(log, Last(log).0);
    if Crosses(cfg, history) then [Alert(Last(log).0, |Stored(cfg, history)|)] else []
  }

  class Monitor {
    const cfg: Config
    var state: map<string, seq<real>>
    var alerted: set<string>
    var alerts: seq<Alert>
    ghost var log: seq<(string, real)>

    ghost predicate Valid()
      reads this
    {
      && (forall src :: Lookup(state, src) == Stored(cfg, Project(log, src)))
      && alerts == Alerts(cfg, log)
      && (forall src :: src in alerted <==> Tripped(cfg, Project(log, src)))
    }

    constructor (cfg: Config)
      ensures Valid() && this.cfg == cfg && log == []
    {
      this.cfg := cfg;
      state, alerted, alerts, log := map[], {}, [], [];
    }

    method ProcessLine(line: Line, now: real)
      requires Valid()
      modifies this
      ensures Valid()
      ensures log == old(log) + if IsAttempt(line) then [(line.remoteAddr, now)] else []
      ensures alerts == old(alerts) + if IsAttempt(line) then LastAlert(cfg, log) else []
      ensures !IsAttempt(line) ==> state == old(state) && alerted == old(alerted)
    {
      hide Tripped, Stored, Keep, Project, Contains, Alerts;
      if line == Malformed {
        return;
      }
      if !IsLoginFailure(line) {
        return;
      }
      var sourceIp := line.remoteAddr;
      if sourceIp == "" {
        return;
      }
      LogStep(cfg, log, sourceIp, now);
      log := log + [(sourceIp, now)];
      var crossed;
      state, crossed := Record(cfg, state, sourceIp, now);
      if crossed {
        alerts := alerts + [Alert(sourceIp, |state[sourceIp]|)];
        alerted := alerted + {sourceIp};
      }
    }
  }

  lemma LogStep(cfg: Config, log: seq<(string, real)>, src: string, now: real)
    ensures var longer, history := log + [(src, now)], Project(log, src);
      && Project(longer, src) == history + [now]
      && (Tripped(cfg, history + [now]) <==> Tripped(cfg, history) || Crosses(cfg, history + [now]))
      && Stored(cfg, history + [now]) == Recorded(cfg, Stored(cfg, history), now)
      && Alerts(cfg, longer) == Alerts(cfg, log) + LastAlert(cfg, longer)
      && forall other :: other != src ==> Project(longer, other) == Project(log, other)
  {
    hide Keep, Project;
    ProjectStep(log, src, now);
    assert Front(log + [(src, now)]) == log;
    assert Front(Project(log, src) + [now]) == Project(log, src);
  }

  /** Each failure alerts exactly when enough failures of the source lie in the window, and reports how many. */
  lemma AlertExact(cfg: Config, log: seq<(string, real)>)
    requires log != [] && cfg.window > 0.0 && NonDecreasing(Project(log, Last(log).0))
    ensures var history := Project(log, Last(log).0);
      history != [] &&
      var inWindow := |NewerThan(history, Last(history) - cfg.window)|;
      LastAlert(cfg, log) == if inWindow >= cfg.threshold then [Alert(Last(log).0, inWindow)] else []
  {
    hide Project, Keep, NewerThan;
    assert log == Front(log) + [(Last(log).0, Last(log).1)];
    ProjectStep(Front(log), Last(log).0, Last(log).1);
    StoredCount(cfg, Project(log, Last(log).0));
  }

  // ---------- which lines are failures ----------

  ghost predicate Splits(text: string, before: string, part: string, after: string) {
    text == before + part + after
  }

  lemma ContainsExactly(text: string, part: string)
    ensures Contains(text, part) <==> exists before, after :: Splits(text, before, part, after)
  {
    if Contains(text, part) {
      var i :| 0 <= i <= |text| && StartsAt(text, i, part);
      assert Splits(text, text[..i], part, text[i + |part|..]);
    }
    if exists before, after :: Splits(text, before, part, after) {
      var before, after :| Splits(text, before, part, after);
      assert StartsAt(text, |before|, part);
    }
  }

  /** A failure is a POST of the login page that is redirected to the login page. */
  lemma LoginFailureExactly(request: string, location: string, remoteAddr: string)
    ensures IsLoginFailure(Entry(request, location, remoteAddr))
       <==> && (exists rest :: Splits(request, "", "POST ", rest))
            && (exists before, after :: Splits(request, before, "login.htm", after))
            && (exists before, after :: Splits(location, before, "login.htm", after))
  {
    ContainsExactly(request, "login.htm");
    ContainsExactly(location, "login.htm");
    if "POST " <= request {
      assert Splits(request, "", "POST ", request[5..]);
    }
    if exists rest :: Splits(request, "", "POST ", rest) {
      var rest :| Splits(request, "", "POST ", rest);
      assert request[..5] == "POST ";
    }
  }

  lemma FirstLetters(request: string)
    ensures "GET " <= request ==> request != "" && request[0] == 'G'
    ensures "POST " <= request ==> request != "" && request[0] == 'P'
  {
  }

  /** Loading the login page is no failure, nor is a redirect to a place that lacks a letter of its name. */
  lemma NoFailures(request: string, location: string, remoteAddr: string)
    ensures "GET " <= request ==> !IsLoginFailure(Entry(request, location, remoteAddr))
    ensures 'g' !in location ==> !IsLoginFailure(Entry(request, location, remoteAddr))
    ensures !IsAttempt(Entry(request, location, ""))
  {
    FirstLetters(request);
    ContainsExactly(location, "login.htm");
    hide Contains;
    if Contains(location, "login.htm") {
      var before, after :| Splits(location, before, "login.htm", after);
      assert location == before + ("login.htm" + after);
      assert location[|before| + 2] == 'g';
      assert 'g' in location;
    }
  }

  /** Any POST of a path to the login page that is answered with a path to the login page is a failure. */
  lemma RedirectedPostFails(path: string, protocol: string, host: string, query: string, remoteAddr: string)
    ensures IsLoginFailure(Entry("POST " + (path + "login.htm" + protocol), host + "login.htm" + query, remoteAddr))
  {
    var request, location := "POST " + (path + "login.htm" + protocol), host + "login.htm" + query;
    hide Contains;
    ContainsExactly(request, "login.htm");
    ContainsExactly(location, "login.htm");
    assert Splits(location, host, "login.htm", query);
    assert Splits(request, "POST " + path, "login.htm", protocol);
  }
}
