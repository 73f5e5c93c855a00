/** The `record` function the responder and the login monitor share. */
module OffenceWindow {
  import opened Common
  import opened SlidingWindow

  datatype Config = Config(window: real, threshold: int) {
    ghost predicate Sane() {
      window > 0.0 && threshold >= 1
    }
  }

  /** The stored list after recording one more offence: prune, then append. */
  function Recorded(cfg: Config, times: seq<real>, now: real): seq<real> {
    Keep(times, now - cfg.window) + [now]
  }

  /** Records an offence in the per-source lists and says whether the source reached the threshold. */
  method Record(cfg: Config, state: map<string, seq<real>>, sourceIp: string, now: real)
      returns (newState: map<string, seq<real>>, crossed: bool)
    ensures newState == state[sourceIp := Recorded(cfg, Lookup(state, sourceIp), now)]
    ensures crossed <==> |newState[sourceIp]| >= cfg.threshold
  {
    var timestamps := Keep(Lookup(state, sourceIp), now - cfg.window);
    timestamps := timestamps + [now];
    newState := state[sourceIp := timestamps];
    crossed := |timestamps| >= cfg.threshold;
  }

  /** The stored list after the offences `history` of one source. */
  function Stored(cfg: Config, history: seq<real>): seq<real>
    decreases |history|
  {
    if history == [] then [] else Recorded(cfg, Stored(cfg, Front(history)), Last(history))
  }

  /** The last offence of `history` crosses the threshold. */
  predicate Crosses(cfg: Config, history: seq<real>) {
    history != [] && |Stored(cfg, history)| >= cfg.threshold
  }

  /**
   * Under a clock that never steps back, incremental pruning equals filtering the full
   * history: the list holds exactly the offences newer than the window before the last one.
   */
  lemma {:induction false} StoredIsFilter(cfg: Config, history: seq<real>)
    requires cfg.window > 0.0 && NonDecreasing(history) && history != []
    ensures Stored(cfg, history) == Keep(history, Last(history) - cfg.window)
    decreases |history|
  {
    hide Keep, Stored;
    var front, now := Front(history), Last(history);
    StoredStep(cfg, history);
    if front == [] {
      NothingStored(cfg);
      KeepAll([], now - cfg.window);
    } else {
      StoredIsFilter(cfg, front);
      KeepKeep(front, Last(front) - cfg.window, now - cfg.window);
    }
    KeepAll([now], now - cfg.window);
    KeepConcat(front, [now], now - cfg.window);
    assert history == front + [now];
  }

  lemma StoredStep(cfg: Config, history: seq<real>)
    requires history != []
    ensures Stored(cfg, history) == Keep(Stored(cfg, Front(history)), Last(history) - cfg.window) + [Last(history)]
  {
    hide Keep;
  }

  lemma NothingStored(cfg: Config)
    ensures Stored(cfg, []) == []
  {
  }

  /** The offence being recorded is always stored, last, whatever the window. */
  lemma StoredEndsWithNow(cfg: Config, history: seq<real>)
    requires history != []
    ensures Stored(cfg, history) != [] && Last(Stored(cfg, history)) == Last(history)
  {
    hide Keep;
  }

  /** The length the threshold is compared with counts the source's offences in the window. */
  lemma StoredCount(cfg: Config, history: seq<real>)
    requires cfg.window > 0.0 && NonDecreasing(history) && history != []
    ensures |Stored(cfg, history)| == |NewerThan(history, Last(history) - cfg.window)|
  {
    StoredIsFilter(cfg, history);
    KeepCount(history, Last(history) - cfg.window);
  }

  /** Crossing the threshold means that the last `threshold` offences span less than the window. */
  lemma CrossesExactly(cfg: Config, history: seq<real>)
    requires cfg.Sane() && NonDecreasing(history)
    ensures Crosses(cfg, history)
       <==> |history| >= cfg.threshold && Last(history) - history[|history| - cfg.threshold] < cfg.window
  {
    if history != [] {
      StoredIsFilter(cfg, history);
      var n := KeepSuffix(history, Last(history) - cfg.window);
    } else {
      assert !Crosses(cfg, history);
    }
  }

  /** Some offence of `history` crossed the threshold. */
  predicate Tripped(cfg: Config, history: seq<real>)
    decreases |history|
  {
    history != [] && (Tripped(cfg, Front(history)) || Crosses(cfg, history))
  }

  /** A stretch of at least `threshold` offences, from `p` to `q`, that spans less than the window. */
  ghost predicate Cluster(cfg: Config, history: seq<real>, p: int, q: int) {
    0 <= p <= q < |history| && q - p + 1 >= cfg.threshold && history[q] - history[p] < cfg.window
  }

  /** A source trips exactly when some `threshold` of its offences span less than the window. */
  lemma {:induction false} TrippedExactly(cfg: Config, history: seq<real>)
    requires cfg.Sane() && NonDecreasing(history)
    ensures Tripped(cfg, history) <==> exists p, q :: Cluster(cfg, history, p, q)
    decreases |history|
  {
    if history != [] {
      hide Stored;
      var front := Front(history);
      TrippedExactly(cfg, front);
      CrossesExactly(cfg, history);
      if Tripped(cfg, front) {
        var p, q :| Cluster(cfg, front, p, q);
        assert Cluster(cfg, history, p, q);
      } else if Crosses(cfg, history) {
        assert Cluster(cfg, history, |history| - cfg.threshold, |history| - 1);
      } else {
        NoNewCluster(cfg, history);
      }
    }
  }

  lemma NoNewCluster(cfg: Config, history: seq<real>)
    requires cfg.Sane() && NonDecreasing(history) && history != []
    requires !exists p, q :: Cluster(cfg, Front(history), p, q)
    requires !(|history| >= cfg.threshold && Last(history) - history[|history| - cfg.threshold] < cfg.window)
    ensures !exists p, q :: Cluster(cfg, history, p, q)
  {
    forall p, q
      ensures !Cluster(cfg, history, p, q)
    {
      assert Cluster(cfg, history, p, q) && q < |history| - 1 ==> Cluster(cfg, Front(history), p, q);
    }
  }
}
