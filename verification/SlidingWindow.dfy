/** The list comprehension the exception tracker, the responder and the login monitor prune with. */
module SlidingWindow {
  import opened Common

  /** The entries newer than `cutoff`, in order. */
  function Keep(times: seq<real>, cutoff: real): seq<real> {
    if times == [] then []
    else Keep(Front(times), cutoff) + (if Last(times) > cutoff then [Last(times)] else [])
  }

  lemma KeepNothing(cutoff: real)
    ensures Keep([], cutoff) == []
  {
  }

  lemma KeepStep(times: seq<real>, cutoff: real)
    requires times != []
    ensures Keep(times, cutoff) == Keep(Front(times), cutoff) + (if Last(times) > cutoff then [Last(times)] else [])
  {
  }

  lemma {:induction false} KeepSubsequence(times: seq<real>, cutoff: real)
    ensures IsSubsequence(Keep(times, cutoff), times)
  {
    if times != [] {
      hide IsSubsequence;
      KeepSubsequence(Front(times), cutoff);
      SubsequenceExtend(Keep(Front(times), cutoff), Front(times), Last(times));
      assert times == Front(times) + [Last(times)];
      assert Last(times) <= cutoff ==> Keep(times, cutoff) == Keep(Front(times), cutoff);
    }
  }

  lemma {:induction false} KeepMembers(times: seq<real>, cutoff: real)
    ensures forall t :: t in Keep(times, cutoff) <==> t in times && t > cutoff
  {
    if times != [] {
      KeepMembers(Front(times), cutoff);
      assert times == Front(times) + [Last(times)];
    }
  }

  lemma {:induction false} KeepAll(times: seq<real>, cutoff: real)
    requires forall i :: 0 <= i < |times| ==> times[i] > cutoff
    ensures Keep(times, cutoff) == times
  {
    if times != [] {
      KeepAll(Front(times), cutoff);
      assert times == Front(times) + [Last(times)];
    }
  }

  lemma {:induction false} KeepNone(times: seq<real>, cutoff: real)
    requires forall i :: 0 <= i < |times| ==> times[i] <= cutoff
    ensures Keep(times, cutoff) == []
  {
    if times != [] {
      KeepNone(Front(times), cutoff);
    }
  }

  lemma {:induction false} KeepConcat(a: seq<real>, b: seq<real>, cutoff: real)
    ensures Keep(a + b, cutoff) == Keep(a, cutoff) + Keep(b, cutoff)
  {
    if b == [] {
      assert a + b == a;
    } else {
      KeepConcat(a, Front(b), cutoff);
      assert Front(a + b) == a + Front(b);
    }
  }

  /** Pruning twice is pruning at the later cutoff. */
  lemma {:induction false} KeepKeep(times: seq<real>, first: real, second: real)
    requires first <= second
    ensures Keep(Keep(times, first), second) == Keep(times, second)
  {
    if times != [] {
      KeepKeep(Front(times), first, second);
      KeepConcat(Keep(Front(times), first), if Last(times) > first then [Last(times)] else [], second);
      assert Front([Last(times)]) == [];
    }
  }

  /** On sorted times the survivors are a suffix. */
  lemma {:induction false} KeepSuffix(times: seq<real>, cutoff: real) returns (n: nat)
    requires NonDecreasing(times)
    ensures n <= |times| && Keep(times, cutoff) == times[n..]
    ensures (forall i :: 0 <= i < n ==> times[i] <= cutoff) && (forall i :: n <= i < |times| ==> times[i] > cutoff)
  {
    hide Keep;
    if times == [] {
      KeepNothing(cutoff);
      n := 0;
    } else if Last(times) > cutoff {
      n := KeepSuffix(Front(times), cutoff);
      KeepStep(times, cutoff);
      assert Front(times)[n..] + [Last(times)] == times[n..];
    } else {
      KeepNone(times, cutoff);
      n := |times|;
    }
  }

  /** The positions of the times newer than the cutoff. */
  ghost function NewerThan(times: seq<real>, cutoff: real): set<int> {
    set i | 0 <= i < |times| && times[i] > cutoff
  }

  lemma NewerThanStep(times: seq<real>, cutoff: real)
    requires times != []
    ensures |NewerThan(times, cutoff)| == |NewerThan(Front(times), cutoff)| + if Last(times) > cutoff then 1 else 0
  {
    var newer, n := NewerThan(Front(times), cutoff), |times| - 1;
    assert n !in newer;
    if times[n] > cutoff {
      assert NewerThan(times, cutoff) == newer + {n};
    } else {
      assert NewerThan(times, cutoff) == newer;
    }
  }

  /** The number of survivors counts the positions newer than the cutoff. */
  lemma {:induction false} KeepCount(times: seq<real>, cutoff: real)
    ensures |Keep(times, cutoff)| == |NewerThan(times, cutoff)|
  {
    if times != [] {
      hide NewerThan;
      KeepCount(Front(times), cutoff);
      NewerThanStep(times, cutoff);
    }
  }
}
