/** Notions shared by the detectors: optional values, histories and the order of events in them. */
module Common {

  datatype Option<+T> = None | Some(value: T)

  function Min(x: nat, y: nat): nat { if x <= y then x else y }

  function Last<T>(s: seq<T>): T
    requires s != []
  {
    s[|s| - 1]
  }

  function Front<T>(s: seq<T>): seq<T>
    requires s != []
  {
    s[..|s| - 1]
  }

  /** What a binary digit counts for. */
  function Weight(b: bool, weight: nat): nat { if b then weight else 0 }

  lemma ConcatAssociates<T>(a: seq<T>, b: seq<T>, c: seq<T>)
    ensures (a + b) + c == a + (b + c)
  {
  }

  /** The entry a `defaultdict` holds for a key. */
  function Lookup<K, T>(m: map<K, seq<T>>, k: K): seq<T> {
    if k in m then m[k] else []
  }

  /** The values logged under one key, in order. */
  ghost function Project<K, T>(log: seq<(K, T)>, k: K): seq<T>
    decreases |log|
  {
    if log == [] then []
    else Project(Front(log), k) + (if Last(log).0 == k then [Last(log).1] else [])
  }

  lemma ProjectStep<K, T>(log: seq<(K, T)>, k: K, v: T)
    ensures Project(log + [(k, v)], k) == Project(log, k) + [v]
    ensures forall other :: other != k ==> Project(log + [(k, v)], other) == Project(log, other)
  {
    assert Front(log + [(k, v)]) == log;
    forall other | other != k
      ensures Project(log + [(k, v)], other) == Project(log, other)
    {
    }
  }

  ghost predicate NonDecreasing(times: seq<real>) {
    forall i, j :: 0 <= i <= j < |times| ==> times[i] <= times[j]
  }

  /** `sub` can be read off `full` by deleting elements. */
  ghost predicate IsSubsequence<T>(sub: seq<T>, full: seq<T>)
    decreases |full|
  {
    sub == [] ||
    (full != [] &&
     ((Last(sub) == Last(full) && IsSubsequence(Front(sub), Front(full))) ||
      IsSubsequence(sub, Front(full))))
  }

  lemma SubsequenceExtend<T>(sub: seq<T>, full: seq<T>, x: T)
    requires IsSubsequence(sub, full)
    ensures IsSubsequence(sub + [x], full + [x]) && IsSubsequence(sub, full + [x])
  {
    assert Front(sub + [x]) == sub && Front(full + [x]) == full;
  }

  lemma {:induction false} SubsequenceDropFirst<T>(sub: seq<T>, full: seq<T>)
    requires IsSubsequence(sub, full) && sub != []
    ensures IsSubsequence(sub[1..], full)
    decreases |full|
  {
    if Last(sub) == Last(full) && IsSubsequence(Front(sub), Front(full)) {
      if |sub| > 1 {
        SubsequenceDropFirst(Front(sub), Front(full));
        assert Front(sub[1..]) == Front(sub)[1..];
      }
    } else {
      SubsequenceDropFirst(sub, Front(full));
    }
  }

  lemma {:induction false} SubsequenceDrop<T>(sub: seq<T>, full: seq<T>, n: nat)
    requires IsSubsequence(sub, full) && n <= |sub|
    ensures IsSubsequence(sub[n..], full)
  {
    if n == 0 {
      assert sub[0..] == sub;
    } else {
      SubsequenceDrop(sub, full, n - 1);
      SubsequenceDropFirst(sub[n - 1..], full);
      assert sub[n - 1..][1..] == sub[n..];
    }
  }

  lemma {:induction false} SubsequenceTransitive<T>(a: seq<T>, b: seq<T>, c: seq<T>)
    requires IsSubsequence(a, b) && IsSubsequence(b, c)
    ensures IsSubsequence(a, c)
    decreases |b| + |c|
  {
    if a != [] {
      if Last(b) == Last(c) && IsSubsequence(Front(b), Front(c)) {
        if Last(a) == Last(b) && IsSubsequence(Front(a), Front(b)) {
          SubsequenceTransitive(Front(a), Front(b), Front(c));
        } else {
          SubsequenceTransitive(a, Front(b), Front(c));
        }
      } else {
        SubsequenceTransitive(a, b, Front(c));
      }
    }
  }
}
