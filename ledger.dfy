/**
  The per-round answer map of the quiz server and the answer statistics
  derived from it.

  The server keeps one entry per player for the current question: a player who
  answers again replaces their earlier answer. After every answer it sends every
  other connected client (the host among them) how many players have answered
  and the average of their answers.

  `Replay` is the reference meaning of the answer map: the map obtained by
  applying, in order, every submission made since the last question change,
  the later one winning. `SumOf` is the reference meaning of the sum that the
  average is taken of.
 */
module Ledger {

  /** The transport session id the server files an answer under (an opaque string). */
  type PlayerId = string

  /** One accepted answer: who sent it and the integer it carried. */
  datatype Submission = Submission(player: PlayerId, value: int)

  /** What the other clients are sent after an answer: the number of answers and their integer sum. */
  datatype Stats = Stats(count: nat, sum: int)

  // ---------------------------------------------------------------------------
  // Last write wins

  /** The answer map after applying the submissions of `log` in order to an empty map. */
  function Replay(log: seq<Submission>): (m: map<PlayerId, int>)
  {
    if log == [] then map[]
    else
      var last := log[|log| - 1];
      Replay(log[..|log| - 1])[last.player := last.value]
  }

  /** The players who sent at least one submission in `log`. */
  function Submitters(log: seq<Submission>): (players: set<PlayerId>)
  {
    set i | 0 <= i < |log| :: log[i].player
  }

  lemma SubmittersSnoc(log: seq<Submission>, s: Submission)
    ensures Submitters(log + [s]) == Submitters(log) + {s.player}
  {
    var log' := log + [s];
    forall p | p in Submitters(log') ensures p in Submitters(log) + {s.player} {
      var i :| 0 <= i < |log'| && log'[i].player == p;
      if i < |log| { assert log[i] == log'[i]; }
    }
    forall p | p in Submitters(log) ensures p in Submitters(log') {
      var i :| 0 <= i < |log| && log[i].player == p;
      assert log'[i] == log[i];
    }
    assert log'[|log|] == s;
  }

  /** The answer map holds an entry for exactly the players who have submitted. */
  lemma {:induction false} ReplayKeys(log: seq<Submission>)
    ensures Replay(log).Keys == Submitters(log)
    decreases |log|
  {
    if log != [] {
      var pre, last := log[..|log| - 1], log[|log| - 1];
      assert log == pre + [last];
      ReplayKeys(pre);
      SubmittersSnoc(pre, last);
    }
  }

  /**
    Each player's entry is the value of that player's LAST submission: there is
    a submission by the player carrying the stored value and no later one by
    the same player.
   */
  lemma {:induction false} ReplayIsLastWrite(log: seq<Submission>, p: PlayerId)
    requires p in Submitters(log)
    ensures p in Replay(log)
    ensures exists i :: 0 <= i < |log| && log[i].player == p && Replay(log)[p] == log[i].value
                        && forall j :: i < j < |log| ==> log[j].player != p
    decreases |log|
  {
    var pre, last := log[..|log| - 1], log[|log| - 1];
    assert log == pre + [last];
    SubmittersSnoc(pre, last);
    if last.player == p {
      assert log[|log| - 1].player == p && Replay(log)[p] == log[|log| - 1].value;
    } else {
      ReplayIsLastWrite(pre, p);
      var i :| 0 <= i < |pre| && pre[i].player == p && Replay(pre)[p] == pre[i].value
               && forall j :: i < j < |pre| ==> pre[j].player != p;
      assert log[i] == pre[i];
      forall j | i < j < |log| ensures log[j].player != p {
        if j < |pre| { assert log[j] == pre[j]; }
      }
    }
  }

  /**
    A submission adds one to the number of answers exactly when its player had
    not answered yet; a resubmission leaves the count unchanged.
   */
  lemma SubmitCount(log: seq<Submission>, p: PlayerId, v: int)
    ensures |Replay(log + [Submission(p, v)])| ==
            |Replay(log)| + (if p in Submitters(log) then 0 else 1)
  {
    var log' := log + [Submission(p, v)];
    assert log'[..|log'| - 1] == log;
    ReplayKeys(log);
    ReplayKeys(log');
    SubmittersSnoc(log, Submission(p, v));
    assert |Replay(log')| == |Replay(log').Keys|;
    assert |Replay(log)| == |Replay(log).Keys|;
  }

  // ---------------------------------------------------------------------------
  // The sum behind the average

  /** Some element of a non-empty set of players. */
  ghost function Pick(keys: set<PlayerId>): (k: PlayerId)
    requires keys != {}
    ensures k in keys
  {
    var k :| k in keys; k
  }

  /** The sum of the values `m` holds under the keys `keys`. */
  ghost function SumOver(m: map<PlayerId, int>, keys: set<PlayerId>): (total: int)
    requires keys <= m.Keys
    decreases keys
  {
    if keys == {} then 0
    else
      var k := Pick(keys);
      m[k] + SumOver(m, keys - {k})
  }

  /** The sum of all values of `m`. */
  ghost function SumOf(m: map<PlayerId, int>): (total: int)
  {
    SumOver(m, m.Keys)
  }

  /** The sum may be split at any key, whichever key `SumOver` happened to choose. */
  lemma {:induction false} SumOverRemove(m: map<PlayerId, int>, keys: set<PlayerId>, k: PlayerId)
    requires keys <= m.Keys && k in keys
    ensures SumOver(m, keys) == m[k] + SumOver(m, keys - {k})
    decreases keys
  {
    var j := Pick(keys);
    if j != k {
      SumOverRemove(m, keys - {j}, k);
      SumOverRemove(m, keys - {k}, j);
      assert keys - {j} - {k} == keys - {k} - {j};
    }
  }

  /** The sum over `keys` only looks at the values under `keys`. */
  lemma {:induction false} SumOverAgree(m: map<PlayerId, int>, m': map<PlayerId, int>, keys: set<PlayerId>)
    requires keys <= m.Keys && keys <= m'.Keys
    requires forall k :: k in keys ==> m[k] == m'[k]
    ensures SumOver(m, keys) == SumOver(m', keys)
    decreases keys
  {
    if keys != {} {
      var k :| k in keys;
      SumOverRemove(m, keys, k);
      SumOverRemove(m', keys, k);
      SumOverAgree(m, m', keys - {k});
    }
  }

  /**
    Storing `v` for `p` replaces `p`'s earlier value in the sum instead of adding
    to it: the sum behind the average counts each player's latest answer once.
   */
  lemma SumAfterStore(m: map<PlayerId, int>, p: PlayerId, v: int)
    ensures SumOf(m[p := v]) == SumOf(m) - (if p in m then m[p] else 0) + v
  {
    var m' := m[p := v];
    var rest := m.Keys - {p};
    assert m'.Keys - {p} == rest;
    SumOverRemove(m', m'.Keys, p);
    SumOverAgree(m, m', rest);
    if p in m {
      SumOverRemove(m, m.Keys, p);
    } else {
      assert rest == m.Keys;
    }
  }

  /** When every value lies in `[lo, hi]`, the sum lies between `|keys| * lo` and `|keys| * hi`. */
  lemma {:induction false} SumOverBounds(m: map<PlayerId, int>, keys: set<PlayerId>, lo: int, hi: int)
    requires keys <= m.Keys
    requires forall k :: k in keys ==> lo <= m[k] <= hi
    ensures |keys| * lo <= SumOver(m, keys) <= |keys| * hi
    decreases keys
  {
    if keys != {} {
      var k := Pick(keys);
      SumOverBounds(m, keys - {k}, lo, hi);
      var n := |keys - {k}|;
      assert |keys| == n + 1;
      assert |keys| * lo == n * lo + lo;
      assert |keys| * hi == n * hi + hi;
    }
  }

  /** The average the other clients are shown, taken over the reals. */
  ghost function Average(stats: Stats): (avg: real)
    requires stats.count > 0
  {
    stats.sum as real / stats.count as real
  }

  /** A quotient by a positive count of a sum between `count * lo` and `count * hi` lies in `[lo, hi]`. */
  lemma QuotientBetween(sum: int, count: int, lo: int, hi: int)
    requires count > 0
    requires count * lo <= sum <= count * hi
    ensures lo as real <= sum as real / count as real <= hi as real
  {
  }

  /** The average of a non-empty answer map lies between its smallest and its largest answer. */
  lemma AverageWithinAnswers(m: map<PlayerId, int>, lo: int, hi: int)
    requires |m| > 0
    requires forall p :: p in m ==> lo <= m[p] <= hi
    ensures lo as real <= Average(Stats(|m|, SumOf(m))) <= hi as real
  {
    assert |m.Keys| == |m|;
    SumOverBounds(m, m.Keys, lo, hi);
    QuotientBetween(SumOf(m), |m|, lo, hi);
  }

  // ---------------------------------------------------------------------------
  // The statistics computation

  /**
    The statistics sent to the other clients: the number of answers, and the sum of the
    answer values accumulated one entry at a time.
   */
  method Tally(answers: map<PlayerId, int>) returns (stats: Stats)
    ensures stats.count == |answers|
    ensures stats.sum == SumOf(answers)
  {
    var total := 0;
    var rest := answers.Keys;
    while rest != {}
      invariant rest <= answers.Keys
      invariant total + SumOver(answers, rest) == SumOf(answers)
      decreases rest
    {
      var k :| k in rest;
      SumOverRemove(answers, rest, k);
      total := total + answers[k];
      rest := rest - {k};
    }
    stats := Stats(|answers|, total);
  }
}
