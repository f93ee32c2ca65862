/**
  The quiz server's session state: a fixed, ordered list of questions, a
  cursor on the question being played, and the answers given to it.

  Three socket events act on it. A connecting client is sent the question at
  the cursor. A submitted answer is stored under the sender's id, replacing an
  earlier answer by the same sender, and every other connected client (the
  host among them) is sent the new statistics.
  The host's "next question" moves the cursor on by one, unless it is already
  on the last question, and starts an empty answer map for the new question.
 */
module Quiz {
  import opened Ledger

  datatype Option<T> = None | Some(value: T)

  /** One catalog entry: ordinal, text, target percentage and the labels of the two sides. */
  datatype Question = Question(id: int, text: string, target: int, leftLabel: string, rightLabel: string)

  /** The questions the server is started with, in playing order. */
  const Catalog: seq<Question> := [
    Question(1, "High SKU Variability (Items look very different)", 20, "Manual", "Automate"),
    Question(2, "High Volume, Low Variation (Picking the same box 10k times)", 90, "Manual", "Automate"),
    Question(3, "Fragile Items (Glass/Eggs)", 30, "Manual", "Automate")
  ]

  class QuizSession {
    /** The question list; never changes. */
    const questions: seq<Question>
    /** The position of the question being played. */
    var index: int
    /** The current question's answers, one per player. */
    var answers: map<PlayerId, int>
    /** The answers accepted since the cursor last moved, oldest first. */
    ghost var log: seq<Submission>

    /**
      The cursor is on a question of the list, so reading the current question
      is always in bounds, and the answer map is exactly what the submissions
      since the last advance leave behind, the latest one per player winning.
     */
    ghost predicate Valid()
      reads this
    {
      && 1 <= |questions|
      && 0 <= index < |questions|
      && answers == Replay(log)
    }

    /** A server started on `catalog`: the cursor on its first question and no answers yet. */
    constructor (catalog: seq<Question>)
      requires |catalog| >= 1
      ensures Valid()
      ensures questions == catalog && index == 0 && answers == map[] && log == []
    {
      questions := catalog;
      index := 0;
      answers := map[];
      log := [];
    }

    /** The question a connecting client is sent: the one at the cursor. */
    method CurrentQuestion() returns (q: Question)
      requires Valid()
      ensures q in questions
      ensures q == questions[index]
    {
      q := questions[index];
    }

    /**
      Stores `value` as `player`'s answer to the current question and returns
      the statistics sent to every other connected client. The player's entry
      becomes `value`, every other entry and the cursor stay as they were, the
      count is the number of distinct players who answered since the last
      advance (never zero, so the average is defined), and the sum is the sum
      of the stored answers.
     */
    method Submit(player: PlayerId, value: int) returns (stats: Stats)
      requires Valid()
      modifies this
      ensures Valid()
      ensures index == old(index)
      ensures log == old(log) + [Submission(player, value)]
      ensures player in answers && answers[player] == value
      ensures forall p :: p != player ==> (p in answers <==> p in old(answers))
      ensures forall p :: p != player && p in old(answers) ==> answers[p] == old(answers)[p]
      ensures stats.count == |answers| == |Submitters(log)|
      ensures stats.count == |old(answers)| + (if player in old(answers) then 0 else 1)
      ensures stats.count >= 1
      ensures stats.sum == SumOf(answers)
      ensures stats.sum == SumOf(old(answers)) - (if player in old(answers) then old(answers)[player] else 0) + value
    {
      ghost var before := log;
      answers := answers[player := value];
      log := log + [Submission(player, value)];
      assert log[..|log| - 1] == before;
      ReplayKeys(before);
      ReplayKeys(log);
      SubmitCount(before, player, value);
      SumAfterStore(old(answers), player, value);
      stats := Tally(answers);
    }

    /**
      The host's "next question". Before the last question it moves the cursor
      on by exactly one, empties the answer map and returns the new current
      question for broadcast; on the last question it changes nothing and
      returns `None`.
     */
    method Next() returns (broadcast: Option<Question>)
      requires Valid()
      modifies this
      ensures Valid()
      ensures broadcast.Some? <==> old(index) < |questions| - 1
      ensures broadcast.Some? ==> index == old(index) + 1 && answers == map[] && log == []
                                  && broadcast.value == questions[index]
      ensures broadcast.None? ==> index == old(index) == |questions| - 1
                                  && answers == old(answers) && log == old(log)
    {
      if index < |questions| - 1 {
        index := index + 1;
        answers := map[];
        log := [];
        broadcast := Some(questions[index]);
      } else {
        broadcast := None;
      }
    }
  }

  /**
    A game on the catalog above: two players answer the first question, one of
    them twice; the host walks to the end of the list, where "next" stops.
   */
  method PlayCatalog()
  {
    var session := new QuizSession(Catalog);
    var q := session.CurrentQuestion();
    assert q.id == 1;

    var stats := session.Submit("alice", 40);
    assert stats.count == 1;
    stats := session.Submit("bob", 10);
    assert stats.count == 2;
    stats := session.Submit("alice", 30);
    assert stats.count == 2;
    assert session.answers == map["alice" := 30, "bob" := 10];

    var shown := session.Next();
    assert shown == Some(Catalog[1]) && session.answers == map[];
    shown := session.Next();
    assert shown == Some(Catalog[2]);
    shown := session.Next();
    assert shown == None && session.index == 2;
  }
}
