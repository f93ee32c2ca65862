# Quiz session state, in Dafny

A model of the session logic of a small live-quiz server (a Flask/Socket.IO
application). The server holds a fixed, ordered list of questions, a cursor
on the question being played, and a map from player id to that player's
integer answer. It reacts to three socket events:

- **connect**: the new client is sent the question at the cursor;
- **submit_answer**: the answer is stored under the sender's session id, a
  later answer from the same sender replacing the earlier one, and every
  other connected client (the host among them) is sent the number of answers
  and their average;
- **next_question**: if the cursor is before the last question it moves on by
  one and the answer map is emptied, and the new question is broadcast;
  on the last question nothing happens.

Files:

- `ledger.dfy`, module `Ledger`: player ids, submissions, the answer statistics
  (`Stats`: count and integer sum), and the reference definitions behind them.
  `Replay` gives the answer map that a sequence of submissions leaves behind,
  last write winning; `Submitters` gives the set of players in such a sequence;
  `SumOf` gives the sum of a map's values. `Tally` computes the statistics
  with a loop over the map, the way `sum(player_answers.values())` does.
- `session.dfy`, module `Quiz`: the question record, the three-question
  `Catalog` the server starts with, and the class `QuizSession` whose fields
  are the cursor (`index`) and the answer map (`answers`). A ghost field `log`
  records the submissions accepted since the cursor last moved, and `Valid()`
  ties the fields together: the cursor is within the list (so
  `questions[index]` is always in bounds) and `answers == Replay(log)`. The
  constructor establishes `Valid()` and every method preserves it.
  `PlayCatalog` is a client that plays the catalog through, with a
  resubmission and a "next" at the last question.

Facts of app.py the model keeps: the catalog's targets are 20, 90 and 30
(app.py:11-13); the cursor starts at 0 (app.py:16); any integer answer is
stored, with no range check (app.py:38-39); answers are accepted at any time
(app.py:34-46).

## Model

| member | source | states |
|---|---|---|
| Quiz.QuizSession.constructor | app.py:10-17 | The session starts on a non-empty question list with the cursor on the first question (index 0) and an empty answer map; the cursor-in-bounds invariant holds from the start. |
| Quiz.QuizSession.CurrentQuestion | app.py:29-32 | The question sent to a connecting client is the list entry at the cursor; the lookup is always in bounds. |
| Quiz.QuizSession.Submit | app.py:34-46 | The sender's entry becomes the submitted value, every other player's entry is unchanged, the cursor is unchanged; the returned count equals the number of distinct players who submitted since the last advance, grows by one only for a first-time submitter, and is at least 1, so the average's division is never by zero; the returned sum is the sum of the stored answers, with a resubmitted answer replacing the player's earlier value. |
| Quiz.QuizSession.Next | app.py:48-59 | Before the last question the cursor moves on by exactly one, the answer map becomes empty and the returned broadcast is the question at the new cursor; on the last question nothing changes (cursor, answers) and nothing is broadcast; in both cases the cursor stays within the list. |
| Ledger.Tally | app.py:42-43 | The count is the number of entries in the answer map and the sum, accumulated entry by entry, is the sum of all the map's values. |
| Ledger.ReplayKeys | app.py:37-42 | After any sequence of submissions the answer map has an entry for exactly the players who submitted, so its size is the number of distinct submitters. |
| Ledger.ReplayIsLastWrite | app.py:37-39 | Each player's stored answer is the value of that player's last submission: there is a submission by the player with that value and none by the player after it. |
| Ledger.SubmitCount | app.py:39-42 | A submission increases the number of answers by one exactly when its sender had not answered yet; a resubmission leaves the count unchanged. |
| Ledger.SumAfterStore | app.py:39-43 | Storing a player's answer changes the sum behind the average by replacing that player's previous value (if any) with the new one. |
| Ledger.AverageWithinAnswers | app.py:43 | For a non-empty answer map, the average (sum over count, as a real) lies between the smallest and the largest answer. |

## Left out

- The HTTP routes `index` and `host` and their templates (app.py:19-25): page rendering, no session state.
- Socket.IO transport: the `emit` calls, broadcast and `include_self` flags, the `reset_stats` event and `socketio.run`. `Submit` returns the statistics and `Next` returns the question to broadcast instead of sending them.
- `request.sid`: the player id is an opaque string parameter.
- `int(data['value'])` and its failure on a missing key or a non-numeric value: `Submit` takes an already-parsed integer.
- Ledger.AverageWithinAnswers: states the average over the reals; Python's floating-point division and its rounding are not modelled.
- Concurrency between socket handlers: each handler is modelled as one atomic step.
