/** Concrete runs showing what the protocol does not promise. */
module ProtocolWitnesses {
  import opened Wrappers
  import opened Scoring
  import opened Tables
  import opened Protocol
  import opened ProtocolInvariant
  import opened ProtocolSteps
  import opened ProtocolRuns
  import opened ProtocolCompletion

  const SOLO := Params(1, {"worker"})

  function FirstAsked(): Db
  {
    AddQuestion(Initial().db, "set", "asker", "42")
  }

  lemma FirstIsEligible()
    ensures IsHeld(FirstAsked(), "worker", None) && Eligible(FirstAsked(), "worker", 0, 1)
  {
    assert Attempts(map[], "worker", 0) == {};
    assert TimedOutAttempts(map[], "worker", 0) == {};
    assert Active(map[], 0) == {};
    assert "asker"[0] != "worker"[0];
  }

  /** A question is asked and its only slot claimed with deadline 10. */
  lemma Claim() returns (states: seq<State>, events: seq<Event>)
    ensures IsRun(SOLO, states, events) && |events| == 2
    ensures states[2] == State(FirstAsked().(rows := map[0 := NewRow(0, "worker", 10)], nextRow := 1), 0,
                               map[0 := StartingTimer(0, 0, 10)], 1, map[], {})
  {
    states, events := [Initial()], [];
    states, events := Extend(SOLO, states, events, Ask("set", "asker", "42"));
    FirstIsEligible();
    states, events := Extend(SOLO, states, events, Poll("worker", None, Some(0), 10));
  }

  /** The handler of an answer has passed the deadline test and is about to write. */
  lemma AboutToAnswer(answer: string) returns (states: seq<State>, events: seq<Event>)
    ensures IsRun(SOLO, states, events) && |events| == 5
    ensures var s := states[5];
      && s.now == 0 && s.nextThread == 2 && s.torn == {} && s.timers == map[]
      && s.db == FirstAsked().(rows := map[0 := NewRow(0, "worker", 10)], nextRow := 1)
      && s.threads == map[0 := StartingTimer(0, 0, 10), 1 := Submitting(0, 0, true, answer)]
  {
    states, events := Claim();
    var rows := states[2].db.rows;
    assert 0 in Attempts(rows, "worker", 0);
    states, events := Extend(SOLO, states, events, Submit(0, "worker", true, answer, true));
    states, events := Extend(SOLO, states, events, Run(1, 0));
    states, events := Extend(SOLO, states, events, Run(1, 0));
  }

  function RepliedRow(answer: string): Assignment
  {
    NewRow(0, "worker", 10).(status := Replied, reply := Reply(Some(true), Some(answer)))
  }

  /** The reply is recorded; its handler is about to try scoring. */
  lemma JustAnswered(answer: string) returns (states: seq<State>, events: seq<Event>)
    ensures IsRun(SOLO, states, events)
    ensures var s := states[|events|];
      && s.now == 0 && s.torn == {} && s.timers == map[]
      && s.db == FirstAsked().(rows := map[0 := RepliedRow(answer)], nextRow := 1)
      && s.threads == map[0 := StartingTimer(0, 0, 10), 1 := Notifying(0, 0)]
  {
    states, events := AboutToAnswer(answer);
    states, events := Extend(SOLO, states, events, Run(1, 0));
    var s := states[|events|];
    assert s.db.rows == map[0 := RepliedRow(answer)];
  }

  function OutcomeOf(answer: string): Outcome
  {
    Judge("42", map[0 := RepliedRow(answer).reply])
  }

  lemma OneReply(answer: string)
    ensures RepliedRows(map[0 := RepliedRow(answer)], 0) == {0}
    ensures RepliesNow(map[0 := RepliedRow(answer)], 0) == map[0 := RepliedRow(answer).reply]
  {
    assert RepliedRows(map[0 := RepliedRow(answer)], 0) == {0};
  }

  /** The scorer has counted the reply and read the question. */
  lemma AboutToList(answer: string) returns (states: seq<State>, events: seq<Event>)
    ensures IsRun(SOLO, states, events)
    ensures var s := states[|events|];
      && s.now == 0 && s.torn == {}
      && s.db == FirstAsked().(rows := map[0 := RepliedRow(answer)], nextRow := 1)
      && s.threads == map[0 := StartingTimer(0, 0, 10), 1 := Listing(0, "42")]
  {
    states, events := JustAnswered(answer);
    OneReply(answer);
    states, events := Extend(SOLO, states, events, Run(1, 0));
    states, events := Extend(SOLO, states, events, Run(1, 0));
    states, events := Extend(SOLO, states, events, Run(1, 0));
  }

  /** The scorer holds its verdict and is about to compare and set. */
  lemma AboutToWin(answer: string) returns (states: seq<State>, events: seq<Event>)
    ensures IsRun(SOLO, states, events)
    ensures var s := states[|events|];
      && s.now == 0 && s.torn == {}
      && s.db == FirstAsked().(rows := map[0 := RepliedRow(answer)], nextRow := 1)
      && s.threads == map[0 := StartingTimer(0, 0, 10), 1 := Judging(0, OutcomeOf(answer))]
  {
    states, events := AboutToList(answer);
    OneReply(answer);
    states, events := Extend(SOLO, states, events, Run(1, 0));
  }

  function WonQuestion(o: Outcome): Question
  {
    Question("set", "asker", "42", QuestionScored, o.score, Stored(o.share), Stored(o.passRate), 0, false)
  }

  /** The scorer has won and holds the marks. */
  lemma JustWon(answer: string) returns (states: seq<State>, events: seq<Event>)
    ensures IsRun(SOLO, states, events)
    ensures var s := states[|events|];
      && s.now == 0 && s.torn == {}
      && s.db.questions == map[0 := WonQuestion(OutcomeOf(answer))] && s.db.rows == map[0 := RepliedRow(answer)]
      && s.threads == map[0 := StartingTimer(0, 0, 10), 1 := Writing(0, OutcomeOf(answer).marks)]
  {
    states, events := AboutToWin(answer);
    states, events := Extend(SOLO, states, events, Run(1, 0));
  }

  /** The deadline is tested on the stale read, not by the guarded write: a reply
      can be accepted after its deadline. */
  lemma LateReplyIsAccepted() returns (states: seq<State>, events: seq<Event>)
    ensures IsRun(SOLO, states, events) && |events| >= 1
    ensures var s, s' := states[|events| - 1], states[|events|];
      && 0 in s.db.rows && s.db.rows[0].status == Claimed && s.now > s.db.rows[0].ddl
      && 0 in s'.db.rows && s'.db.rows[0].status == Replied
  {
    states, events := AboutToAnswer("41");
    states, events := Extend(SOLO, states, events, Tick(11));
    states, events := Extend(SOLO, states, events, Run(1, 0));
  }

  /** A crash right after the compare-and-set leaves a scored question with a
      reply that is never scored. */
  lemma CrashTearsQuestion() returns (states: seq<State>, events: seq<Event>)
    ensures IsRun(SOLO, states, events)
    ensures var s := states[|events|];
      IsScored(s.db, 0) && 0 in s.torn && 0 in s.db.rows && s.db.rows[0].status == Replied
  {
    states, events := JustWon("41");
    MarksAreJudged("42", map[0 := RepliedRow("41").reply]);
    var s := states[|events|];
    assert s.threads[1].Writing? && 0 in s.threads[1].todo;
    states, events := Extend(SOLO, states, events, Crash);
  }

  /** A crash right after a reply is recorded leaves a question with enough replies
      that nobody is on its way to score: the restart has to try it again. */
  lemma CrashForgetsQuestion() returns (states: seq<State>, events: seq<Event>)
    ensures IsRun(SOLO, states, events)
    ensures var s := states[|events|]; Scorable(SOLO, s.db, 0) && forall t :: !Chases(s, t, 0)
  {
    states, events := JustAnswered("41");
    OneReply("41");
    states, events := Extend(SOLO, states, events, Crash);
  }

  const ASKED_WELL := Question("set", "asker", "42", QuestionScored, 5, 10000, 10000, 0, false)

  /** The verdict on one correct reply. */
  lemma CorrectOutcome()
    ensures OutcomeOf("42") == Outcome(5, Fraction(1, 1), Fraction(1, 1), map[0 := Mark(5, Fraction(1, 1))])
  {
    var replies := map[0 := RepliedRow("42").reply];
    assert Correct("42", replies) == {0};
    assert OutcomeOf("42").marks == map[0 := Mark(5, Fraction(1, 1))];
  }

  /** The only question is asked, answered correctly and scored to the end. */
  lemma AskedAndScored() returns (states: seq<State>, events: seq<Event>)
    ensures IsRun(SOLO, states, events)
    ensures var db := states[|events|].db;
      && db.questions == map[0 := ASKED_WELL]
      && db.rows == map[0 := RepliedRow("42").(status := Scored, score := 5, share := 10000)]
  {
    states, events := JustWon("42");
    CorrectOutcome();
    assert WonQuestion(OutcomeOf("42")) == ASKED_WELL;
    states, events := Extend(SOLO, states, events, Run(1, 0));
  }

  lemma SecondIsEligible()
    ensures var db := AddQuestion(FirstAsked(), "set", "asker", "43");
      Eligible(PutRow(db, 0, NewRow(0, "worker", 10)), "worker", 1, 1)
  {
    var rows := map[0 := NewRow(0, "worker", 10)];
    assert Attempts(rows, "worker", 1) == {};
    assert TimedOutAttempts(rows, "worker", 1) == {};
    assert Active(rows, 1) == {};
    assert "asker"[0] != "worker"[0];
  }

  /** Two polls of one worker overlap: the first claims a question after the second
      found no claim, and the second may pick another question, but its insert meets
      the unique index. */
  lemma OverlappingPollIsRejected() returns (states: seq<State>, events: seq<Event>)
    ensures IsRun(SOLO, states, events) && |events| == 3
    ensures MayClaim(states[2].db, "worker") && Eligible(states[3].db, "worker", 1, 1)
    ensures Insert(states[3].db, 1, "worker", 20) == None
  {
    states, events := [Initial()], [];
    states, events := Extend(SOLO, states, events, Ask("set", "asker", "42"));
    states, events := Extend(SOLO, states, events, Ask("set", "asker", "43"));
    FirstIsEligible();
    assert Eligible(states[2].db, "worker", 0, 1);
    states, events := Extend(SOLO, states, events, Poll("worker", None, Some(0), 10));
    SecondIsEligible();
    assert StillClaimed(states[3].db, 0);
  }
}
