/** No question is forgotten: a question with enough replies is scored, or some
    handler is still on its way to score it (internal/service/timer.go, scoring.go). */
module ProtocolCompletion {
  import opened Tables
  import opened Protocol
  import opened ProtocolInvariant
  import opened ProtocolSteps
  import opened ProtocolRuns
  import opened ProtocolDeadlines
  import opened Sets

  /// ## Other handlers are left alone

  /** The event cancels the armed timer `t`. */
  predicate Stops(s: State, e: Event, t: nat)
  {
    && e.Run? && e.t in s.threads && s.threads[e.t].Notifying? && s.threads[e.t].a in s.timers
    && s.timers[s.threads[e.t].a] == t && t in s.threads && s.threads[t].Armed?
  }

  predicate Kept(s: State, s': State, t: nat)
  {
    t in s.threads && t in s'.threads && s'.threads[t] == s.threads[t]
  }

  lemma RunKeepsOthers(p: Params, s: State, u: nat, choice: nat, t: nat)
    requires RunEnabled(s, u, choice) && t in s.threads && t != u && !Stops(s, Run(u, choice), t)
    ensures Kept(s, AfterRun(p, s, u, choice), t)
  {
    match s.threads[u] {
      case Notifying(a, _) => assert Kept(s, Cancelled(s, a), t);
      case _ =>
    }
  }

  lemma OthersKept(p: Params, s: State, e: Event, t: nat)
    requires ThreadsFine(p, s) && Enabled(p, s, e) && !e.Crash?
    requires t in s.threads && !(e.Run? && e.t == t) && !Stops(s, e, t)
    ensures Kept(s, After(p, s, e), t)
  {
    assert t < s.nextThread;
    match e {
      case Run(u, choice) => RunKeepsOthers(p, s, u, choice, t);
      case _ =>
    }
  }

  /// ## Pursuit of a question

  /** The thread still has a chance to score `q`. */
  predicate Pursues(thread: Thread, q: nat)
  {
    match thread
    case Notifying(_, r) => r == q
    case Trying(r) => r == q
    case Counted(r) => r == q
    case Listing(r, _) => r == q
    case Judging(r, _) => r == q
    case _ => false
  }

  predicate Chases(s: State, t: nat, q: nat)
  {
    t in s.threads && Pursues(s.threads[t], q)
  }

  /** Open, with enough replies. */
  predicate Scorable(p: Params, db: Db, q: nat)
  {
    IsOpen(db, q) && |RepliedRows(db.rows, q)| >= p.required
  }

  ghost predicate Pursued(p: Params, s: State, q: nat)
  {
    Scorable(p, s.db, q) ==> exists t :: Chases(s, t, q)
  }

  /** A scorer of a scorable question that nobody has scored yet moves on: it fails no
      test on its way. */
  lemma ScorerMovesOn(p: Params, s: State, t: nat, choice: nat, q: nat)
    requires RunEnabled(s, t, choice) && Chases(s, t, q) && Scorable(p, s.db, q)
    ensures var s' := AfterRun(p, s, t, choice); Chases(s', t, q) || !IsOpen(s'.db, q)
  {
    assert s.threads[t].Listing? ==> RepliedRows(s.db.rows, q) != {};
  }

  /** A recorded reply leaves its handler in pursuit of the row's question. */
  lemma RecorderPursues(p: Params, s: State, e: Event, a: nat)
    requires ThreadsFine(p, s) && Enabled(p, s, e) && Records(s, e, a)
    ensures Chases(After(p, s, e), e.t, s.db.rows[a].question)
  {
    assert ThreadFine(p, s.db, s.now, s.threads[e.t]);
  }

  lemma NoNewReplies(rows: Rows, rows': Rows, q: nat)
    requires forall a :: IsReplied(rows', a) && rows'[a].question == q ==> WasReplied(rows, rows', a)
    ensures |RepliedRows(rows', q)| <= |RepliedRows(rows, q)|
  {
    SubsetSize(RepliedRows(rows', q), RepliedRows(rows, q));
  }

  lemma RecordedQuestion(p: Params, s: State, e: Event, a: nat)
    requires Inv(p, s) && Enabled(p, s, e) && Records(s, e, a)
    ensures a in After(p, s, e).db.rows && After(p, s, e).db.rows[a].question == s.db.rows[a].question
  {
    StepKeeps(p, s, e);
    assert Later(s.db.rows[a], After(p, s, e).db.rows[a]);
  }

  lemma OpenBefore(p: Params, db: Db, db': Db, q: nat)
    requires Progress(p, db, db') && IsOpen(db', q) && q in db.questions
    ensures IsOpen(db, q)
  {
    assert LaterQuestion(db.questions[q], db'.questions[q]);
  }

  /** Only a recorded reply makes a question scorable. */
  lemma ScorableBefore(p: Params, s: State, e: Event, q: nat)
    requires Inv(p, s) && Enabled(p, s, e) && Scorable(p, After(p, s, e).db, q)
    requires forall a :: Records(s, e, a) ==> s.db.rows[a].question != q
    ensures Scorable(p, s.db, q)
  {
    var db' := After(p, s, e).db;
    forall a | IsReplied(db'.rows, a) && db'.rows[a].question == q ensures WasReplied(s.db.rows, db'.rows, a) {
      OnlyAnswersReply(p, s, e, a);
      if Records(s, e, a) { RecordedQuestion(p, s, e, a); }
    }
    NoNewReplies(s.db.rows, db'.rows, q);
    EnoughMeansFull(p, s, q);
    StepKeeps(p, s, e);
    OpenBefore(p, s.db, db', q);
  }

  /** Every step but a crash keeps a scorable question pursued. */
  lemma StepPursues(p: Params, s: State, e: Event, q: nat)
    requires Inv(p, s) && Enabled(p, s, e) && !e.Crash? && Pursued(p, s, q)
    ensures Pursued(p, After(p, s, e), q)
  {
    var s' := After(p, s, e);
    if Scorable(p, s'.db, q) {
      if a :| Records(s, e, a) && s.db.rows[a].question == q {
        RecorderPursues(p, s, e, a);
      } else {
        ScorableBefore(p, s, e, q);
        var t :| Chases(s, t, q);
        ChaseGoesOn(p, s, e, t, q);
      }
    }
  }

  lemma ChaseGoesOn(p: Params, s: State, e: Event, t: nat, q: nat)
    requires ThreadsFine(p, s) && Enabled(p, s, e) && !e.Crash?
    requires Chases(s, t, q) && Scorable(p, s.db, q) && IsOpen(After(p, s, e).db, q)
    ensures Chases(After(p, s, e), t, q)
  {
    if e.Run? && e.t == t {
      ScorerMovesOn(p, s, t, e.choice, q);
    } else {
      OthersKept(p, s, e, t);
    }
  }

  /// ## Over a run

  ghost predicate NoCrash(events: seq<Event>, i: nat, n: nat)
    requires n <= |events|
  {
    forall k :: i <= k < n ==> !events[k].Crash?
  }

  /** The last step before point `i` is a restart's attempt to score `q`. */
  predicate TriedAgain(events: seq<Event>, i: nat, q: nat)
  {
    0 < i <= |events| && events[i - 1] == RecoverScore(q)
  }

  /** At point `i` of the run `q` is short of replies, or a restart has just begun
      to score it: RecoverOnStartup does so for every scorable question. */
  predicate Attended(p: Params, states: seq<State>, events: seq<Event>, i: nat, q: nat)
    requires i <= |events| && |states| == |events| + 1
  {
    !Scorable(p, states[i].db, q) || TriedAgain(events, i, q)
  }

  lemma AttendedIsPursued(p: Params, states: seq<State>, events: seq<Event>, i: nat, q: nat)
    requires IsRun(p, states, events) && i <= |events| && Attended(p, states, events, i, q)
    ensures Pursued(p, states[i], q)
  {
    if TriedAgain(events, i, q) {
      assert Chases(states[i], states[i - 1].nextThread, q);
    }
  }

  lemma NextPursued(p: Params, states: seq<State>, events: seq<Event>, k: nat, q: nat)
    requires IsRun(p, states, events) && k < |events| && !events[k].Crash? && Pursued(p, states[k], q)
    ensures Pursued(p, states[k + 1], q)
  {
    InvAt(p, states, events, k);
    StepPursues(p, states[k], events[k], q);
  }

  lemma {:induction false} StaysPursued(p: Params, states: seq<State>, events: seq<Event>, i: nat, n: nat, q: nat)
    requires IsRun(p, states, events) && i <= n <= |events| && NoCrash(events, i, n) && Pursued(p, states[i], q)
    ensures Pursued(p, states[n], q)
    decreases n
  {
    if i < n {
      StaysPursued(p, states, events, i, n - 1, q);
      NextPursued(p, states, events, n - 1, q);
    }
  }

  /** No wake-up is lost: however answers, timers and scorers interleave, an open
      question with enough replies has a handler that is on its way to score it. */
  lemma NeverForgotten(p: Params, states: seq<State>, events: seq<Event>, i: nat, n: nat, q: nat)
    requires IsRun(p, states, events) && i <= n <= |events| && NoCrash(events, i, n)
    requires Attended(p, states, events, i, q)
    ensures Scorable(p, states[n].db, q) ==> exists t :: Chases(states[n], t, q)
  {
    AttendedIsPursued(p, states, events, i, q);
    StaysPursued(p, states, events, i, n, q);
  }

  /// ## Exactly one scorer wins

  ghost predicate OneWin(states: seq<State>, events: seq<Event>, n: nat, q: nat)
    requires n <= |events| && |states| == |events| + 1
  {
    exists k :: 0 <= k < n && WinsAt(states, events, k, q)
                && forall j :: 0 <= j < |events| && WinsAt(states, events, j, q) ==> j == k
  }

  lemma ScoredByOne(p: Params, states: seq<State>, events: seq<Event>, n: nat, q: nat)
    requires IsRun(p, states, events) && n <= |events|
    ensures IsScored(states[n].db, q) <==> OneWin(states, events, n, q)
  {
    ScoredIffWon(p, states, events, n, q);
    if IsScored(states[n].db, q) {
      var k :| 0 <= k < n && WinsAt(states, events, k, q);
      forall j | 0 <= j < |events| && WinsAt(states, events, j, q) ensures j == k {
        AtMostOneWin(p, states, events, j, k, q);
      }
    }
  }

  /** The answered rows of a question that is not scored are its replied rows. */
  lemma UnscoredAnswers(p: Params, db: Db, now: int, q: nat)
    requires DbInv(p, db, now) && !IsScored(db, q)
    ensures AnsweredRows(db.rows, q) == RepliedRows(db.rows, q)
    ensures AnsweredRows(db.rows, q) != {} ==> IsOpen(db, q)
  {
    forall a | a in db.rows && db.rows[a].question == q ensures db.rows[a].status != Scored && IsOpen(db, q) {
      assert RowFine(p, db, now, a);
    }
  }

  lemma ScoredHasAnswers(p: Params, db: Db, now: int, q: nat)
    requires DbInv(p, db, now) && IsScored(db, q)
    ensures |AnsweredRows(db.rows, q)| == p.required
  {
    assert QuestionFine(p, db.questions[q], db.rows, q);
  }

  /** Once nobody pursues it any more, a question has been won by exactly one scorer
      if and only if it has enough answers, and then it has exactly enough. */
  lemma ExactlyOneWins(p: Params, states: seq<State>, events: seq<Event>, i: nat, n: nat, q: nat)
    requires IsRun(p, states, events) && i <= n <= |events| && NoCrash(events, i, n)
    requires Attended(p, states, events, i, q) && forall t :: !Chases(states[n], t, q)
    ensures OneWin(states, events, n, q) <==> |AnsweredRows(states[n].db.rows, q)| >= p.required
    ensures OneWin(states, events, n, q) ==> |AnsweredRows(states[n].db.rows, q)| == p.required
  {
    NeverForgotten(p, states, events, i, n, q);
    ScoredByOne(p, states, events, n, q);
    InvAt(p, states, events, n);
    if IsScored(states[n].db, q) {
      ScoredHasAnswers(p, states[n].db, states[n].now, q);
    } else {
      UnscoredAnswers(p, states[n].db, states[n].now, q);
    }
  }
}
