/** Where everything in the tables comes from: over any run each question is some
    asker's, each row some poll's, each reply some submission's, and each scoring time
    the clock of the winning step (internal/service/question.go, poll.go, answer.go,
    scoring.go). */
module ProtocolOrigins {
  import opened Wrappers
  import opened Scoring
  import opened Tables
  import opened Protocol
  import opened ProtocolInvariant
  import opened ProtocolSteps
  import opened ProtocolRuns
  import opened ProtocolDeadlines
  import opened ProtocolCompletion
  import opened ProtocolTimers

  /// ## Questions

  /** Step `k` asks question `q` with these columns. */
  predicate AskedAt(states: seq<State>, events: seq<Event>, k: nat, q: nat, question: Question)
    requires k < |events| < |states|
  {
    && events[k] == Ask(question.bsId, question.questioner, question.answer)
    && q !in states[k].db.questions && q in states[k + 1].db.questions
  }

  lemma RunAddsNoQuestion(p: Params, s: State, t: nat, choice: nat, q: nat)
    requires RunEnabled(s, t, choice) && q in AfterRun(p, s, t, choice).db.questions
    ensures q in s.db.questions
  {
    match s.threads[t] {
      case Notifying(a, _) => assert Cancelled(s, a).db == s.db;
      case _ =>
    }
  }

  lemma NewQuestionsAreAsked(p: Params, s: State, e: Event, q: nat)
    requires Enabled(p, s, e) && q !in s.db.questions && q in After(p, s, e).db.questions
    ensures var x := After(p, s, e).db.questions[q]; e == Ask(x.bsId, x.questioner, x.answer) && x.status == Submitted
  {
    match e {
      case Poll(w, held, pick, ddl) => PollKeepsQuestions(s, w, held, pick, ddl);
      case Run(t, choice) => RunAddsNoQuestion(p, s, t, choice, q);
      case _ =>
    }
  }

  /** Every question was asked in some step, with its set, its asker and its reference
      answer, and nothing has changed these since. */
  lemma {:induction false} QuestionOrigin(p: Params, states: seq<State>, events: seq<Event>, n: nat, q: nat)
    returns (k: nat)
    requires IsRun(p, states, events) && n <= |events| && q in states[n].db.questions
    ensures k < n && AskedAt(states, events, k, q, states[n].db.questions[q])
    decreases n
  {
    if n == 0 {
      assert false;
    } else if q in states[n - 1].db.questions {
      k := QuestionOrigin(p, states, events, n - 1, q);
      StepProgress(p, states, events, n - 1);
      assert LaterQuestion(states[n - 1].db.questions[q], states[n].db.questions[q]);
    } else {
      k := n - 1;
      NewQuestionsAreAsked(p, states[k], events[k], q);
    }
  }

  /// ## Rows

  /** Step `k` is the poll that claims row `a`: the row is for the poll's worker, its
      picked question and its deadline. */
  predicate ClaimedAt(states: seq<State>, events: seq<Event>, k: nat, a: nat, row: Assignment)
    requires k < |events| < |states|
  {
    && events[k].Poll? && events[k].w == row.worker && events[k].pick == Some(row.question) && events[k].ddl == row.ddl
    && a !in states[k].db.rows && StillClaimed(states[k + 1].db, a)
  }

  lemma NewRowsAreClaims(p: Params, s: State, e: Event, a: nat)
    requires Enabled(p, s, e) && a !in s.db.rows && a in After(p, s, e).db.rows
    ensures e.Poll? && e.pick.Some? && After(p, s, e).db.rows[a] == NewRow(e.pick.value, e.w, e.ddl)
  {
    match e {
      case Run(t, choice) => RunAddsNoRow(p, s, t, choice, a);
      case _ =>
    }
  }

  /** Every row was claimed by a poll of its worker, which picked its question and set
      its deadline. */
  lemma {:induction false} RowOrigin(p: Params, states: seq<State>, events: seq<Event>, n: nat, a: nat)
    returns (k: nat)
    requires IsRun(p, states, events) && n <= |events| && a in states[n].db.rows
    ensures k < n && ClaimedAt(states, events, k, a, states[n].db.rows[a])
    decreases n
  {
    if n == 0 {
      assert false;
    } else if a in states[n - 1].db.rows {
      k := RowOrigin(p, states, events, n - 1, a);
      StepProgress(p, states, events, n - 1);
      assert Later(states[n - 1].db.rows[a], states[n].db.rows[a]);
    } else {
      k := n - 1;
      NewRowsAreClaims(p, states[k], events[k], a);
    }
  }

  /// ## Replies

  /** The thread bears what event `e` submitted. */
  predicate Bears(db: Db, thread: Thread, e: Event)
  {
    match thread
    case Answering(q, w, valid, answer, fits) => e == Submit(q, w, valid, answer, fits)
    case Checking(a, q, _, _, valid, answer, fits) =>
      a in db.rows && db.rows[a].question == q && e == Submit(q, db.rows[a].worker, valid, answer, fits)
    case Submitting(a, q, valid, answer) =>
      a in db.rows && db.rows[a].question == q && e == Submit(q, db.rows[a].worker, valid, answer, true)
    case _ => true
  }

  predicate IsSubmission(thread: Thread)
  {
    thread.Answering? || thread.Checking? || thread.Submitting?
  }

  lemma RunBearsOn(p: Params, s: State, t: nat, choice: nat, e: Event)
    requires RunEnabled(s, t, choice) && Bears(s.db, s.threads[t], e)
    requires t in AfterRun(p, s, t, choice).threads && IsSubmission(AfterRun(p, s, t, choice).threads[t])
    ensures IsSubmission(s.threads[t])
    ensures Bears(s.db, AfterRun(p, s, t, choice).threads[t], e)
  {
  }

  lemma BearsStays(p: Params, db: Db, db': Db, thread: Thread, e: Event)
    requires Progress(p, db, db') && Bears(db, thread, e)
    ensures Bears(db', thread, e)
  {
    if thread.Checking? || thread.Submitting? {
      assert Later(db.rows[thread.a], db'.rows[thread.a]);
    }
  }

  /** A submission's thread that was there before. */
  lemma SubmissionBefore(p: Params, s: State, e: Event, t: nat)
    requires Enabled(p, s, e) && t in After(p, s, e).threads && IsSubmission(After(p, s, e).threads[t])
    ensures Kept(s, After(p, s, e), t) || (e.Run? && e.t == t) || Bears(s.db, After(p, s, e).threads[t], e)
    ensures e.Run? && e.t == t ==> t in s.threads && IsSubmission(s.threads[t])
  {
    match e {
      case Run(u, choice) => RunSubmissionBefore(p, s, u, choice, t);
      case _ =>
    }
  }

  lemma RunSubmissionBefore(p: Params, s: State, u: nat, choice: nat, t: nat)
    requires RunEnabled(s, u, choice) && t in AfterRun(p, s, u, choice).threads
    requires IsSubmission(AfterRun(p, s, u, choice).threads[t])
    ensures Kept(s, AfterRun(p, s, u, choice), t) || u == t
    ensures u == t ==> IsSubmission(s.threads[t])
  {
    match s.threads[u] {
      case Notifying(a, _) => CancelStartsNothing(s, a, t);
      case _ =>
    }
  }

  /** A submission's thread started with this event, or bears what it bore before. */
  lemma SubmissionStep(p: Params, s: State, e: Event, t: nat, origin: Event)
    requires Inv(p, s) && Enabled(p, s, e)
    requires t in After(p, s, e).threads && IsSubmission(After(p, s, e).threads[t])
    ensures (t in s.threads && IsSubmission(s.threads[t]))
         || (e.Submit? && Bears(After(p, s, e).db, After(p, s, e).threads[t], e))
    ensures t in s.threads && IsSubmission(s.threads[t]) && Bears(s.db, s.threads[t], origin) ==>
      Bears(After(p, s, e).db, After(p, s, e).threads[t], origin)
  {
    var s' := After(p, s, e);
    SubmissionBefore(p, s, e, t);
    StepKeeps(p, s, e);
    if t in s.threads && IsSubmission(s.threads[t]) && Bears(s.db, s.threads[t], origin) {
      if e.Run? && e.t == t { RunBearsOn(p, s, t, e.choice, origin); }
      BearsStays(p, s.db, s'.db, s'.threads[t], origin);
    }
  }

  predicate Submits(s: State, t: nat)
  {
    t in s.threads && IsSubmission(s.threads[t])
  }

  predicate SubmitsAs(s: State, t: nat, e: Event)
  {
    Submits(s, t) && Bears(s.db, s.threads[t], e)
  }

  lemma SubmissionAt(p: Params, states: seq<State>, events: seq<Event>, k: nat, t: nat, origin: Event)
    requires IsRun(p, states, events) && k < |events| && Submits(states[k + 1], t)
    ensures Submits(states[k], t) || (events[k].Submit? && SubmitsAs(states[k + 1], t, events[k]))
    ensures SubmitsAs(states[k], t, origin) ==> SubmitsAs(states[k + 1], t, origin)
  {
    InvAt(p, states, events, k);
    SubmissionStep(p, states[k], events[k], t, origin);
  }

  /** Every thread of a submission bears what some earlier event submitted, for the
      worker of its row. */
  lemma {:induction false} SubmissionOrigin(p: Params, states: seq<State>, events: seq<Event>, n: nat, t: nat)
    returns (i: nat)
    requires IsRun(p, states, events) && n <= |events| && Submits(states[n], t)
    ensures i < n && events[i].Submit? && SubmitsAs(states[n], t, events[i])
    decreases n
  {
    if n == 0 {
      assert false;
    } else {
      SubmissionAt(p, states, events, n - 1, t, events[n - 1]);
      if Submits(states[n - 1], t) {
        i := SubmissionOrigin(p, states, events, n - 1, t);
        SubmissionAt(p, states, events, n - 1, t, events[i]);
      } else {
        i := n - 1;
      }
    }
  }

  /** The write puts the thread's verdict and answer into the row. */
  lemma RecordedReply(p: Params, s: State, e: Event, a: nat)
    requires Enabled(p, s, e) && Records(s, e, a)
    ensures var thread := s.threads[e.t];
      a in After(p, s, e).db.rows
      && After(p, s, e).db.rows[a].reply == Reply(Some(thread.valid), Some(thread.answer))
  {
  }

  /** Every recorded reply is what a worker submitted: when row `a` goes from claimed to
      replied in step `k`, an earlier submission for the row's question, by the row's
      worker and short enough, carries exactly the verdict and the answer that the row
      then holds. */
  lemma ReplyOrigin(p: Params, states: seq<State>, events: seq<Event>, k: nat, a: nat) returns (i: nat)
    requires IsRun(p, states, events) && k < |events| && RepliedAt(states, k, a)
    ensures i < k && events[i].Submit? && events[i].fits
    ensures events[i].q == states[k].db.rows[a].question && events[i].w == states[k].db.rows[a].worker
    ensures states[k + 1].db.rows[a].reply == Reply(Some(events[i].valid), Some(events[i].answer))
  {
    OnlyAnswersReply(p, states[k], events[k], a);
    i := SubmissionOrigin(p, states, events, k, events[k].t);
    RecordedReply(p, states[k], events[k], a);
  }

  /** A submission that found its row claimed is recorded next, expires the row or is
      dropped, by the clock and the length of the answer. */
  lemma DeadlineTest(p: Params, s: State, t: nat)
    requires t in s.threads && s.threads[t].Checking? && s.threads[t].wasClaimed
    ensures var thread, after := s.threads[t], AfterRun(p, s, t, 0);
      && after.db == s.db
      && (s.now <= thread.ddl && thread.fits ==>
            after.threads == s.threads[t := Submitting(thread.a, thread.q, thread.valid, thread.answer)])
      && (s.now <= thread.ddl && !thread.fits ==> after.threads == s.threads - {t})
      && (thread.ddl < s.now ==> after.threads == s.threads[t := Expiring(thread.a)])
  {
  }

  /** What a row holds in each status, in every reachable state: nothing before an
      answer, an accepted reply after it, a score once its question has one; and it
      times out only when its deadline has come. */
  lemma RowLaw(p: Params, s: State, a: nat)
    requires Reachable(p, s) && a in s.db.rows
    ensures var row := s.db.rows[a];
      && row.question in s.db.questions && row.worker != s.db.questions[row.question].questioner
      && (row.status == Claimed ==>
            row.reply == Reply(None, None) && s.db.questions[row.question].status == Submitted)
      && (row.status == TimedOut ==> row.reply == Reply(None, None) && row.ddl <= s.now)
      && (row.status == Replied || row.status == Scored ==> row.reply.valid.Some? && row.reply.answer.Some?)
      && (row.status == Scored ==> s.db.questions[row.question].status == QuestionScored)
      && (row.status != Scored ==> row.score == 0 && row.share == 0)
  {
    ReachableInv(p, s);
    assert RowFine(p, s.db, s.now, a);
  }

  /// ## Scoring times

  lemma WinTime(p: Params, s: State, e: Event, q: nat)
    requires Enabled(p, s, e) && IsWin(s, e, q) && IsScored(After(p, s, e).db, q)
    ensures After(p, s, e).db.questions[q].scoredAt == s.now
  {
  }

  /** A scored question bears the time at which its scorer won. */
  lemma ScoredAtOrigin(p: Params, states: seq<State>, events: seq<Event>, n: nat, q: nat) returns (k: nat)
    requires IsRun(p, states, events) && n <= |events| && IsScored(states[n].db, q)
    ensures k < n && WinsAt(states, events, k, q)
    ensures states[n].db.questions[q].scoredAt == states[k].now
  {
    ScoredIffWon(p, states, events, n, q);
    k :| 0 <= k < n && WinsAt(states, events, k, q);
    WinTime(p, states[k], events[k], q);
    ScoredStays(p, states, events, k + 1, n, q);
  }
}
