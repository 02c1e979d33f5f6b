/** What uninterrupted handlers achieve in reachable states. */
module HandlerRuns {
  import opened Tables
  import opened Protocol
  import opened ProtocolInvariant
  import opened ProtocolSteps
  import opened ProtocolRuns
  import opened Handlers

  /** An open question has no scorer past the compare-and-set and is not torn. */
  lemma OpenIsUntouched(p: Params, s: State, q: nat)
    requires Inv(p, s) && IsOpen(s.db, q)
    ensures q !in s.torn && forall t :: !Writes(s, t, q)
  {
    forall t ensures !Writes(s, t, q) {
      if Writes(s, t, q) {
        WriterIsScored(p, s, t);
      }
    }
    assert forall a :: Unwritten(s.db, a) ==> s.db.rows[a].question != q;
  }

  lemma AcceptAddsReply(db: Db, a: nat, valid: bool, answer: string)
    requires StillClaimed(db, a)
    ensures var q := db.rows[a].question;
      |RepliedRows(Accept(db, a, valid, answer).0.rows, q)| == |RepliedRows(db.rows, q)| + 1
  {
    var q := db.rows[a].question;
    assert RepliedRows(Accept(db, a, valid, answer).0.rows, q) == RepliedRows(db.rows, q) + {a};
  }

  lemma ScoringScores(required: nat, db: Db, q: nat, now: int)
    requires q in db.questions && db.questions[q].status == Submitted
    requires |RepliedRows(db.rows, q)| >= required && required > 0
    ensures IsScored(TryScoreAlone(required, db, q, now), q)
  {
  }

  /** The answer that completes the required number, when its handler runs to its
      end undisturbed, leaves the question settled: every row is timed out or
      scored with its mark from the reference outcome. */
  lemma LastReplySettles(p: Params, s: State, q: nat, w: Address, valid: bool, answer: string, fits: bool, a: nat)
    requires Reachable(p, s) && IsOpen(s.db, q)
    requires SubmitVerdict(s, q, w, fits, a) == Recorded && |RepliedRows(s.db.rows, q)| + 1 >= p.required
    ensures var s' := SubmitAlone(p.required, s.(nextThread := s.nextThread + 1), q, w, valid, answer, fits, a);
      Reachable(p, s') && IsScored(s'.db, q) && Settled(s'.db, q)
  {
    var idle := s.(nextThread := s.nextThread + 1);
    var s' := SubmitAlone(p.required, idle, q, w, valid, answer, fits, a);
    ReachableInv(p, s);
    OpenIsUntouched(p, s, q);
    StepReachable(p, s, Submit(q, w, valid, answer, fits));
    SubmitThread(p, s, q, w, valid, answer, fits, a);
    LeadsReachable(p, Spawn(s, Answering(q, w, valid, answer, fits)), s.nextThread, s');
    AcceptAddsReply(s.db, a, valid, answer);
    var accepted := Accept(s.db, a, valid, answer).0;
    ScoringScores(p.required, accepted, q, s.now);
    RecordedState(p, idle, q, w, valid, answer, fits, a);
    forall t ensures !Writes(s', t, q) {
      assert t in s'.threads ==> t in s.threads && s'.threads[t] == s.threads[t];
      assert !Writes(s, t, q);
    }
    SettledUnlessTorn(p, s', q);
  }

  /** What a recorded answer leaves: the tables scored, no new thread. */
  lemma RecordedState(p: Params, s: State, q: nat, w: Address, valid: bool, answer: string, fits: bool, a: nat)
    requires SubmitVerdict(s, q, w, fits, a) == Recorded
    ensures var s' := SubmitAlone(p.required, s, q, w, valid, answer, fits, a);
      && s'.db == TryScoreAlone(p.required, Accept(s.db, a, valid, answer).0, q, s.now)
      && s'.torn == s.torn
      && forall t :: t in s'.threads ==> t in s.threads && s'.threads[t] == s.threads[t]
  {
  }
}
