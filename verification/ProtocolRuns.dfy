/** What holds over whole runs of the protocol. */
module ProtocolRuns {
  import opened Wrappers
  import opened Scoring
  import opened Tables
  import opened Protocol
  import opened ProtocolInvariant
  import opened ProtocolSteps

  /// ## Every reachable state

  lemma {:induction false} InvAt(p: Params, states: seq<State>, events: seq<Event>, k: nat)
    requires IsRun(p, states, events) && k <= |events|
    ensures Inv(p, states[k])
    decreases k
  {
    if k == 0 {
      InitialInv(p);
    } else {
      InvAt(p, states, events, k - 1);
      StepKeeps(p, states[k - 1], events[k - 1]);
    }
  }

  lemma ReachableInv(p: Params, s: State)
    requires Reachable(p, s)
    ensures Inv(p, s)
  {
    var states: seq<State>, events: seq<Event> :| IsRun(p, states, events) && states[|events|] == s;
    InvAt(p, states, events, |events|);
  }

  /** The slot limits, in every reachable state: at most `required` claimed or
      replied rows per question, at most one claimed row per worker, at most one
      row per worker and question that has not timed out and at most two in all,
      and nobody answers their own question. */
  lemma SlotLimits(p: Params, s: State)
    requires Reachable(p, s)
    ensures forall q: nat :: |Active(s.db.rows, q)| <= p.required
    ensures OneClaim(s.db.rows) && OneLive(s.db.rows)
    ensures forall w: Address, q: nat :: |Attempts(s.db.rows, w, q)| <= 2
    ensures forall a :: a in s.db.rows ==>
      s.db.rows[a].question in s.db.questions && s.db.rows[a].worker != s.db.questions[s.db.rows[a].question].questioner
  {
    ReachableInv(p, s);
    forall a | a in s.db.rows ensures RowFine(p, s.db, s.now, a) {}
  }

  /** The insert of a poll never meets the unique index, so no poll rolls back. */
  lemma PollNeverRejected(p: Params, s: State, w: Address, held: Option<nat>, pick: Option<nat>, ddl: int)
    requires Reachable(p, s) && PollEnabled(p, s, w, held, pick) && pick.Some?
    ensures Insert(Cleaned(s.db, s.now, held), pick.value, w, ddl).Some?
    ensures var rows, n := AfterPoll(s, w, held, pick, ddl).db.rows, s.db.nextRow;
      n !in s.db.rows && n in rows && rows[n] == NewRow(pick.value, w, ddl)
  {
    ReachableInv(p, s);
    FreshRow(p, s.db, s.now);
    InsertAccepted(p, s.db, s.now, w, held);
  }

  /** One event appended to a run. */
  lemma Extend(p: Params, states: seq<State>, events: seq<Event>, e: Event)
    returns (states': seq<State>, events': seq<Event>)
    requires IsRun(p, states, events) && Enabled(p, states[|events|], e)
    ensures IsRun(p, states', events') && |events'| == |events| + 1
    ensures events'[..|events|] == events && states'[..|states|] == states
    ensures events'[|events|] == e && states'[|events'|] == After(p, states[|events|], e)
  {
    states', events' := states + [After(p, states[|events|], e)], events + [e];
    forall k | 0 <= k < |events'|
      ensures Enabled(p, states'[k], events'[k]) && states'[k + 1] == After(p, states'[k], events'[k])
    {
      if k < |events| {
        assert states'[k] == states[k] && states'[k + 1] == states[k + 1] && events'[k] == events[k];
      }
    }
  }

  /// ## Histories of rows

  lemma StepProgress(p: Params, states: seq<State>, events: seq<Event>, k: nat)
    requires IsRun(p, states, events) && k < |events|
    ensures Progress(p, states[k].db, states[k + 1].db)
  {
    InvAt(p, states, events, k);
    StepKeeps(p, states[k], events[k]);
  }

  ghost predicate Progresses(p: Params, states: seq<State>, k: int)
  {
    0 <= k < |states| - 1 && Progress(p, states[k].db, states[k + 1].db)
  }

  lemma {:induction false} ChainProgress(p: Params, states: seq<State>, i: nat, j: nat)
    requires i <= j < |states| && forall k :: 0 <= k < |states| - 1 ==> Progresses(p, states, k)
    ensures Progress(p, states[i].db, states[j].db)
    decreases j
  {
    if i == j {
      NoProgress(p, states[i].db);
    } else {
      ChainProgress(p, states, i, j - 1);
      assert Progresses(p, states, j - 1);
      ProgressTransitive(p, states[i].db, states[j - 1].db, states[j].db);
    }
  }

  lemma ProgressBetween(p: Params, states: seq<State>, events: seq<Event>, i: nat, j: nat)
    requires IsRun(p, states, events) && i <= j <= |events|
    ensures Progress(p, states[i].db, states[j].db)
  {
    forall k | 0 <= k < |states| - 1 ensures Progresses(p, states, k) {
      StepProgress(p, states, events, k);
    }
    ChainProgress(p, states, i, j);
  }

  /** Any number of timers, cleanups and answers race, yet a row leaves claimed
      once, for replied or timed out and never both; an accepted reply stays as it
      was accepted, and a row that timed out had reached its deadline. */
  lemma RowHistory(p: Params, states: seq<State>, events: seq<Event>, i: nat, j: nat, a: nat)
    requires IsRun(p, states, events) && i <= j <= |events| && a in states[i].db.rows
    ensures a in states[j].db.rows
    ensures var r, r' := states[i].db.rows[a], states[j].db.rows[a];
      && SameIdentity(r, r')
      && (r.status == TimedOut ==> r' == r)
      && (r.status == Scored ==> r' == r)
      && (r.status == Replied ==> r'.status in {Replied, Scored} && r'.reply == r.reply)
      && (r'.status == Claimed ==> r == r')
      && (r'.status == TimedOut ==> states[j].now >= r'.ddl && r'.reply == NO_REPLY)
  {
    ProgressBetween(p, states, events, i, j);
    InvAt(p, states, events, j);
    assert Later(states[i].db.rows[a], states[j].db.rows[a]);
    assert RowFine(p, states[j].db, states[j].now, a);
  }

  /// ## The reply set freezes

  /** From the moment a question has enough replies until it is scored, it has no
      claimed row, exactly the required number of replies, and no step of any
      handler adds, removes or changes a row of it. */
  lemma ReplySetFreezes(p: Params, states: seq<State>, events: seq<Event>, i: nat, j: nat, q: nat)
    requires IsRun(p, states, events) && i <= j <= |events|
    requires IsOpen(states[i].db, q) && |RepliedRows(states[i].db.rows, q)| >= p.required
    ensures |RepliedRows(states[i].db.rows, q)| == p.required
    ensures forall a :: a in states[i].db.rows && states[i].db.rows[a].question == q ==>
      states[i].db.rows[a].status != Claimed
    ensures IsOpen(states[j].db, q) ==> SameRows(states[i].db.rows, states[j].db.rows, q)
    ensures IsScored(states[j].db, q) ==> RepliesOf(states[j].db.rows, q) == RepliesOf(states[i].db.rows, q)
  {
    InvAt(p, states, events, i);
    FullHasNoClaims(p, states[i].db, states[i].now, q);
    ProgressBetween(p, states, events, i, j);
    assert Frozen(p, states[i].db, states[j].db, q);
  }

  /// ## One scorer wins

  /** Step `k` is a compare-and-set on `q` that succeeds. */
  ghost predicate WinsAt(states: seq<State>, events: seq<Event>, k: nat, q: nat)
    requires |states| == |events| + 1
  {
    && k < |events| && events[k].Run?
    && events[k].t in states[k].threads && states[k].threads[events[k].t].Judging?
    && states[k].threads[events[k].t].q == q
    && IsOpen(states[k].db, q) && IsScored(states[k + 1].db, q)
  }

  /** However many scorers run, at most one compare-and-set succeeds per question. */
  lemma AtMostOneWin(p: Params, states: seq<State>, events: seq<Event>, i: nat, j: nat, q: nat)
    requires IsRun(p, states, events) && WinsAt(states, events, i, q) && WinsAt(states, events, j, q)
    ensures i == j
  {
    if i < j {
      ScoredStays(p, states, events, i + 1, j, q);
    } else if j < i {
      ScoredStays(p, states, events, j + 1, i, q);
    }
  }

  lemma ScoredStays(p: Params, states: seq<State>, events: seq<Event>, i: nat, j: nat, q: nat)
    requires IsRun(p, states, events) && i <= j <= |events| && IsScored(states[i].db, q)
    ensures IsScored(states[j].db, q) && states[j].db.questions[q] == states[i].db.questions[q]
  {
    ProgressBetween(p, states, events, i, j);
    assert LaterQuestion(states[i].db.questions[q], states[j].db.questions[q]);
  }

  /** Only a successful compare-and-set makes a question scored. */
  lemma OnlyWinsScore(p: Params, s: State, e: Event, q: nat)
    requires Enabled(p, s, e)
    ensures IsScored(After(p, s, e).db, q) ==> IsScored(s.db, q) || IsWin(s, e, q)
  {
    match e {
      case Poll(w, held, pick, ddl) => PollKeepsQuestions(s, w, held, pick, ddl);
      case Run(t, choice) => RunKeepsQuestions(p, s, t, choice, q);
      case _ =>
    }
  }

  ghost predicate IsWin(s: State, e: Event, q: nat)
  {
    e.Run? && e.t in s.threads && s.threads[e.t].Judging? && s.threads[e.t].q == q && IsOpen(s.db, q)
  }

  lemma PollKeepsQuestions(s: State, w: Address, held: Option<nat>, pick: Option<nat>, ddl: int)
    ensures AfterPoll(s, w, held, pick, ddl).db.questions == s.db.questions
  {
  }

  lemma RunKeepsQuestions(p: Params, s: State, t: nat, choice: nat, q: nat)
    requires RunEnabled(s, t, choice)
    ensures IsScored(AfterRun(p, s, t, choice).db, q) ==> IsScored(s.db, q) || IsWin(s, Run(t, choice), q)
  {
    match s.threads[t] {
      case Notifying(a, _) => assert Cancelled(s, a).db == s.db;
      case _ =>
    }
  }

  /** A question is scored exactly when one step of the run won it. */
  lemma {:induction false} ScoredIffWon(p: Params, states: seq<State>, events: seq<Event>, n: nat, q: nat)
    requires IsRun(p, states, events) && n <= |events|
    ensures IsScored(states[n].db, q) <==> exists k :: 0 <= k < n && WinsAt(states, events, k, q)
    decreases n
  {
    forall k | 0 <= k < n && WinsAt(states, events, k, q) ensures IsScored(states[n].db, q) {
      ScoredStays(p, states, events, k + 1, n, q);
    }
    if n > 0 {
      ScoredIffWon(p, states, events, n - 1, q);
      OnlyWinsScore(p, states[n - 1], events[n - 1], q);
      if IsScored(states[n].db, q) && !IsScored(states[n - 1].db, q) {
        assert WinsAt(states, events, n - 1, q);
      }
    }
  }

  /// ## Scoring completes

  /** Every row of the question is timed out, or scored with its mark. */
  ghost predicate Settled(db: Db, q: nat)
    requires q in db.questions
  {
    var o := Judge(db.questions[q].answer, RepliesOf(db.rows, q));
    && Carries(db.questions[q], db.rows, q, o)
    && forall a :: a in db.rows && db.rows[a].question == q ==>
         db.rows[a].status == TimedOut || (db.rows[a].status == Scored && a in o.marks)
  }

  /** What a finished scorer leaves of an untorn question. */
  lemma UntornIsFinished(p: Params, s: State, q: nat, o: Outcome)
    requires Inv(p, s) && IsScored(s.db, q) && q !in s.torn && Marked(s.db.rows, q, o)
    requires forall t :: !Writes(s, t, q)
    ensures forall a :: a in s.db.rows && s.db.rows[a].question == q ==>
      s.db.rows[a].status == TimedOut || (s.db.rows[a].status == Scored && a in o.marks)
  {
    ListsAreUnwritten(p, s);
    forall a | a in s.db.rows && s.db.rows[a].question == q
      ensures s.db.rows[a].status == TimedOut || (s.db.rows[a].status == Scored && a in o.marks)
    {
      assert RowFine(p, s.db, s.now, a);
      NotUnwritten(p, s, q, a);
    }
  }

  lemma TornIsUnfinished(s: State, q: nat)
    requires TornFine(s) && q in s.torn && q in s.db.questions
    ensures !Settled(s.db, q)
  {
    var a :| Unwritten(s.db, a) && s.db.rows[a].question == q;
  }

  /** A scored question whose scorer has ended is settled, exactly when no crash
      cut its scorer off before the last assignment write. */
  lemma SettledUnlessTorn(p: Params, s: State, q: nat)
    requires Reachable(p, s) && IsScored(s.db, q) && forall t :: !Writes(s, t, q)
    ensures Settled(s.db, q) <==> q !in s.torn
    ensures |AnsweredRows(s.db.rows, q)| == p.required
  {
    ReachableInv(p, s);
    assert QuestionFine(p, s.db.questions[q], s.db.rows, q);
    if q in s.torn {
      TornIsUnfinished(s, q);
    } else {
      UntornIsFinished(p, s, q, Expected(s.db.questions[q].answer, s.db.rows, q));
    }
  }

  lemma NotUnwritten(p: Params, s: State, q: nat, a: nat)
    requires Covered(s) && ListsUnwritten(s) && q !in s.torn && forall t :: !Writes(s, t, q)
    requires a in s.db.rows && s.db.rows[a].question == q
    ensures !Unwritten(s.db, a)
  {
    if Unwritten(s.db, a) {
      var t :| Covers(s, t, a);
      assert Writes(s, t, q);
    }
  }

  /** Without a crash nothing is ever torn. */
  lemma {:induction false} NothingTornWithoutCrash(p: Params, states: seq<State>, events: seq<Event>, n: nat)
    requires IsRun(p, states, events) && n <= |events|
    requires forall k :: 0 <= k < n ==> !events[k].Crash?
    ensures states[n].torn == {}
    decreases n
  {
    if n > 0 {
      NothingTornWithoutCrash(p, states, events, n - 1);
    }
  }

  lemma CancelKeepsTorn(s: State, a: nat)
    ensures Cancelled(s, a).torn == s.torn
  {
  }

  lemma RunKeepsTorn(p: Params, s: State, t: nat, choice: nat)
    requires RunEnabled(s, t, choice)
    ensures AfterRun(p, s, t, choice).torn == s.torn
  {
    match s.threads[t] {
      case Notifying(a, _) => CancelKeepsTorn(s, a);
      case _ =>
    }
  }

  lemma OnlyCrashesTear(p: Params, s: State, e: Event)
    requires Enabled(p, s, e)
    ensures After(p, s, e).torn == s.torn + if e.Crash? then CutWriters(s) else {}
  {
    match e {
      case Run(t, choice) => RunKeepsTorn(p, s, t, choice);
      case _ =>
    }
  }

  /** Step `k` is a crash while a scorer of `q` still had marks to write. */
  predicate CutsAt(states: seq<State>, events: seq<Event>, k: nat, q: nat)
    requires k < |events| < |states|
  {
    events[k].Crash? && q in CutWriters(states[k])
  }

  lemma {:induction false} TornIffCut(p: Params, states: seq<State>, events: seq<Event>, n: nat, q: nat)
    requires IsRun(p, states, events) && n <= |events|
    ensures q in states[n].torn <==> exists k :: 0 <= k < n && CutsAt(states, events, k, q)
    decreases n
  {
    if n > 0 {
      TornIffCut(p, states, events, n - 1, q);
      OnlyCrashesTear(p, states[n - 1], events[n - 1]);
      if q in states[n].torn && q !in states[n - 1].torn {
        assert CutsAt(states, events, n - 1, q);
      }
    }
  }

  lemma ReachedByRun(p: Params, states: seq<State>, events: seq<Event>, n: nat)
    requires IsRun(p, states, events) && n <= |events|
    ensures Reachable(p, states[n])
  {
    assert IsRun(p, states[..n + 1], events[..n]) && states[..n + 1][n] == states[n];
  }

  /** A scored question whose scorer has ended is settled, exactly when no step of
      the run was a crash that cut a scorer of it off before its last write. */
  lemma SettledUnlessCut(p: Params, states: seq<State>, events: seq<Event>, n: nat, q: nat)
    requires IsRun(p, states, events) && n <= |events|
    requires IsScored(states[n].db, q) && forall t :: !Writes(states[n], t, q)
    ensures Settled(states[n].db, q) <==> !(exists k :: 0 <= k < n && CutsAt(states, events, k, q))
  {
    ReachedByRun(p, states, events, n);
    SettledUnlessTorn(p, states[n], q);
    TornIffCut(p, states, events, n, q);
  }
}
