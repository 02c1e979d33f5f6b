/** No claim is forgotten: every claimed row has a timer thread, and once nothing
    runs any more no claim is left and every question is decided
    (internal/service/timer.go, poll.go, answer.go). */
module ProtocolTimers {
  import opened Tables
  import opened Protocol
  import opened ProtocolInvariant
  import opened ProtocolSteps
  import opened ProtocolRuns
  import opened ProtocolDeadlines
  import opened ProtocolCompletion

  /// ## The timer map

  /** An entry never names a later thread, nor the armed timer of another row. */
  predicate EntryFine(s: State, a: nat)
  {
    a in s.timers ==>
      && s.timers[a] < s.nextThread
      && (s.timers[a] in s.threads ==>
            && !s.threads[s.timers[a]].StartingTimer?
            && (s.threads[s.timers[a]].Armed? ==> s.threads[s.timers[a]].a == a))
  }

  /** A handler that is about to cancel a timer has seen its row leave claimed. */
  predicate NoticeFine(s: State, t: nat)
  {
    t in s.threads && s.threads[t].Notifying? ==> !StillClaimed(s.db, s.threads[t].a)
  }

  ghost predicate TimersFine(s: State)
  {
    && (forall a :: EntryFine(s, a))
    && (forall t :: NoticeFine(s, t))
  }

  lemma CancelKeepsEntries(s: State, b: nat, a: nat)
    requires EntryFine(s, a)
    ensures EntryFine(Cancelled(s, b), a)
  {
  }

  lemma RunKeepsEntries(p: Params, s: State, t: nat, choice: nat, a: nat)
    requires RunEnabled(s, t, choice) && EntryFine(s, a) && t < s.nextThread
    ensures EntryFine(AfterRun(p, s, t, choice), a)
  {
    match s.threads[t] {
      case Notifying(b, _) => CancelKeepsEntries(s, b, a);
      case _ =>
    }
  }

  lemma EntryKept(p: Params, s: State, e: Event, a: nat)
    requires ThreadsFine(p, s) && Enabled(p, s, e) && EntryFine(s, a)
    ensures EntryFine(After(p, s, e), a)
  {
    match e {
      case Run(t, choice) => RunKeepsEntries(p, s, t, choice, a);
      case _ =>
    }
  }

  /** A thread that notifies did so before, or has just recorded the reply. */
  lemma NotifierBefore(p: Params, s: State, t: nat, choice: nat, u: nat)
    requires RunEnabled(s, t, choice)
    requires u in AfterRun(p, s, t, choice).threads && AfterRun(p, s, t, choice).threads[u].Notifying?
    ensures Kept(s, AfterRun(p, s, t, choice), u)
         || (u == t && Records(s, Run(t, choice), AfterRun(p, s, t, choice).threads[u].a))
  {
    match s.threads[t] {
      case Notifying(b, _) => CancelStartsNothing(s, b, u);
      case _ =>
    }
  }

  /** The row of a recorded reply has left claimed. */
  lemma RecordedLeaves(p: Params, s: State, e: Event, a: nat)
    requires Enabled(p, s, e) && Records(s, e, a)
    ensures !StillClaimed(After(p, s, e).db, a)
  {
  }

  lemma ClaimedBefore(p: Params, db: Db, db': Db, a: nat)
    requires Progress(p, db, db') && a in db.rows && StillClaimed(db', a)
    ensures StillClaimed(db, a)
  {
    assert Later(db.rows[a], db'.rows[a]);
  }

  lemma NoticeStays(p: Params, s: State, s': State, u: nat)
    requires ThreadsFine(p, s) && Progress(p, s.db, s'.db) && Kept(s, s', u) && NoticeFine(s, u)
    ensures NoticeFine(s', u)
  {
    assert ThreadFine(p, s.db, s.now, s.threads[u]);
    if s.threads[u].Notifying? && StillClaimed(s'.db, s.threads[u].a) {
      ClaimedBefore(p, s.db, s'.db, s.threads[u].a);
    }
  }

  lemma KeptUnlessRun(p: Params, s: State, e: Event, u: nat)
    requires Enabled(p, s, e) && !e.Run? && u in After(p, s, e).threads && After(p, s, e).threads[u].Notifying?
    ensures Kept(s, After(p, s, e), u)
  {
  }

  lemma NoticeKept(p: Params, s: State, e: Event, u: nat)
    requires Inv(p, s) && Enabled(p, s, e) && NoticeFine(s, u)
    ensures NoticeFine(After(p, s, e), u)
  {
    var s' := After(p, s, e);
    if u in s'.threads && s'.threads[u].Notifying? {
      if e.Run? { NotifierBefore(p, s, e.t, e.choice, u); } else { KeptUnlessRun(p, s, e, u); }
      if Kept(s, s', u) {
        StepKeeps(p, s, e);
        NoticeStays(p, s, s', u);
      } else {
        RecordedLeaves(p, s, e, s'.threads[u].a);
      }
    }
  }

  lemma TimersKept(p: Params, s: State, e: Event)
    requires Inv(p, s) && Enabled(p, s, e) && TimersFine(s)
    ensures TimersFine(After(p, s, e))
  {
    forall a ensures EntryFine(After(p, s, e), a) {
      EntryKept(p, s, e, a);
    }
    forall t ensures NoticeFine(After(p, s, e), t) {
      NoticeKept(p, s, e, t);
    }
  }

  lemma {:induction false} TimersFineAt(p: Params, states: seq<State>, events: seq<Event>, n: nat)
    requires IsRun(p, states, events) && n <= |events|
    ensures TimersFine(states[n])
    decreases n
  {
    if n > 0 {
      TimersFineAt(p, states, events, n - 1);
      InvAt(p, states, events, n - 1);
      TimersKept(p, states[n - 1], events[n - 1]);
    }
  }

  /// ## Every claim has a timer

  /** The thread will time row `a` out, unless it is answered first. */
  predicate Times(thread: Thread, a: nat)
  {
    match thread
    case StartingTimer(b, _, _) => b == a
    case Armed(b, _, _) => b == a
    case Firing(b, _) => b == a
    case Looking(b, _) => b == a
    case TimingOut(b, _) => b == a
    case _ => false
  }

  predicate Guards(s: State, t: nat, a: nat)
  {
    t in s.threads && Times(s.threads[t], a)
  }

  ghost predicate Guarded(s: State, a: nat)
  {
    StillClaimed(s.db, a) ==> exists t :: Guards(s, t, a)
  }

  lemma TimerMovesOn(p: Params, s: State, t: nat, choice: nat, a: nat)
    requires RunEnabled(s, t, choice) && Guards(s, t, a) && StillClaimed(s.db, a)
    ensures var s' := AfterRun(p, s, t, choice); Guards(s', t, a) || !StillClaimed(s'.db, a)
  {
  }

  /** No timer of a row that is still claimed is cancelled. */
  lemma NotStopped(s: State, e: Event, t: nat, a: nat)
    requires TimersFine(s) && Guards(s, t, a) && StillClaimed(s.db, a)
    ensures !Stops(s, e, t)
  {
    assert e.Run? && e.t in s.threads && s.threads[e.t].Notifying? ==>
      EntryFine(s, s.threads[e.t].a) && NoticeFine(s, e.t);
  }

  lemma GuardGoesOn(p: Params, s: State, e: Event, t: nat, a: nat)
    requires ThreadsFine(p, s) && TimersFine(s) && Enabled(p, s, e) && !e.Crash?
    requires Guards(s, t, a) && StillClaimed(s.db, a) && StillClaimed(After(p, s, e).db, a)
    ensures Guards(After(p, s, e), t, a)
  {
    if e.Run? && e.t == t {
      TimerMovesOn(p, s, t, e.choice, a);
    } else {
      NotStopped(s, e, t, a);
      OthersKept(p, s, e, t);
    }
  }

  lemma RunAddsNoRow(p: Params, s: State, t: nat, choice: nat, a: nat)
    requires RunEnabled(s, t, choice) && a in AfterRun(p, s, t, choice).db.rows
    ensures a in s.db.rows
  {
    match s.threads[t] {
      case Notifying(b, _) => assert Cancelled(s, b).db == s.db;
      case _ =>
    }
  }

  /** A new row comes from a poll, which starts its timer. */
  lemma NewRowIsGuarded(p: Params, s: State, e: Event, a: nat)
    requires Enabled(p, s, e) && a !in s.db.rows && a in After(p, s, e).db.rows
    ensures Guards(After(p, s, e), s.nextThread, a)
  {
    match e {
      case Run(t, choice) => RunAddsNoRow(p, s, t, choice, a);
      case _ =>
    }
  }

  /** Every step but a crash keeps a claimed row guarded. */
  lemma StepGuards(p: Params, s: State, e: Event, a: nat)
    requires Inv(p, s) && TimersFine(s) && Enabled(p, s, e) && !e.Crash? && Guarded(s, a)
    ensures Guarded(After(p, s, e), a)
  {
    if StillClaimed(After(p, s, e).db, a) {
      if a in s.db.rows {
        StepKeeps(p, s, e);
        ClaimedBefore(p, s.db, After(p, s, e).db, a);
        var t :| Guards(s, t, a);
        GuardGoesOn(p, s, e, t, a);
      } else {
        NewRowIsGuarded(p, s, e, a);
      }
    }
  }

  /// ## Over a run

  /** The last step before point `i` is a restart's start of a timer of row `a`. */
  predicate TimedAgain(events: seq<Event>, i: nat, a: nat)
  {
    0 < i <= |events| && events[i - 1] == RecoverTimer(a)
  }

  /** At point `i` of the run row `a` is not claimed, or a restart has just started
      its timer again: RecoverOnStartup does so for every claimed row. */
  predicate Watched(states: seq<State>, events: seq<Event>, i: nat, a: nat)
    requires i <= |events| && |states| == |events| + 1
  {
    !StillClaimed(states[i].db, a) || TimedAgain(events, i, a)
  }

  lemma WatchedIsGuarded(p: Params, states: seq<State>, events: seq<Event>, i: nat, a: nat)
    requires IsRun(p, states, events) && i <= |events| && Watched(states, events, i, a)
    ensures Guarded(states[i], a)
  {
    if TimedAgain(events, i, a) {
      assert Guards(states[i], states[i - 1].nextThread, a);
    }
  }

  lemma NextGuarded(p: Params, states: seq<State>, events: seq<Event>, k: nat, a: nat)
    requires IsRun(p, states, events) && k < |events| && !events[k].Crash? && Guarded(states[k], a)
    ensures Guarded(states[k + 1], a)
  {
    InvAt(p, states, events, k);
    TimersFineAt(p, states, events, k);
    StepGuards(p, states[k], events[k], a);
  }

  lemma {:induction false} StaysGuarded(p: Params, states: seq<State>, events: seq<Event>, i: nat, n: nat, a: nat)
    requires IsRun(p, states, events) && i <= n <= |events| && NoCrash(events, i, n) && Guarded(states[i], a)
    ensures Guarded(states[n], a)
    decreases n
  {
    if i < n {
      StaysGuarded(p, states, events, i, n - 1, a);
      NextGuarded(p, states, events, n - 1, a);
    }
  }

  /** No claim is left without a timer, however polls, answers, cancellations and
      timers interleave. */
  lemma NeverUnguarded(p: Params, states: seq<State>, events: seq<Event>, i: nat, n: nat, a: nat)
    requires IsRun(p, states, events) && i <= n <= |events| && NoCrash(events, i, n)
    requires Watched(states, events, i, a)
    ensures StillClaimed(states[n].db, a) ==> exists t :: Guards(states[n], t, a)
  {
    WatchedIsGuarded(p, states, events, i, a);
    StaysGuarded(p, states, events, i, n, a);
  }

  /// ## When nothing runs any more

  ghost predicate WatchedSince(states: seq<State>, events: seq<Event>, c: nat, n: nat, a: nat)
    requires c <= n <= |events| && |states| == |events| + 1
  {
    exists i :: c <= i <= n && Watched(states, events, i, a)
  }

  ghost predicate AttendedSince(p: Params, states: seq<State>, events: seq<Event>, c: nat, n: nat, q: nat)
    requires c <= n <= |events| && |states| == |events| + 1
  {
    exists i :: c <= i <= n && Attended(p, states, events, i, q)
  }

  /** Since point `c`, the start or a crash, a restart has been complete: every row
      was found not claimed or got its timer again, and every question was found not
      scorable or was tried again. */
  ghost predicate Restarted(p: Params, states: seq<State>, events: seq<Event>, c: nat, n: nat)
    requires c <= n <= |events| && |states| == |events| + 1
  {
    && (forall a :: WatchedSince(states, events, c, n, a))
    && (forall q :: AttendedSince(p, states, events, c, n, q))
  }

  /** When every handler has ended, and the restart after the last crash was
      complete, no row is claimed any more. */
  lemma NoClaimLeft(p: Params, states: seq<State>, events: seq<Event>, c: nat, n: nat, a: nat)
    requires IsRun(p, states, events) && c <= n <= |events| && NoCrash(events, c, n)
    requires Restarted(p, states, events, c, n) && states[n].threads == map[]
    ensures !StillClaimed(states[n].db, a)
  {
    assert WatchedSince(states, events, c, n, a);
    var i :| c <= i <= n && Watched(states, events, i, a);
    NeverUnguarded(p, states, events, i, n, a);
  }

  /** Then, too, every question either has too few answers and is still open, or was
      won by exactly one scorer, and is settled unless a crash cut that scorer off. */
  lemma EveryQuestionDecided(p: Params, states: seq<State>, events: seq<Event>, c: nat, n: nat, q: nat)
    requires IsRun(p, states, events) && c <= n <= |events| && NoCrash(events, c, n)
    requires Restarted(p, states, events, c, n) && states[n].threads == map[] && q in states[n].db.questions
    ensures IsOpen(states[n].db, q) <==> |AnsweredRows(states[n].db.rows, q)| < p.required
    ensures IsScored(states[n].db, q) <==> OneWin(states, events, n, q)
    ensures IsScored(states[n].db, q) ==>
      (Settled(states[n].db, q) <==> !(exists k :: 0 <= k < c && CutsAt(states, events, k, q)))
  {
    assert AttendedSince(p, states, events, c, n, q);
    var i :| c <= i <= n && Attended(p, states, events, i, q);
    ExactlyOneWins(p, states, events, i, n, q);
    ScoredByOne(p, states, events, n, q);
    if IsScored(states[n].db, q) {
      SettledUnlessCut(p, states, events, n, q);
      assert forall k :: 0 <= k < n && CutsAt(states, events, k, q) ==> k < c;
    }
  }

  /** The start needs no restart. */
  lemma FreshStart(p: Params, states: seq<State>, events: seq<Event>, n: nat)
    requires IsRun(p, states, events) && n <= |events|
    ensures Restarted(p, states, events, 0, n)
  {
    forall a ensures WatchedSince(states, events, 0, n, a) {
      assert Watched(states, events, 0, a);
    }
    forall q ensures AttendedSince(p, states, events, 0, n, q) {
      assert Attended(p, states, events, 0, q);
    }
  }

  /** A run without a crash that has come to rest: nothing is claimed, and every
      question is open with too few answers or has all its marks. */
  lemma RestAfterNoCrash(p: Params, states: seq<State>, events: seq<Event>, n: nat)
    requires IsRun(p, states, events) && n <= |events| && NoCrash(events, 0, n) && states[n].threads == map[]
    ensures forall a :: !StillClaimed(states[n].db, a)
    ensures forall q :: q in states[n].db.questions ==>
      if |AnsweredRows(states[n].db.rows, q)| < p.required then IsOpen(states[n].db, q) else Settled(states[n].db, q)
  {
    FreshStart(p, states, events, n);
    forall a ensures !StillClaimed(states[n].db, a) {
      NoClaimLeft(p, states, events, 0, n, a);
    }
    forall q | q in states[n].db.questions && !IsOpen(states[n].db, q)
      ensures |AnsweredRows(states[n].db.rows, q)| >= p.required && Settled(states[n].db, q)
    {
      EveryQuestionDecided(p, states, events, 0, n, q);
    }
    forall q | q in states[n].db.questions && IsOpen(states[n].db, q)
      ensures |AnsweredRows(states[n].db.rows, q)| < p.required
    {
      EveryQuestionDecided(p, states, events, 0, n, q);
    }
  }

  /** The answer's callback stops the row's timer unless it fired, leaves every other timer
      alone, and goes on to try the question. */
  lemma AnswerStopsTimer(p: Params, s: State, t: nat)
    requires t in s.threads && s.threads[t].Notifying?
    ensures var a, after := s.threads[t].a, AfterRun(p, s, t, 0);
      && after.db == s.db && after.timers == s.timers - {a}
      && t in after.threads && after.threads[t] == Trying(s.threads[t].q)
      && (forall u :: u != t && u in s.threads ==>
            (u !in after.threads <==> a in s.timers && u == s.timers[a] && s.threads[u].Armed?))
      && (forall u :: u != t && u in after.threads ==> u in s.threads && after.threads[u] == s.threads[u])
  {
  }

  /** A timer is armed under its row before the deadline, and starts the timeout at once
      from the deadline on; an armed one waits for the deadline. */
  lemma TimerStartLaw(p: Params, s: State, t: nat)
    requires t in s.threads && s.threads[t].StartingTimer?
    ensures var thread, after := s.threads[t], AfterRun(p, s, t, 0);
      && after.db == s.db && after.threads.Keys == s.threads.Keys
      && (s.now < thread.ddl ==>
            && after.threads == s.threads[t := Armed(thread.a, thread.q, thread.ddl)]
            && after.timers == s.timers[thread.a := t])
      && (thread.ddl <= s.now ==>
            after.threads == s.threads[t := Firing(thread.a, thread.q)] && after.timers == s.timers)
  {
  }

  /** The timeout writes exactly a claimed row, as timed out, and then tries the question;
      without a claim it ends and writes nothing. */
  lemma TimeoutLaw(p: Params, s: State, t: nat)
    requires Reachable(p, s) && t in s.threads && s.threads[t].TimingOut?
    ensures var thread, after := s.threads[t], AfterRun(p, s, t, 0);
      && after.db.questions == s.db.questions && after.timers == s.timers
      && (thread.a in s.db.rows && s.db.rows[thread.a].status == Claimed ==>
            && after.db.rows == s.db.rows[thread.a := s.db.rows[thread.a].(status := TimedOut)]
            && after.threads == s.threads[t := Trying(thread.q)])
      && (thread.a in s.db.rows && s.db.rows[thread.a].status != Claimed ==>
            after.db.rows == s.db.rows && after.threads == s.threads - {t})
  {
    ClaimsScoreNothing(p, s, s.threads[t].a);
  }

  lemma ClaimsScoreNothing(p: Params, s: State, a: nat)
    requires Reachable(p, s)
    ensures a in s.db.rows && s.db.rows[a].status == Claimed ==> s.db.rows[a].score == 0 && s.db.rows[a].share == 0
  {
    ReachableInv(p, s);
    if a in s.db.rows { assert RowFine(p, s.db, s.now, a); }
  }

  /** A try scores the question exactly with enough replied rows. */
  lemma TryLaw(p: Params, s: State, t: nat)
    requires t in s.threads && s.threads[t].Trying?
    ensures var q, after := s.threads[t].q, AfterRun(p, s, t, 0);
      && after.db == s.db
      && (|set a | a in s.db.rows && s.db.rows[a].question == q && s.db.rows[a].status == Replied| >= p.required ==>
            after.threads == s.threads[t := Counted(q)])
      && (|set a | a in s.db.rows && s.db.rows[a].question == q && s.db.rows[a].status == Replied| < p.required ==>
            after.threads == s.threads - {t})
  {
    var q := s.threads[t].q;
    assert RepliedRows(s.db.rows, q)
        == set a | a in s.db.rows && s.db.rows[a].question == q && s.db.rows[a].status == Replied;
  }
}
