/** Which replies are recorded, and exactly when one is recorded late: the handler
    compares the clock with the deadline before it writes, and the guarded write
    looks at the status only (internal/service/answer.go). */
module ProtocolDeadlines {
  import opened Wrappers
  import opened Tables
  import opened Protocol
  import opened ProtocolSteps
  import opened ProtocolRuns

  /// ## Only answers record replies

  /** The event is the guarded write of a reply into the claimed row `a`. */
  predicate Records(s: State, e: Event, a: nat)
  {
    && e.Run? && e.t in s.threads
    && s.threads[e.t].Submitting? && s.threads[e.t].a == a && StillClaimed(s.db, a)
  }

  /** Row `a` was replied before, for the same question. */
  predicate WasReplied(rows: Rows, rows': Rows, a: nat)
  {
    a in rows && rows[a].status == Replied && a in rows' && rows[a].question == rows'[a].question
  }

  predicate IsReplied(rows: Rows, a: nat)
  {
    a in rows && rows[a].status == Replied
  }

  lemma PollReplies(s: State, w: Address, held: Option<nat>, pick: Option<nat>, ddl: int, a: nat)
    ensures var rows' := AfterPoll(s, w, held, pick, ddl).db.rows;
      IsReplied(rows', a) ==> WasReplied(s.db.rows, rows', a)
  {
  }

  lemma RunReplies(p: Params, s: State, t: nat, choice: nat, a: nat)
    requires RunEnabled(s, t, choice)
    ensures var rows' := AfterRun(p, s, t, choice).db.rows;
      IsReplied(rows', a) ==> WasReplied(s.db.rows, rows', a) || Records(s, Run(t, choice), a)
  {
    match s.threads[t] {
      case Notifying(b, _) => assert Cancelled(s, b).db == s.db;
      case _ =>
    }
  }

  /** No step but the guarded write of an answer makes a row replied. */
  lemma OnlyAnswersReply(p: Params, s: State, e: Event, a: nat)
    requires Enabled(p, s, e)
    ensures var rows' := After(p, s, e).db.rows;
      IsReplied(rows', a) ==> WasReplied(s.db.rows, rows', a) || Records(s, e, a)
  {
    match e {
      case Poll(w, held, pick, ddl) => PollReplies(s, w, held, pick, ddl, a);
      case Run(t, choice) => RunReplies(p, s, t, choice, a);
      case _ =>
    }
  }

  /// ## Every write passed the deadline test before

  /** The event is the deadline test of the handler `t` that answers row `a`, passed
      on the deadline `ddl` that it read. */
  predicate PassesTest(s: State, e: Event, t: nat, a: nat, ddl: int)
  {
    && e.Run? && e.t == t && t in s.threads && s.threads[t].Checking?
    && s.threads[t].a == a && s.threads[t].wasClaimed && s.threads[t].ddl == ddl && s.now <= ddl
  }

  predicate AboutToRecord(s: State, t: nat, a: nat)
  {
    t in s.threads && s.threads[t].Submitting? && s.threads[t].a == a
  }

  lemma PollStartsNoAnswer(s: State, w: Address, held: Option<nat>, pick: Option<nat>, ddl: int, t: nat, a: nat)
    requires AboutToRecord(AfterPoll(s, w, held, pick, ddl), t, a)
    ensures AboutToRecord(s, t, a)
  {
  }

  lemma CancelStartsNothing(s: State, a: nat, t: nat)
    requires t in Cancelled(s, a).threads
    ensures t in s.threads && Cancelled(s, a).threads[t] == s.threads[t]
  {
  }

  lemma OtherRunStartsNoAnswer(p: Params, s: State, u: nat, choice: nat, t: nat, a: nat)
    requires RunEnabled(s, u, choice) && u != t && AboutToRecord(AfterRun(p, s, u, choice), t, a)
    ensures AboutToRecord(s, t, a)
  {
    match s.threads[u] {
      case Notifying(b, _) => CancelStartsNothing(s, b, t);
      case _ =>
    }
  }

  lemma OwnRunTests(p: Params, s: State, t: nat, choice: nat, a: nat)
    requires RunEnabled(s, t, choice) && AboutToRecord(AfterRun(p, s, t, choice), t, a)
    ensures s.threads[t].Checking? && PassesTest(s, Run(t, choice), t, a, s.threads[t].ddl)
  {
  }

  /** A handler that is about to write was so before, or passes the test now. */
  lemma AnswersComeFromTests(p: Params, s: State, e: Event, t: nat, a: nat)
    requires Enabled(p, s, e) && AboutToRecord(After(p, s, e), t, a)
    ensures AboutToRecord(s, t, a) || exists ddl :: PassesTest(s, e, t, a, ddl)
  {
    match e {
      case Poll(w, held, pick, ddl) => PollStartsNoAnswer(s, w, held, pick, ddl, t, a);
      case Run(u, choice) =>
        if u == t {
          OwnRunTests(p, s, t, choice, a);
        } else {
          OtherRunStartsNoAnswer(p, s, u, choice, t, a);
        }
      case _ =>
    }
  }

  /** The deadline a handler tests is the row's, then and ever after. */
  lemma TestedDeadline(p: Params, states: seq<State>, events: seq<Event>, i: nat, n: nat, t: nat, a: nat, ddl: int)
    requires IsRun(p, states, events) && i <= n <= |events| && i < |events|
    requires PassesTest(states[i], events[i], t, a, ddl)
    ensures a in states[n].db.rows && states[n].db.rows[a].ddl == ddl
  {
    InvAt(p, states, events, i);
    assert ThreadFine(p, states[i].db, states[i].now, states[i].threads[t]);
    RowHistory(p, states, events, i, n, a);
  }

  lemma {:induction false} TestBefore(p: Params, states: seq<State>, events: seq<Event>, n: nat, t: nat, a: nat)
    returns (i: nat, ddl: int)
    requires IsRun(p, states, events) && n <= |events| && AboutToRecord(states[n], t, a)
    ensures i < n && PassesTest(states[i], events[i], t, a, ddl)
    ensures forall j :: i < j <= n ==> AboutToRecord(states[j], t, a)
    decreases n
  {
    if n == 0 {
      assert false;
    } else {
      AnswersComeFromTests(p, states[n - 1], events[n - 1], t, a);
      if AboutToRecord(states[n - 1], t, a) {
        i, ddl := TestBefore(p, states, events, n - 1, t, a);
      } else {
        i := n - 1;
        ddl :| PassesTest(states[i], events[i], t, a, ddl);
      }
    }
  }

  /// ## The clock

  lemma CancelKeepsClock(s: State, a: nat)
    ensures Cancelled(s, a).now == s.now
  {
  }

  lemma RunKeepsClock(p: Params, s: State, t: nat, choice: nat)
    requires RunEnabled(s, t, choice)
    ensures AfterRun(p, s, t, choice).now == s.now
  {
    match s.threads[t] {
      case Notifying(b, _) => CancelKeepsClock(s, b);
      case _ =>
    }
  }

  lemma StepClock(p: Params, s: State, e: Event)
    requires Enabled(p, s, e)
    ensures After(p, s, e).now == if e.Tick? then e.to else s.now
    ensures s.now <= After(p, s, e).now
  {
    match e {
      case Run(t, choice) => RunKeepsClock(p, s, t, choice);
      case _ =>
    }
  }

  /** The event moves the clock past `ddl`. */
  predicate TicksPast(e: Event, ddl: int)
  {
    e.Tick? && e.to > ddl
  }

  /** The clock has passed a deadline exactly when one of the ticks since did. */
  lemma {:induction false} PassedByTick(p: Params, states: seq<State>, events: seq<Event>, i: nat, k: nat, ddl: int)
    requires IsRun(p, states, events) && i <= k <= |events| && states[i].now <= ddl
    ensures states[k].now > ddl <==> exists j :: i <= j < k && TicksPast(events[j], ddl)
    decreases k
  {
    if i < k {
      PassedByTick(p, states, events, i, k - 1, ddl);
      StepClock(p, states[k - 1], events[k - 1]);
      if states[k].now > ddl && states[k - 1].now <= ddl {
        assert TicksPast(events[k - 1], ddl);
      }
    }
  }

  /** Row `a` goes from claimed to replied in step `k`. */
  predicate RepliedAt(states: seq<State>, k: nat, a: nat)
    requires k + 1 < |states|
  {
    StillClaimed(states[k].db, a) && IsReplied(states[k + 1].db.rows, a)
  }

  /** Every recorded reply passed the test of its row's deadline in time, in an
      earlier step `i` of the handler that records it, which then had only the write
      left; and it is recorded after the deadline exactly when a tick between that
      test and the write went past the deadline. */
  lemma LateIffTickBetween(p: Params, states: seq<State>, events: seq<Event>, k: nat, a: nat) returns (i: nat)
    requires IsRun(p, states, events) && k < |events| && RepliedAt(states, k, a)
    ensures i < k && events[k].Run? && PassesTest(states[i], events[i], events[k].t, a, states[k].db.rows[a].ddl)
    ensures forall j :: i < j <= k ==> AboutToRecord(states[j], events[k].t, a)
    ensures var ddl := states[k].db.rows[a].ddl;
      states[k].now > ddl <==> exists j :: i <= j < k && TicksPast(events[j], ddl)
  {
    OnlyAnswersReply(p, states[k], events[k], a);
    var ddl;
    i, ddl := TestBefore(p, states, events, k, events[k].t, a);
    TestedDeadline(p, states, events, i, k, events[k].t, a, ddl);
    PassedByTick(p, states, events, i, k, ddl);
  }
}
