/** A handler that runs alone is a sequence of steps of its protocol thread. */
module Handlers {
  import opened Wrappers
  import opened Scoring
  import opened Tables
  import opened Protocol

  /** The state after thread `t` takes these steps, if each is enabled. */
  ghost function Play(p: Params, s: State, t: nat, choices: seq<nat>): Option<State>
  {
    if choices == [] then Some(s)
    else
      var last := |choices| - 1;
      match Play(p, s, t, choices[..last])
      case None => None
      case Some(m) => if RunEnabled(m, t, choices[last]) then Some(AfterRun(p, m, t, choices[last])) else None
  }

  /** Some number of steps of thread `t` lead from `s` to `s'`. */
  ghost predicate Leads(p: Params, s: State, t: nat, s': State)
  {
    exists choices: seq<nat> :: Play(p, s, t, choices) == Some(s')
  }

  lemma LeadsNowhere(p: Params, s: State, t: nat)
    ensures Leads(p, s, t, s)
  {
    assert Play(p, s, t, []) == Some(s);
  }

  lemma LeadsOn(p: Params, first: State, t: nat, s: State, choice: nat)
    requires Leads(p, first, t, s) && RunEnabled(s, t, choice)
    ensures Leads(p, first, t, AfterRun(p, s, t, choice))
  {
    var choices :| Play(p, first, t, choices) == Some(s);
    var more := choices + [choice];
    assert more[..|more| - 1] == choices;
    assert Play(p, first, t, more) == Some(AfterRun(p, s, t, choice));
  }

  lemma {:induction false} LeadsThrough(p: Params, first: State, t: nat, s: State, s': State)
    requires Leads(p, first, t, s) && Leads(p, s, t, s')
    ensures Leads(p, first, t, s')
  {
    var choices :| Play(p, s, t, choices) == Some(s');
    PlayOn(p, first, t, s, choices, s');
  }

  lemma {:induction false} PlayOn(p: Params, first: State, t: nat, s: State, choices: seq<nat>, s': State)
    requires Leads(p, first, t, s) && Play(p, s, t, choices) == Some(s')
    ensures Leads(p, first, t, s')
    decreases |choices|
  {
    if choices != [] {
      var last := |choices| - 1;
      var m := Play(p, s, t, choices[..last]).value;
      PlayOn(p, first, t, s, choices[..last], m);
      LeadsOn(p, first, t, m, choices[last]);
    }
  }

  /** What a handler reaches is reachable. */
  lemma LeadsReachable(p: Params, s: State, t: nat, s': State)
    requires Reachable(p, s) && Leads(p, s, t, s')
    ensures Reachable(p, s')
  {
    var choices :| Play(p, s, t, choices) == Some(s');
    PlayReachable(p, s, t, choices, s');
  }

  lemma {:induction false} PlayReachable(p: Params, s: State, t: nat, choices: seq<nat>, s': State)
    requires Reachable(p, s) && Play(p, s, t, choices) == Some(s')
    ensures Reachable(p, s')
    decreases |choices|
  {
    if choices != [] {
      var last := |choices| - 1;
      var m := Play(p, s, t, choices[..last]).value;
      PlayReachable(p, s, t, choices[..last], m);
      StepReachable(p, m, Run(t, choices[last]));
    }
  }

  lemma StepReachable(p: Params, s: State, e: Event)
    requires Reachable(p, s) && Enabled(p, s, e)
    ensures Reachable(p, After(p, s, e))
  {
    var states: seq<State>, events: seq<Event> :| IsRun(p, states, events) && states[|events|] == s;
    var states', events' := states + [After(p, s, e)], events + [e];
    forall k | 0 <= k < |events'|
      ensures Enabled(p, states'[k], events'[k]) && states'[k + 1] == After(p, states'[k], events'[k])
    {
      if k < |events| {
        assert states'[k] == states[k] && states'[k + 1] == states[k + 1] && events'[k] == events[k];
      }
    }
    assert IsRun(p, states', events') && states'[|events'|] == After(p, s, e);
  }

  /// ## Whole handlers as functions of the tables

  /** Every mark written; the order of the writes does not matter. */
  function WriteAll(db: Db, marks: map<nat, Mark>): Db
  {
    db.(rows := map a | a in db.rows :: if a in marks then WriteScore(db, a, marks[a]).rows[a] else db.rows[a])
  }

  /** ScoreQuestion. */
  function ScoreAlone(db: Db, q: nat, now: int): Db
  {
    if !(q in db.questions && db.questions[q].status == Submitted) || RepliedRows(db.rows, q) == {} then db
    else
      var o := Judge(db.questions[q].answer, RepliesNow(db.rows, q));
      WriteAll(Win(db, q, o, now).0, o.marks)
  }

  /** TryScore. */
  function TryScoreAlone(required: nat, db: Db, q: nat, now: int): Db
  {
    if |RepliedRows(db.rows, q)| >= required then ScoreAlone(db, q, now) else db
  }

  /** handleTimeout, after it has forgotten the timer. */
  function TimeoutAlone(required: nat, db: Db, a: nat, q: nat, now: int): Db
  {
    if StillClaimed(db, a) then TryScoreAlone(required, Expire(db, a).0, q, now) else db
  }

  /// ## Each is what its thread does when nothing else runs

  lemma WriteAllNone(db: Db)
    ensures WriteAll(db, map[]) == db
  {
  }

  lemma WriteAllOne(db: Db, marks: map<nat, Mark>, a: nat)
    requires a in marks
    ensures WriteAll(WriteScore(db, a, marks[a]), marks - {a}) == WriteAll(db, marks)
  {
    var one := WriteScore(db, a, marks[a]);
    assert one.rows.Keys == db.rows.Keys;
    forall b | b in db.rows
      ensures WriteAll(one, marks - {a}).rows[b] == WriteAll(db, marks).rows[b]
    {
      assert b != a ==> one.rows[b] == db.rows[b];
    }
  }

  lemma {:induction false} WritingThread(p: Params, s: State, t: nat, q: nat, todo: map<nat, Mark>)
    requires t in s.threads && s.threads[t] == Writing(q, todo)
    ensures Leads(p, s, t, End(s.(db := WriteAll(s.db, todo)), t))
    decreases |todo|
  {
    LeadsNowhere(p, s, t);
    if todo == map[] {
      WriteAllNone(s.db);
      LeadsOn(p, s, t, s, 0);
    } else {
      var a :| a in todo;
      var rest := todo - {a};
      var s' := Become(s.(db := WriteScore(s.db, a, todo[a])), t, Writing(q, rest));
      OneFewer(todo, a);
      LeadsOn(p, s, t, s, a);
      WritingThread(p, s', t, q, rest);
      WriteAllOne(s.db, todo, a);
      var done := End(s'.(db := WriteAll(s'.db, rest)), t);
      assert done.threads == s.threads - {t};
      LeadsThrough(p, s, t, s', done);
    }
  }

  lemma OneFewer(todo: map<nat, Mark>, a: nat)
    requires a in todo
    ensures |todo - {a}| < |todo|
  {
    assert todo.Keys == (todo - {a}).Keys + {a};
  }

  lemma BecomeLast(s: State, t: nat, first: Thread, second: Thread, last: Thread, db: Db)
    ensures Become(Become(Become(s, t, first), t, second).(db := db), t, last) == Become(s.(db := db), t, last)
  {
  }

  /** A scorer that is alone reads, judges and wins. */
  lemma ScorerWins(p: Params, s: State, t: nat, q: nat, o: Outcome, db: Db)
    requires t in s.threads && s.threads[t] == Counted(q)
    requires q in s.db.questions && s.db.questions[q].status == Submitted && RepliedRows(s.db.rows, q) != {}
    requires o == Judge(s.db.questions[q].answer, RepliesNow(s.db.rows, q))
    requires (db, true) == Win(s.db, q, o, s.now)
    ensures Leads(p, s, t, Become(s.(db := db), t, Writing(q, o.marks)))
  {
    LeadsNowhere(p, s, t);
    LeadsOn(p, s, t, s, 0);
    var listing := Become(s, t, Listing(q, s.db.questions[q].answer));
    LeadsOn(p, s, t, listing, 0);
    var judging := Become(listing, t, Judging(q, o));
    LeadsOn(p, s, t, judging, 0);
    BecomeLast(s, t, listing.threads[t], judging.threads[t], Writing(q, o.marks), db);
  }

  lemma ScorerEnds(p: Params, s: State, t: nat, q: nat)
    requires t in s.threads && s.threads[t] == Counted(q)
    requires !(q in s.db.questions && s.db.questions[q].status == Submitted) || RepliedRows(s.db.rows, q) == {}
    ensures Leads(p, s, t, End(s, t))
  {
    LeadsNowhere(p, s, t);
    LeadsOn(p, s, t, s, 0);
    if q in s.db.questions && s.db.questions[q].status == Submitted {
      var listing := Become(s, t, Listing(q, s.db.questions[q].answer));
      LeadsOn(p, s, t, listing, 0);
      assert End(listing, t) == End(s, t);
    }
  }

  lemma ScoringThread(p: Params, s: State, t: nat, q: nat)
    requires t in s.threads && s.threads[t] == Counted(q)
    ensures Leads(p, s, t, End(s.(db := ScoreAlone(s.db, q, s.now)), t))
  {
    if !(q in s.db.questions && s.db.questions[q].status == Submitted) || RepliedRows(s.db.rows, q) == {} {
      ScorerEnds(p, s, t, q);
    } else {
      var o := Judge(s.db.questions[q].answer, RepliesNow(s.db.rows, q));
      var db := Win(s.db, q, o, s.now).0;
      ScorerWins(p, s, t, q, o, db);
      var writing := Become(s.(db := db), t, Writing(q, o.marks));
      WritingThread(p, writing, t, q, o.marks);
      var done := End(writing.(db := WriteAll(db, o.marks)), t);
      assert done.threads == s.threads - {t};
      LeadsThrough(p, s, t, writing, done);
    }
  }

  lemma TryingThread(p: Params, s: State, t: nat, q: nat)
    requires t in s.threads && s.threads[t] == Trying(q)
    ensures Leads(p, s, t, End(s.(db := TryScoreAlone(p.required, s.db, q, s.now)), t))
  {
    LeadsNowhere(p, s, t);
    LeadsOn(p, s, t, s, 0);
    if |RepliedRows(s.db.rows, q)| >= p.required {
      var counted := Become(s, t, Counted(q));
      ScoringThread(p, counted, t, q);
      var done := End(s.(db := ScoreAlone(s.db, q, s.now)), t);
      assert End(counted.(db := ScoreAlone(s.db, q, s.now)), t) == done;
      LeadsThrough(p, s, t, counted, done);
    }
  }

  /** handleTimeout forgets the timer and then does TimeoutAlone. */
  lemma FiringThread(p: Params, s: State, t: nat, a: nat, q: nat)
    requires t in s.threads && s.threads[t] == Firing(a, q)
    ensures Leads(p, s, t, End(s.(timers := s.timers - {a}, db := TimeoutAlone(p.required, s.db, a, q, s.now)), t))
  {
    LeadsNowhere(p, s, t);
    LeadsOn(p, s, t, s, 0);
    var looking := Become(s.(timers := s.timers - {a}), t, Looking(a, q));
    LeadsOn(p, s, t, looking, 0);
    var done := End(s.(timers := s.timers - {a}, db := TimeoutAlone(p.required, s.db, a, q, s.now)), t);
    if StillClaimed(s.db, a) {
      var timingOut := Become(looking, t, TimingOut(a, q));
      LeadsOn(p, s, t, timingOut, 0);
      var trying := Become(timingOut.(db := Expire(s.db, a).0), t, Trying(q));
      TryingThread(p, trying, t, q);
      assert End(trying.(db := TryScoreAlone(p.required, trying.db, q, s.now)), t) == done;
      LeadsThrough(p, s, t, trying, done);
    } else {
      assert End(looking, t) == done;
    }
  }

  datatype Verdict = NoAssignment | DeadlinePassed | TooLong | Recorded

  /** What SubmitAnswer reports when the query returns row `a`, if any. */
  function SubmitVerdict(s: State, q: nat, w: Address, fits: bool, a: nat): Verdict
  {
    if !(a in Attempts(s.db.rows, w, q) && s.db.rows[a].status == Claimed) then NoAssignment
    else if s.now > s.db.rows[a].ddl then DeadlinePassed
    else if !fits then TooLong
    else Recorded
  }

  /** The reply is written, then the callback cancels the timer and tries to score. */
  function RecordAlone(required: nat, s: State, q: nat, valid: bool, answer: string, a: nat): State
  {
    var told := Cancelled(s.(db := Accept(s.db, a, valid, answer).0), a);
    told.(db := TryScoreAlone(required, told.db, q, s.now))
  }

  /** SubmitAnswer with its callback. */
  function SubmitAlone(required: nat, s: State, q: nat, w: Address, valid: bool, answer: string, fits: bool,
                       a: nat): State
  {
    match SubmitVerdict(s, q, w, fits, a)
    case NoAssignment => s
    case DeadlinePassed => s.(db := Expire(s.db, a).0)
    case TooLong => s
    case Recorded => RecordAlone(required, s, q, valid, answer, a)
  }

  /** Scoring leaves every row's question, worker, deadline and reply alone. */
  lemma ScoringKeepsReply(required: nat, db: Db, q: nat, now: int, b: nat)
    requires b in db.rows
    ensures var db' := TryScoreAlone(required, db, q, now);
      && b in db'.rows && db'.rows[b].reply == db.rows[b].reply
      && db'.rows[b].question == db.rows[b].question && db'.rows[b].worker == db.rows[b].worker
      && db'.rows[b].ddl == db.rows[b].ddl && db'.rows[b].status in {db.rows[b].status, Scored}
  {
  }

  /** The row of a recorded answer holds it, whether or not it is scored at once. */
  predicate HasReply(rows: Rows, a: nat, q: nat, w: Address, valid: bool, answer: string)
  {
    && a in rows && rows[a].question == q && rows[a].worker == w
    && rows[a].status in {Replied, Scored} && rows[a].reply == Reply(Some(valid), Some(answer))
  }

  lemma RecordHolds(required: nat, s: State, q: nat, valid: bool, answer: string, a: nat)
    requires StillClaimed(s.db, a)
    ensures HasReply(RecordAlone(required, s, q, valid, answer, a).db.rows, a,
                  s.db.rows[a].question, s.db.rows[a].worker, valid, answer)
  {
    var told := Cancelled(s.(db := Accept(s.db, a, valid, answer).0), a);
    assert told.db == Accept(s.db, a, valid, answer).0;
    ScoringKeepsReply(required, told.db, q, s.now, a);
  }

  /** Without a row there is nothing to answer. */
  lemma NoRowNoAnswer(required: nat, s: State, q: nat, w: Address, valid: bool, answer: string, fits: bool, a: nat)
    requires Attempts(s.db.rows, w, q) == {}
    ensures SubmitVerdict(s, q, w, fits, a) == NoAssignment
    ensures SubmitAlone(required, s, q, w, valid, answer, fits, a) == s
  {
  }

  lemma VerdictIgnoresThreads(s: State, n: nat, q: nat, w: Address, fits: bool, a: nat)
    ensures SubmitVerdict(s.(nextThread := n), q, w, fits, a) == SubmitVerdict(s, q, w, fits, a)
  {
  }

  lemma CancelledAround(s: State, t: nat, thread: Thread, a: nat)
    requires t !in s.threads && !thread.Armed?
    ensures Cancelled(Become(s, t, thread), a) == Become(Cancelled(s, a), t, thread)
  {
    var s' := Become(s, t, thread);
    if a in s.timers {
      var armed := s.timers[a];
      if armed in s.threads && s.threads[armed].Armed? {
        assert s'.threads - {armed} == (s.threads - {armed})[t := thread];
      }
    }
  }

  /** The thread from the accepted reply on: cancel the timer, try to score. */
  lemma NotifyingThread(p: Params, s: State, t: nat, a: nat, q: nat)
    requires t !in s.threads
    ensures var told := Cancelled(s, a);
      Leads(p, Become(s, t, Notifying(a, q)), t, told.(db := TryScoreAlone(p.required, s.db, q, s.now)))
  {
    var notifying := Become(s, t, Notifying(a, q));
    LeadsNowhere(p, notifying, t);
    LeadsOn(p, notifying, t, notifying, 0);
    CancelledAround(s, t, Notifying(a, q), a);
    var told := Cancelled(s, a);
    assert t !in told.threads && told.db == s.db && told.now == s.now;
    var trying := Become(told, t, Trying(q));
    assert Become(Cancelled(notifying, a), t, Trying(q)) == trying;
    TryingThread(p, trying, t, q);
    var done := told.(db := TryScoreAlone(p.required, s.db, q, s.now));
    assert End(trying.(db := done.db), t) == done by {
      assert told.threads[t := Trying(q)] - {t} == told.threads;
    }
    LeadsThrough(p, notifying, t, trying, done);
  }

  lemma SubmittingThread(p: Params, s: State, t: nat, a: nat, q: nat, valid: bool, answer: string)
    requires t !in s.threads && StillClaimed(s.db, a)
    ensures var told := Cancelled(s.(db := Accept(s.db, a, valid, answer).0), a);
      Leads(p, Become(s, t, Submitting(a, q, valid, answer)), t,
            told.(db := TryScoreAlone(p.required, told.db, q, s.now)))
  {
    var submitting := Become(s, t, Submitting(a, q, valid, answer));
    LeadsNowhere(p, submitting, t);
    LeadsOn(p, submitting, t, submitting, 0);
    var accepted := s.(db := Accept(s.db, a, valid, answer).0);
    assert AfterRun(p, submitting, t, 0) == Become(accepted, t, Notifying(a, q));
    NotifyingThread(p, accepted, t, a, q);
    var told := Cancelled(accepted, a);
    LeadsThrough(p, submitting, t, Become(accepted, t, Notifying(a, q)),
                 told.(db := TryScoreAlone(p.required, told.db, q, s.now)));
  }

  /** The thread from the row it read on; nothing changed since the read. */
  lemma CheckingThread(p: Params, s: State, t: nat, q: nat, w: Address, valid: bool, answer: string, fits: bool, a: nat)
    requires t !in s.threads && a in Attempts(s.db.rows, w, q)
    ensures var row := s.db.rows[a];
      Leads(p, Become(s, t, Checking(a, q, row.status == Claimed, row.ddl, valid, answer, fits)), t,
            SubmitAlone(p.required, s, q, w, valid, answer, fits, a))
  {
    var row := s.db.rows[a];
    var checking := Become(s, t, Checking(a, q, row.status == Claimed, row.ddl, valid, answer, fits));
    LeadsNowhere(p, checking, t);
    LeadsOn(p, checking, t, checking, 0);
    assert checking.threads - {t} == s.threads;
    if row.status == Claimed {
      if s.now > row.ddl {
        var expiring := Become(s, t, Expiring(a));
        assert AfterRun(p, checking, t, 0) == expiring;
        LeadsOn(p, checking, t, expiring, 0);
        assert expiring.threads - {t} == s.threads;
      } else if fits {
        var submitting := Become(s, t, Submitting(a, q, valid, answer));
        assert AfterRun(p, checking, t, 0) == submitting;
        SubmittingThread(p, s, t, a, q, valid, answer);
        LeadsThrough(p, checking, t, submitting, SubmitAlone(p.required, s, q, w, valid, answer, fits, a));
      }
    }
  }

  lemma SubmitThread(p: Params, s: State, q: nat, w: Address, valid: bool, answer: string, fits: bool, a: nat)
    requires s.nextThread !in s.threads
    requires a in Attempts(s.db.rows, w, q) || Attempts(s.db.rows, w, q) == {}
    ensures Leads(p, Spawn(s, Answering(q, w, valid, answer, fits)), s.nextThread,
                  SubmitAlone(p.required, s.(nextThread := s.nextThread + 1), q, w, valid, answer, fits, a))
  {
    var t, asked := s.nextThread, Spawn(s, Answering(q, w, valid, answer, fits));
    var idle := s.(nextThread := t + 1);
    LeadsNowhere(p, asked, t);
    LeadsOn(p, asked, t, asked, a);
    assert asked.threads - {t} == s.threads;
    if a in Attempts(s.db.rows, w, q) {
      var row := s.db.rows[a];
      var checking := Become(idle, t, Checking(a, q, row.status == Claimed, row.ddl, valid, answer, fits));
      assert AfterRun(p, asked, t, a) == checking;
      CheckingThread(p, idle, t, q, w, valid, answer, fits, a);
      LeadsThrough(p, asked, t, checking, SubmitAlone(p.required, idle, q, w, valid, answer, fits, a));
    }
  }

  /// ## Polling and timers

  /** StartReplyTimer: a timer, or a goroutine at once when the deadline has come. */
  function StartAlone(s: State, a: nat, q: nat, ddl: int): State
  {
    var t := s.nextThread;
    if ddl <= s.now then Spawn(s, Firing(a, q))
    else Spawn(s.(timers := s.timers[a := t]), Armed(a, q, ddl))
  }

  lemma StartingThread(p: Params, s: State, a: nat, q: nat, ddl: int)
    requires s.nextThread !in s.threads
    ensures Leads(p, Spawn(s, StartingTimer(a, q, ddl)), s.nextThread, StartAlone(s, a, q, ddl))
  {
    var starting := Spawn(s, StartingTimer(a, q, ddl));
    LeadsNowhere(p, starting, s.nextThread);
    LeadsOn(p, starting, s.nextThread, starting, 0);
    assert AfterRun(p, starting, s.nextThread, 0).threads == StartAlone(s, a, q, ddl).threads;
  }

  /** PollOnline: the transaction, then the timer of the row it hands out. */
  function PollAlone(s: State, w: Address, held: Option<nat>, pick: Option<nat>, ddl: int): State
  {
    if KeepsClaim(s.db, s.now, held) then
      StartAlone(s, held.value, s.db.rows[held.value].question, s.db.rows[held.value].ddl)
    else
      var db := Cleaned(s.db, s.now, held);
      if pick.None? then s.(db := db)
      else
        match Insert(db, pick.value, w, ddl)
        case None => s
        case Some(db') => StartAlone(s.(db := db'), db.nextRow, pick.value, ddl)
  }

  lemma PollThread(p: Params, s: State, w: Address, held: Option<nat>, pick: Option<nat>, ddl: int)
    requires s.nextThread !in s.threads
    ensures Leads(p, AfterPoll(s, w, held, pick, ddl), s.nextThread, PollAlone(s, w, held, pick, ddl))
  {
    LeadsNowhere(p, AfterPoll(s, w, held, pick, ddl), s.nextThread);
    if KeepsClaim(s.db, s.now, held) {
      StartingThread(p, s, held.value, s.db.rows[held.value].question, s.db.rows[held.value].ddl);
    } else {
      var db := Cleaned(s.db, s.now, held);
      if pick.Some? && Insert(db, pick.value, w, ddl).Some? {
        StartingThread(p, s.(db := Insert(db, pick.value, w, ddl).value), db.nextRow, pick.value, ddl);
      }
    }
  }
}
