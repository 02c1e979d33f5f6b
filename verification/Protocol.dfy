/** The question and assignment protocol as a state machine: polls, answers,
    timers, scorers and restarts interleave, each guarded statement is one atomic
    step, and what a handler read may be stale when it writes
    (internal/service/poll.go, answer.go, timer.go, scoring.go). */
module Protocol {
  import opened Wrappers
  import opened Scoring
  import opened Tables

  type Positive = n: nat | n > 0 witness 1

  /** Configuration that stays fixed during a run. */
  datatype Params = Params(required: Positive, workers: set<Address>)

  /** A running handler, at the point before its next atomic step. */
  datatype Thread =
    // SubmitAnswer
    | Answering(q: nat, w: Address, valid: bool, answer: string, fits: bool)
    | Checking(a: nat, q: nat, wasClaimed: bool, ddl: int, valid: bool, answer: string, fits: bool)
    | Expiring(a: nat)
    | Submitting(a: nat, q: nat, valid: bool, answer: string)
    | Notifying(a: nat, q: nat)
    // StartReplyTimer and handleTimeout
    | StartingTimer(a: nat, q: nat, ddl: int)
    | Armed(a: nat, q: nat, ddl: int)
    | Firing(a: nat, q: nat)
    | Looking(a: nat, q: nat)
    | TimingOut(a: nat, q: nat)
    // TryScore and ScoreQuestion
    | Trying(q: nat)
    | Counted(q: nat)
    | Listing(q: nat, reference: string)
    | Judging(q: nat, outcome: Outcome)
    | Writing(q: nat, todo: map<nat, Mark>)

  /** `timers` is the timer manager's map from assignment to the thread armed for
      it; `torn` collects the questions whose scorer a crash cut off between the
      compare-and-set and its last assignment write. */
  datatype State = State(db: Db, now: int, threads: map<nat, Thread>, nextThread: nat,
                         timers: map<nat, nat>, torn: set<nat>)

  datatype Event =
    | Tick(to: int)
    | Ask(bsId: string, questioner: Address, answer: string)
    | Poll(w: Address, held: Option<nat>, pick: Option<nat>, ddl: int)
    | Submit(q: nat, w: Address, valid: bool, answer: string, fits: bool)
    | RecoverTimer(a: nat)
    | RecoverScore(q: nat)
    | Run(t: nat, choice: nat)
    | Crash

  function Initial(): State
  {
    State(Db(map[], map[], 0, 0), 0, map[], 0, map[], {})
  }

  function Spawn(s: State, thread: Thread): State
  {
    s.(threads := s.threads[s.nextThread := thread], nextThread := s.nextThread + 1)
  }

  function Become(s: State, t: nat, thread: Thread): State
  {
    s.(threads := s.threads[t := thread])
  }

  function End(s: State, t: nat): State
  {
    s.(threads := s.threads - {t})
  }

  /// ## Poll: one transaction

  /** The tables after the double-poll guard removed an expired claim. */
  function Cleaned(db: Db, now: int, held: Option<nat>): Db
  {
    if held.Some? && held.value in db.rows && now > db.rows[held.value].ddl then Expire(db, held.value).0 else db
  }

  predicate KeepsClaim(db: Db, now: int, held: Option<nat>)
  {
    held.Some? && held.value in db.rows && !(now > db.rows[held.value].ddl)
  }

  predicate PollEnabled(p: Params, s: State, w: Address, held: Option<nat>, pick: Option<nat>)
  {
    && w in p.workers
    && IsHeld(s.db, w, held)
    && (pick.Some? ==>
          !KeepsClaim(s.db, s.now, held) && Eligible(Cleaned(s.db, s.now, held), w, pick.value, p.required))
  }

  /** A live claim is handed out again, with one more timer; otherwise the picked
      question, if any, is claimed. A rejected insert rolls everything back. */
  function AfterPoll(s: State, w: Address, held: Option<nat>, pick: Option<nat>, ddl: int): State
  {
    if KeepsClaim(s.db, s.now, held) then
      Spawn(s, StartingTimer(held.value, s.db.rows[held.value].question, s.db.rows[held.value].ddl))
    else
      var db := Cleaned(s.db, s.now, held);
      if pick.None? then s.(db := db)
      else
        match Insert(db, pick.value, w, ddl)
        case None => s
        case Some(db') => Spawn(s.(db := db'), StartingTimer(db.nextRow, pick.value, ddl))
  }

  /// ## One step of a thread

  /** The rows that GetAssignmentByWorker may return. */
  predicate RunEnabled(s: State, t: nat, choice: nat)
  {
    t in s.threads &&
    match s.threads[t]
    case Answering(q, w, _, _, _) => choice in Attempts(s.db.rows, w, q) || Attempts(s.db.rows, w, q) == {}
    case Armed(_, _, ddl) => s.now >= ddl
    case Writing(_, todo) => choice in todo || todo == map[]
    case _ => true
  }

  /** CancelTimer: forget the entry and stop the timer unless it has fired. */
  function Cancelled(s: State, a: nat): State
  {
    if a !in s.timers then s
    else
      var armed := s.timers[a];
      var s' := s.(timers := s.timers - {a});
      if armed in s.threads && s.threads[armed].Armed? then End(s', armed) else s'
  }

  /** The replies of the rows that are in status replied. */
  function RepliesNow(rows: Rows, q: nat): Replies
  {
    map a | a in RepliedRows(rows, q) :: rows[a].reply
  }

  function AfterRun(p: Params, s: State, t: nat, choice: nat): State
    requires RunEnabled(s, t, choice)
  {
    match s.threads[t]
    case Answering(q, w, valid, answer, fits) =>
      if choice !in Attempts(s.db.rows, w, q) then End(s, t)
      else
        var row := s.db.rows[choice];
        Become(s, t, Checking(choice, q, row.status == Claimed, row.ddl, valid, answer, fits))
    case Checking(a, q, wasClaimed, ddl, valid, answer, fits) =>
      if !wasClaimed then End(s, t)
      else if s.now > ddl then Become(s, t, Expiring(a))
      else if !fits then End(s, t)
      else Become(s, t, Submitting(a, q, valid, answer))
    case Expiring(a) => End(s.(db := Expire(s.db, a).0), t)
    case Submitting(a, q, valid, answer) =>
      var (db, ok) := Accept(s.db, a, valid, answer);
      if ok then Become(s.(db := db), t, Notifying(a, q)) else End(s, t)
    case Notifying(a, q) => Become(Cancelled(s, a), t, Trying(q))
    case StartingTimer(a, q, ddl) =>
      if ddl <= s.now then Become(s, t, Firing(a, q))
      else Become(s.(timers := s.timers[a := t]), t, Armed(a, q, ddl))
    case Armed(a, q, ddl) => Become(s, t, Firing(a, q))
    case Firing(a, q) => Become(s.(timers := s.timers - {a}), t, Looking(a, q))
    case Looking(a, q) => if StillClaimed(s.db, a) then Become(s, t, TimingOut(a, q)) else End(s, t)
    case TimingOut(a, q) =>
      var (db, ok) := Expire(s.db, a);
      if ok then Become(s.(db := db), t, Trying(q)) else End(s, t)
    case Trying(q) => if |RepliedRows(s.db.rows, q)| >= p.required then Become(s, t, Counted(q)) else End(s, t)
    case Counted(q) =>
      if q in s.db.questions && s.db.questions[q].status == Submitted
      then Become(s, t, Listing(q, s.db.questions[q].answer)) else End(s, t)
    case Listing(q, reference) =>
      if RepliedRows(s.db.rows, q) == {} then End(s, t)
      else Become(s, t, Judging(q, Judge(reference, RepliesNow(s.db.rows, q))))
    case Judging(q, o) =>
      var (db, won) := Win(s.db, q, o, s.now);
      if won then Become(s.(db := db), t, Writing(q, o.marks)) else End(s, t)
    case Writing(q, todo) =>
      if todo == map[] then End(s, t)
      else Become(s.(db := WriteScore(s.db, choice, todo[choice])), t, Writing(q, todo - {choice}))
  }

  /// ## Steps

  function CutWriters(s: State): set<nat>
  {
    set t | t in s.threads && s.threads[t].Writing? && s.threads[t].todo != map[] :: s.threads[t].q
  }

  predicate Enabled(p: Params, s: State, e: Event)
  {
    match e
    case Tick(to) => s.now <= to
    case Ask(_, _, _) => true
    case Poll(w, held, pick, _) => PollEnabled(p, s, w, held, pick)
    case Submit(_, _, _, _, _) => true
    case RecoverTimer(a) => StillClaimed(s.db, a)
    case RecoverScore(_) => true
    case Run(t, choice) => RunEnabled(s, t, choice)
    case Crash => true
  }

  function After(p: Params, s: State, e: Event): State
    requires Enabled(p, s, e)
  {
    match e
    case Tick(to) => s.(now := to)
    case Ask(bsId, questioner, answer) => s.(db := AddQuestion(s.db, bsId, questioner, answer))
    case Poll(w, held, pick, ddl) => AfterPoll(s, w, held, pick, ddl)
    case Submit(q, w, valid, answer, fits) => Spawn(s, Answering(q, w, valid, answer, fits))
    case RecoverTimer(a) => Spawn(s, StartingTimer(a, s.db.rows[a].question, s.db.rows[a].ddl))
    case RecoverScore(q) => Spawn(s, Trying(q))
    case Run(t, choice) => AfterRun(p, s, t, choice)
    case Crash => s.(threads := map[], timers := map[], torn := s.torn + CutWriters(s))
  }

  /// ## Runs

  /** Any finite interleaving from the empty database. */
  ghost predicate IsRun(p: Params, states: seq<State>, events: seq<Event>)
  {
    && |states| == |events| + 1
    && states[0] == Initial()
    && forall k :: 0 <= k < |events| ==>
         Enabled(p, states[k], events[k]) && states[k + 1] == After(p, states[k], events[k])
  }

  ghost predicate Reachable(p: Params, s: State)
  {
    exists states: seq<State>, events: seq<Event> :: IsRun(p, states, events) && states[|events|] == s
  }
}
