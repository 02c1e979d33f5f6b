/** Every step of every handler keeps the protocol invariant. */
module ProtocolSteps {
  import opened Wrappers
  import opened Scoring
  import opened Tables
  import opened Protocol
  import opened ProtocolInvariant

  /// ## What a handler may rely on between its steps

  predicate Known(db: Db, a: nat, q: nat)
  {
    a in db.rows && db.rows[a].question == q
  }

  predicate Due(db: Db, now: int, a: nat)
  {
    a in db.rows && now >= db.rows[a].ddl
  }

  predicate AllPending(db: Db, q: nat, todo: map<nat, Mark>)
  {
    IsScored(db, q) && forall a :: a in todo ==> Pending(db, q, a, todo[a])
  }

  predicate ThreadFine(p: Params, db: Db, now: int, thread: Thread)
  {
    match thread
    case Answering(_, _, _, _, _) => true
    case Checking(a, q, _, ddl, _, _, _) => Known(db, a, q) && db.rows[a].ddl == ddl
    case Expiring(a) => Due(db, now, a)
    case Submitting(a, q, _, _) => Known(db, a, q)
    case Notifying(a, q) => Known(db, a, q)
    case StartingTimer(a, q, ddl) => Known(db, a, q) && db.rows[a].ddl == ddl
    case Armed(a, q, ddl) => Known(db, a, q) && db.rows[a].ddl == ddl
    case Firing(a, q) => Known(db, a, q) && Due(db, now, a)
    case Looking(a, q) => Known(db, a, q) && Due(db, now, a)
    case TimingOut(a, q) => Known(db, a, q) && Due(db, now, a)
    case Trying(_) => true
    case Counted(q) => Full(p, db, q)
    case Listing(q, reference) => Full(p, db, q) && db.questions[q].answer == reference
    case Judging(q, o) => Full(p, db, q) && (IsOpen(db, q) ==> o == Expected(db.questions[q].answer, db.rows, q))
    case Writing(q, todo) => AllPending(db, q, todo)
  }

  ghost predicate ThreadsFine(p: Params, s: State)
  {
    forall t :: t in s.threads ==> t < s.nextThread && ThreadFine(p, s.db, s.now, s.threads[t])
  }

  predicate Writes(s: State, t: nat, q: nat)
  {
    t in s.threads && s.threads[t].Writing? && s.threads[t].q == q
  }

  /** A replied row of a scored question still has to be scored. */
  predicate Unwritten(db: Db, a: nat)
  {
    a in db.rows && db.rows[a].status == Replied && IsScored(db, db.rows[a].question)
  }

  predicate Covers(s: State, t: nat, a: nat)
  {
    t in s.threads && s.threads[t].Writing? && a in s.threads[t].todo
  }

  ghost predicate OneWriter(s: State)
  {
    forall t, u, q :: Writes(s, t, q) && Writes(s, u, q) ==> t == u
  }

  /** Every unwritten row is on some scorer's list, unless a crash took the scorer. */
  ghost predicate Covered(s: State)
  {
    forall a :: Unwritten(s.db, a) && s.db.rows[a].question !in s.torn ==> exists t :: Covers(s, t, a)
  }

  /** A torn question keeps an unwritten row and has no scorer. */
  ghost predicate TornFine(s: State)
  {
    && (forall q :: q in s.torn ==> exists a :: Unwritten(s.db, a) && s.db.rows[a].question == q)
    && (forall t, q :: Writes(s, t, q) ==> q !in s.torn)
  }

  ghost predicate Inv(p: Params, s: State)
  {
    && DbInv(p, s.db, s.now)
    && ThreadsFine(p, s)
    && OneWriter(s)
    && Covered(s)
    && TornFine(s)
  }

  lemma InitialInv(p: Params)
    ensures Inv(p, Initial())
  {
    var db := Initial().db;
    forall w: Address, q: nat ensures |Attempts(db.rows, w, q)| <= 2 {
      assert Attempts(db.rows, w, q) == {};
    }
    forall q: nat ensures |Active(db.rows, q)| <= p.required {
      assert Active(db.rows, q) == {};
    }
  }

  /// ## Other handlers' reliance survives a step

  /** Unwritten rows are left alone. */
  ghost predicate KeepsUnwritten(db: Db, db': Db)
  {
    forall a :: Unwritten(db, a) ==> a in db'.rows && db'.rows[a] == db.rows[a]
  }

  /** No row becomes unwritten. */
  ghost predicate AddsNoUnwritten(db: Db, db': Db)
  {
    forall a :: Unwritten(db', a) ==> Unwritten(db, a)
  }

  lemma PendingStable(p: Params, db: Db, db': Db, q: nat, a: nat, m: Mark)
    requires Progress(p, db, db') && Pending(db, q, a, m)
    requires a in db'.rows && db'.rows[a] == db.rows[a]
    ensures Pending(db', q, a, m)
  {
    assert Full(p, db, q) && Frozen(p, db, db', q);
    assert LaterQuestion(db.questions[q], db'.questions[q]);
  }

  lemma ThreadStable(p: Params, db: Db, db': Db, now: int, now': int, thread: Thread)
    requires Progress(p, db, db') && now <= now'
    requires ThreadFine(p, db, now, thread)
    requires thread.Writing? ==> forall a :: a in thread.todo ==> a in db'.rows && db'.rows[a] == db.rows[a]
    ensures ThreadFine(p, db', now', thread)
  {
    match thread {
      case Counted(q) => assert Frozen(p, db, db', q);
      case Listing(q, reference) => assert Frozen(p, db, db', q);
      case Judging(q, o) =>
        assert Frozen(p, db, db', q);
        assert LaterQuestion(db.questions[q], db'.questions[q]);
      case Writing(q, todo) =>
        forall a | a in todo ensures Pending(db', q, a, todo[a]) {
          PendingStable(p, db, db', q, a, todo[a]);
        }
        assert LaterQuestion(db.questions[q], db'.questions[q]);
      case _ =>
    }
  }

  /** What the lists of the running scorers hold. */
  ghost predicate ListsUnwritten(s: State)
  {
    forall t, a :: Covers(s, t, a) ==> Unwritten(s.db, a) && s.db.rows[a].question == s.threads[t].q
  }

  lemma ListsAreUnwritten(p: Params, s: State)
    requires ThreadsFine(p, s)
    ensures ListsUnwritten(s)
  {
    forall t, a | Covers(s, t, a) ensures Unwritten(s.db, a) && s.db.rows[a].question == s.threads[t].q {
      assert ThreadFine(p, s.db, s.now, s.threads[t]);
      assert Pending(s.db, s.threads[t].q, a, s.threads[t].todo[a]);
    }
  }

  /** The threads that write are the same before and after. */
  predicate SameWriters(s: State, s': State)
  {
    && (forall t :: t in s.threads && s.threads[t].Writing? ==> t in s'.threads && s'.threads[t] == s.threads[t])
    && (forall t :: t in s'.threads && s'.threads[t].Writing? ==> t in s.threads && s'.threads[t] == s.threads[t])
  }

  /** Threads are carried over, or are fine and do not write. */
  ghost predicate NewThreadsFine(p: Params, s: State, s': State)
  {
    forall t :: t in s'.threads ==>
      (t in s.threads && s'.threads[t] == s.threads[t])
      || (t < s'.nextThread && ThreadFine(p, s'.db, s'.now, s'.threads[t]))
  }

  lemma QuietThreads(p: Params, s: State, s': State)
    requires ThreadsFine(p, s) && Progress(p, s.db, s'.db)
    requires s.now <= s'.now && s.nextThread <= s'.nextThread
    requires KeepsUnwritten(s.db, s'.db) && NewThreadsFine(p, s, s')
    ensures ThreadsFine(p, s')
  {
    ListsAreUnwritten(p, s);
    forall t | t in s'.threads ensures t < s'.nextThread && ThreadFine(p, s'.db, s'.now, s'.threads[t]) {
      if t in s.threads && s'.threads[t] == s.threads[t] {
        if s.threads[t].Writing? {
          assert forall a :: a in s.threads[t].todo ==> Covers(s, t, a);
        }
        ThreadStable(p, s.db, s'.db, s.now, s'.now, s.threads[t]);
      }
    }
  }

  lemma QuietWriters(p: Params, s: State, s': State)
    requires OneWriter(s) && Covered(s) && TornFine(s)
    requires Progress(p, s.db, s'.db) && s'.torn == s.torn
    requires KeepsUnwritten(s.db, s'.db) && AddsNoUnwritten(s.db, s'.db) && SameWriters(s, s')
    ensures OneWriter(s') && Covered(s') && TornFine(s')
  {
    assert forall t, q :: Writes(s', t, q) ==> Writes(s, t, q);
    forall a | Unwritten(s'.db, a) && s'.db.rows[a].question !in s'.torn ensures exists t :: Covers(s', t, a) {
      assert Unwritten(s.db, a);
      var t :| Covers(s, t, a);
      assert Covers(s', t, a);
    }
    forall q | q in s'.torn ensures exists a :: Unwritten(s'.db, a) && s'.db.rows[a].question == q {
      var a :| Unwritten(s.db, a) && s.db.rows[a].question == q;
      UnwrittenStable(p, s.db, s'.db, a);
    }
  }

  lemma UnwrittenStable(p: Params, db: Db, db': Db, a: nat)
    requires Progress(p, db, db') && KeepsUnwritten(db, db') && Unwritten(db, a)
    ensures Unwritten(db', a) && db'.rows[a].question == db.rows[a].question
  {
    assert LaterQuestion(db.questions[db.rows[a].question], db'.questions[db.rows[a].question]);
  }

  /** A step that scores nothing: it leaves the unwritten rows and the writing
      threads alone. */
  lemma QuietStep(p: Params, s: State, s': State)
    requires Inv(p, s) && DbInv(p, s'.db, s'.now) && Progress(p, s.db, s'.db)
    requires s.now <= s'.now && s.nextThread <= s'.nextThread && s'.torn == s.torn
    requires KeepsUnwritten(s.db, s'.db) && AddsNoUnwritten(s.db, s'.db)
    requires NewThreadsFine(p, s, s') && SameWriters(s, s')
    ensures Inv(p, s')
  {
    QuietThreads(p, s, s');
    QuietWriters(p, s, s');
  }

  /// ## Table steps leave unwritten rows alone

  lemma LeavesClaimedUnwritten(p: Params, db: Db, db': Db, a: nat, now: int)
    requires DbInv(p, db, now) && LeavesClaimed(db, db', a, now)
    ensures KeepsUnwritten(db, db') && AddsNoUnwritten(db, db')
  {
    LeavesClaimedNotFull(p, db, a, now);
  }

  lemma InsertUnwritten(p: Params, db: Db, now: int, w: Address, q: nat, ddl: int)
    requires DbInv(p, db, now) && MayClaim(db, w)
    ensures var db' := Insert(db, q, w, ddl).value; KeepsUnwritten(db, db') && AddsNoUnwritten(db, db')
  {
    FreshRow(p, db, now);
  }

  lemma AskUnwritten(p: Params, db: Db, now: int, bsId: string, questioner: Address, answer: string)
    requires DbInv(p, db, now)
    ensures var db' := AddQuestion(db, bsId, questioner, answer); KeepsUnwritten(db, db') && AddsNoUnwritten(db, db')
  {
    forall a | a in db.rows ensures db.rows[a].question != db.nextQuestion {
      assert RowFine(p, db, now, a);
    }
  }

  /// ## Steps that do not score

  lemma PollKeeps(p: Params, s: State, w: Address, held: Option<nat>, pick: Option<nat>, ddl: int)
    requires Inv(p, s) && PollEnabled(p, s, w, held, pick)
    ensures Inv(p, AfterPoll(s, w, held, pick, ddl))
    ensures Progress(p, s.db, AfterPoll(s, w, held, pick, ddl).db)
  {
    NoProgress(p, s.db);
    if KeepsClaim(s.db, s.now, held) {
      SpawnKeeps(p, s, StartingTimer(held.value, s.db.rows[held.value].question, s.db.rows[held.value].ddl));
    } else {
      CleanedKeeps(p, s, w, held);
      if pick.Some? {
        InsertAccepted(p, s.db, s.now, w, held);
        ClaimAndSpawn(p, s, s.(db := Cleaned(s.db, s.now, held)), w, pick.value, ddl);
      }
    }
  }

  lemma ClaimAndSpawn(p: Params, s: State, cleaned: State, w: Address, q: nat, ddl: int)
    requires Inv(p, cleaned) && w in p.workers && MayClaim(cleaned.db, w) && Eligible(cleaned.db, w, q, p.required)
    requires Progress(p, s.db, cleaned.db)
    ensures var db' := Insert(cleaned.db, q, w, ddl).value;
      && Inv(p, Spawn(cleaned.(db := db'), StartingTimer(cleaned.db.nextRow, q, ddl)))
      && Progress(p, s.db, db')
  {
    var db' := Insert(cleaned.db, q, w, ddl).value;
    ClaimKeeps(p, cleaned, w, q, ddl);
    SpawnKeeps(p, cleaned.(db := db'), StartingTimer(cleaned.db.nextRow, q, ddl));
    ProgressTransitive(p, s.db, cleaned.db, db');
  }

  lemma ClaimKeeps(p: Params, s: State, w: Address, q: nat, ddl: int)
    requires Inv(p, s) && w in p.workers && MayClaim(s.db, w) && Eligible(s.db, w, q, p.required)
    ensures var db' := Insert(s.db, q, w, ddl).value;
      && Inv(p, s.(db := db')) && Progress(p, s.db, db')
      && Known(db', s.db.nextRow, q) && db'.rows[s.db.nextRow].ddl == ddl
  {
    InsertKeeps(p, s.db, s.now, w, q, ddl);
    InsertUnwritten(p, s.db, s.now, w, q, ddl);
    QuietStep(p, s, s.(db := Insert(s.db, q, w, ddl).value));
  }

  lemma CleanedKeeps(p: Params, s: State, w: Address, held: Option<nat>)
    requires Inv(p, s) && IsHeld(s.db, w, held)
    ensures var db := Cleaned(s.db, s.now, held); Inv(p, s.(db := db)) && Progress(p, s.db, db)
  {
    var db := Cleaned(s.db, s.now, held);
    if held.Some? && s.now > s.db.rows[held.value].ddl {
      assert db == Expire(s.db, held.value).0;
      ExpireThenKeeps(p, s, held.value);
    } else {
      assert s.(db := db) == s;
      NoProgress(p, s.db);
    }
  }

  lemma ProgressTransitive(p: Params, a: Db, b: Db, c: Db)
    requires Progress(p, a, b) && Progress(p, b, c)
    ensures Progress(p, a, c)
  {
    forall q | q in a.questions && Full(p, a, q) ensures Frozen(p, a, c, q) {
      assert Frozen(p, a, b, q) && Frozen(p, b, c, q);
      assert IsScored(b, q) ==> LaterQuestion(b.questions[q], c.questions[q]);
    }
    forall r | r in a.rows ensures r in c.rows && Later(a.rows[r], c.rows[r]) {
      assert Later(a.rows[r], b.rows[r]) && Later(b.rows[r], c.rows[r]);
    }
    forall q | q in a.questions ensures q in c.questions && LaterQuestion(a.questions[q], c.questions[q]) {
      assert LaterQuestion(a.questions[q], b.questions[q]) && LaterQuestion(b.questions[q], c.questions[q]);
    }
  }

  /** Thread `t`, which does not write, ends or becomes a fine thread that does not
      write; others are kept, except that an armed timer may be stopped. */
  ghost predicate Moves(p: Params, s: State, s': State, t: nat)
  {
    && t in s.threads && !s.threads[t].Writing?
    && s'.now == s.now && s'.nextThread == s.nextThread && s'.torn == s.torn
    && (forall u :: u in s'.threads && u != t ==> u in s.threads && s'.threads[u] == s.threads[u])
    && (forall u :: u in s.threads && s.threads[u].Writing? ==> u in s'.threads && s'.threads[u] == s.threads[u])
    && (t in s'.threads ==> ThreadFine(p, s'.db, s.now, s'.threads[t]) && !s'.threads[t].Writing?)
  }

  lemma MovesQuietly(p: Params, s: State, s': State, t: nat)
    requires Moves(p, s, s', t) && ThreadsFine(p, s)
    ensures NewThreadsFine(p, s, s') && SameWriters(s, s')
  {
  }

  /** A thread that does not write moves on without touching the tables. */
  lemma MoveKeeps(p: Params, s: State, s': State, t: nat)
    requires Inv(p, s) && Moves(p, s, s', t) && s'.db == s.db
    ensures Inv(p, s') && Progress(p, s.db, s'.db)
  {
    NoProgress(p, s.db);
    MovesQuietly(p, s, s', t);
    QuietStep(p, s, s');
  }

  lemma BecomeKeeps(p: Params, s: State, t: nat, thread: Thread)
    requires Inv(p, s) && t in s.threads && !s.threads[t].Writing?
    requires ThreadFine(p, s.db, s.now, thread) && !thread.Writing?
    ensures Inv(p, Become(s, t, thread)) && Progress(p, s.db, s.db)
  {
    MoveKeeps(p, s, Become(s, t, thread), t);
  }

  lemma EndKeeps(p: Params, s: State, t: nat)
    requires Inv(p, s) && t in s.threads && !s.threads[t].Writing?
    ensures Inv(p, End(s, t)) && Progress(p, s.db, s.db)
  {
    MoveKeeps(p, s, End(s, t), t);
  }

  lemma SpawnKeeps(p: Params, s: State, thread: Thread)
    requires Inv(p, s) && ThreadFine(p, s.db, s.now, thread) && !thread.Writing?
    ensures Inv(p, Spawn(s, thread)) && Progress(p, s.db, s.db)
  {
    NoProgress(p, s.db);
    QuietStep(p, s, Spawn(s, thread));
  }

  /** The timer map is only a convenience: no guarantee depends on it. */
  lemma TimersDoNotMatter(p: Params, s: State, timers: map<nat, nat>)
    requires Inv(p, s)
    ensures Inv(p, s.(timers := timers))
  {
    NoProgress(p, s.db);
    QuietStep(p, s, s.(timers := timers));
  }

  lemma CancelKeeps(p: Params, s: State, a: nat)
    requires Inv(p, s)
    ensures Inv(p, Cancelled(s, a))
    ensures Cancelled(s, a).db == s.db && Cancelled(s, a).now == s.now
    ensures forall u :: u in s.threads && !s.threads[u].Armed? ==>
      u in Cancelled(s, a).threads && Cancelled(s, a).threads[u] == s.threads[u]
  {
    if a in s.timers {
      var s' := s.(timers := s.timers - {a});
      TimersDoNotMatter(p, s, s.timers - {a});
      if s.timers[a] in s.threads && s.threads[s.timers[a]].Armed? {
        EndKeeps(p, s', s.timers[a]);
      }
    }
  }

  /** The guarded timeout, by a thread that has seen the deadline pass. */
  lemma ExpireThenKeeps(p: Params, s: State, a: nat)
    requires Inv(p, s) && Due(s.db, s.now, a)
    ensures Inv(p, s.(db := Expire(s.db, a).0)) && Progress(p, s.db, Expire(s.db, a).0)
  {
    NoProgress(p, s.db);
    if StillClaimed(s.db, a) {
      ExpireLeavesClaimed(p, s.db, s.now, a);
      TableStepKeeps(p, s, Expire(s.db, a).0, a);
    }
  }

  lemma AcceptThenKeeps(p: Params, s: State, a: nat, valid: bool, answer: string)
    requires Inv(p, s)
    ensures Inv(p, s.(db := Accept(s.db, a, valid, answer).0)) && Progress(p, s.db, Accept(s.db, a, valid, answer).0)
  {
    NoProgress(p, s.db);
    if StillClaimed(s.db, a) {
      AcceptLeavesClaimed(p, s.db, s.now, a, valid, answer);
      TableStepKeeps(p, s, Accept(s.db, a, valid, answer).0, a);
    }
  }

  lemma TableStepKeeps(p: Params, s: State, db': Db, a: nat)
    requires Inv(p, s) && LeavesClaimed(s.db, db', a, s.now)
    ensures Inv(p, s.(db := db')) && Progress(p, s.db, db')
  {
    LeavesClaimedKeeps(p, s.db, db', a, s.now);
    LeavesClaimedUnwritten(p, s.db, db', a, s.now);
    QuietStep(p, s, s.(db := db'));
  }

  /// ## Scoring steps

  /** What ListAssignments sees of a full open question is its frozen reply set. */
  lemma ListedIsExpected(p: Params, s: State, q: nat)
    requires Inv(p, s) && IsOpen(s.db, q) && Full(p, s.db, q)
    ensures RepliesNow(s.db.rows, q) == RepliesOf(s.db.rows, q)
  {
    FullHasNoClaims(p, s.db, s.now, q);
  }

  /** Every reply of a full question gets a mark. */
  lemma EveryReplyMarked(p: Params, db: Db, now: int, q: nat)
    requires DbInv(p, db, now) && q in db.questions
    ensures forall a :: a in AnsweredRows(db.rows, q) <==> a in Expected(db.questions[q].answer, db.rows, q).marks
  {
    var replies := RepliesOf(db.rows, q);
    forall a | a in replies ensures Judged(replies[a]) {
      assert RowFine(p, db, now, a);
    }
    MarksAreJudged(db.questions[q].answer, replies);
  }

  lemma MarksAreJudged(reference: string, replies: Replies)
    ensures forall id :: id in Judge(reference, replies).marks <==> id in replies && Judged(replies[id])
  {
  }

  lemma WonThreadFine(p: Params, db: Db, now: int, q: nat, o: Outcome)
    requires DbInv(p, db, now) && IsOpen(db, q) && Full(p, db, q)
    requires o == Expected(db.questions[q].answer, db.rows, q)
    ensures AllPending(Win(db, q, o, now).0, q, o.marks)
    ensures forall a :: a in RepliedRows(db.rows, q) <==> a in o.marks
  {
    var db' := Win(db, q, o, now).0;
    FullHasNoClaims(p, db, now, q);
    EveryReplyMarked(p, db, now, q);
    assert Expected(db'.questions[q].answer, db'.rows, q) == o;
    forall a | a in o.marks ensures Pending(db', q, a, o.marks[a]) {
      assert a in RepliedRows(db.rows, q);
    }
  }

  lemma NoWriterYet(p: Params, s: State, q: nat)
    requires Inv(p, s) && IsOpen(s.db, q)
    ensures forall u :: !Writes(s, u, q)
    ensures q !in s.torn
  {
    forall u | u in s.threads && s.threads[u].Writing? ensures s.threads[u].q != q {
      WriterIsScored(p, s, u);
    }
  }

  lemma WriterIsScored(p: Params, s: State, u: nat)
    requires ThreadsFine(p, s) && u in s.threads && s.threads[u].Writing?
    ensures AllPending(s.db, s.threads[u].q, s.threads[u].todo)
  {
    assert ThreadFine(p, s.db, s.now, s.threads[u]);
  }

  /** After the compare-and-set the winner holds the marks; nobody else notices. */
  lemma WinThreads(p: Params, s: State, t: nat, q: nat, o: Outcome)
    requires ThreadsFine(p, s) && t in s.threads && s.threads[t] == Judging(q, o) && IsOpen(s.db, q)
    requires Progress(p, s.db, Win(s.db, q, o, s.now).0)
    requires AllPending(Win(s.db, q, o, s.now).0, q, o.marks)
    ensures ThreadsFine(p, Become(s.(db := Win(s.db, q, o, s.now).0), t, Writing(q, o.marks)))
  {
    var s' := Become(s.(db := Win(s.db, q, o, s.now).0), t, Writing(q, o.marks));
    assert ThreadFine(p, s'.db, s'.now, Writing(q, o.marks));
    assert NewThreadsFine(p, s, s');
    assert KeepsUnwritten(s.db, s'.db);
    QuietThreads(p, s, s');
  }

  lemma WinStepKeeps(p: Params, s: State, t: nat, q: nat, o: Outcome)
    requires Inv(p, s) && t in s.threads && s.threads[t] == Judging(q, o) && IsOpen(s.db, q)
    ensures var s' := Become(s.(db := Win(s.db, q, o, s.now).0), t, Writing(q, o.marks));
      Inv(p, s') && Progress(p, s.db, s'.db)
  {
    JudgedIsExpected(p, s, t, q, o);
    WinKeeps(p, s.db, s.now, q, o);
    WonThreadFine(p, s.db, s.now, q, o);
    NoWriterYet(p, s, q);
    WinThreads(p, s, t, q, o);
    WinCovered(s, Become(s.(db := Win(s.db, q, o, s.now).0), t, Writing(q, o.marks)), t, q, o);
  }

  lemma JudgedIsExpected(p: Params, s: State, t: nat, q: nat, o: Outcome)
    requires ThreadsFine(p, s) && t in s.threads && s.threads[t] == Judging(q, o) && IsOpen(s.db, q)
    ensures Full(p, s.db, q) && o == Expected(s.db.questions[q].answer, s.db.rows, q)
  {
    assert ThreadFine(p, s.db, s.now, s.threads[t]);
  }

  lemma WinCovered(s: State, s': State, t: nat, q: nat, o: Outcome)
    requires Covered(s) && TornFine(s) && OneWriter(s)
    requires t in s.threads && s.threads[t] == Judging(q, o) && IsOpen(s.db, q)
    requires s' == Become(s.(db := Win(s.db, q, o, s.now).0), t, Writing(q, o.marks))
    requires forall a :: a in RepliedRows(s.db.rows, q) <==> a in o.marks
    requires forall u :: !Writes(s, u, q)
    requires q !in s.torn
    ensures Covered(s') && TornFine(s') && OneWriter(s')
  {
    forall a | Unwritten(s'.db, a) && s'.db.rows[a].question !in s'.torn ensures exists u :: Covers(s', u, a) {
      if s'.db.rows[a].question == q {
        assert a in RepliedRows(s.db.rows, q);
        assert Covers(s', t, a);
      } else {
        assert Unwritten(s.db, a);
        var u :| Covers(s, u, a);
        assert Covers(s', u, a);
      }
    }
    forall r | r in s'.torn ensures exists a :: Unwritten(s'.db, a) && s'.db.rows[a].question == r {
      var a :| Unwritten(s.db, a) && s.db.rows[a].question == r;
      assert Unwritten(s'.db, a);
    }
    assert forall u, r :: Writes(s', u, r) ==> Writes(s, u, r) || (u == t && r == q);
  }

  lemma WriteStepKeeps(p: Params, s: State, t: nat, q: nat, todo: map<nat, Mark>, a: nat)
    requires Inv(p, s) && t in s.threads && s.threads[t] == Writing(q, todo) && a in todo
    ensures var s' := Become(s.(db := WriteScore(s.db, a, todo[a])), t, Writing(q, todo - {a}));
      Inv(p, s') && Progress(p, s.db, s'.db)
  {
    WriterIsScored(p, s, t);
    WriteKeeps(p, s.db, s.now, q, a, todo[a]);
    WriteThreads(p, s, t, q, todo, a);
    WriteCovered(s, Become(s.(db := WriteScore(s.db, a, todo[a])), t, Writing(q, todo - {a})), t, q, todo, a);
  }

  lemma OtherThreadFine(p: Params, s: State, u: nat, a: nat, m: Mark)
    requires ThreadsFine(p, s) && u in s.threads && !Covers(s, u, a) && ListsUnwritten(s)
    requires Progress(p, s.db, WriteScore(s.db, a, m))
    ensures ThreadFine(p, WriteScore(s.db, a, m), s.now, s.threads[u])
  {
    if s.threads[u].Writing? {
      assert forall b :: b in s.threads[u].todo ==> Covers(s, u, b);
    }
    ThreadStable(p, s.db, WriteScore(s.db, a, m), s.now, s.now, s.threads[u]);
  }

  lemma OwnThreadFine(p: Params, s: State, t: nat, q: nat, todo: map<nat, Mark>, a: nat)
    requires ThreadsFine(p, s) && t in s.threads && s.threads[t] == Writing(q, todo) && a in todo
    requires Progress(p, s.db, WriteScore(s.db, a, todo[a]))
    ensures ThreadFine(p, WriteScore(s.db, a, todo[a]), s.now, Writing(q, todo - {a}))
  {
    WriterIsScored(p, s, t);
    var db' := WriteScore(s.db, a, todo[a]);
    forall b | b in todo - {a} ensures Pending(db', q, b, todo[b]) {
      PendingStable(p, s.db, db', q, b, todo[b]);
    }
    assert LaterQuestion(s.db.questions[q], db'.questions[q]);
  }

  lemma WriteThreads(p: Params, s: State, t: nat, q: nat, todo: map<nat, Mark>, a: nat)
    requires ThreadsFine(p, s) && OneWriter(s) && t in s.threads && s.threads[t] == Writing(q, todo) && a in todo
    requires Progress(p, s.db, WriteScore(s.db, a, todo[a]))
    ensures ThreadsFine(p, Become(s.(db := WriteScore(s.db, a, todo[a])), t, Writing(q, todo - {a})))
  {
    ListsAreUnwritten(p, s);
    assert Covers(s, t, a);
    OthersDoNotWrite(s, t, a);
    OwnThreadFine(p, s, t, q, todo, a);
    forall u | u in s.threads && u != t ensures ThreadFine(p, WriteScore(s.db, a, todo[a]), s.now, s.threads[u]) {
      OtherThreadFine(p, s, u, a, todo[a]);
    }
  }

  lemma OthersDoNotWrite(s: State, t: nat, a: nat)
    requires OneWriter(s) && ListsUnwritten(s) && Covers(s, t, a)
    ensures forall u :: Covers(s, u, a) ==> u == t
  {
    var q := s.threads[t].q;
    assert Writes(s, t, q);
    forall u | Covers(s, u, a) ensures u == t {
      assert Writes(s, u, q);
    }
  }

  lemma WriteCovered(s: State, s': State, t: nat, q: nat, todo: map<nat, Mark>, a: nat)
    requires Covered(s) && TornFine(s) && OneWriter(s)
    requires t in s.threads && s.threads[t] == Writing(q, todo) && a in todo
    requires a in s.db.rows && s.db.rows[a].question == q
    requires s' == Become(s.(db := WriteScore(s.db, a, todo[a])), t, Writing(q, todo - {a}))
    ensures Covered(s') && TornFine(s') && OneWriter(s')
  {
    assert Writes(s, t, q);
    forall b | Unwritten(s'.db, b) && s'.db.rows[b].question !in s'.torn ensures exists u :: Covers(s', u, b) {
      assert b != a && Unwritten(s.db, b);
      var u :| Covers(s, u, b);
      assert Covers(s', u, b);
    }
    forall r | r in s'.torn ensures exists b :: Unwritten(s'.db, b) && s'.db.rows[b].question == r {
      var b :| Unwritten(s.db, b) && s.db.rows[b].question == r;
      assert Unwritten(s'.db, b);
    }
    assert forall u, r :: Writes(s', u, r) <==> Writes(s, u, r);
  }

  /// ## A crash

  lemma CrashKeeps(p: Params, s: State)
    requires Inv(p, s)
    ensures Inv(p, After(p, s, Crash))
  {
    ListsAreUnwritten(p, s);
    CrashTears(p, s);
  }

  lemma CrashTears(p: Params, s: State)
    requires ListsUnwritten(s) && Covered(s) && TornFine(s)
    ensures var s' := After(p, s, Crash); Covered(s') && TornFine(s')
  {
    var s' := After(p, s, Crash);
    forall a | Unwritten(s.db, a) && s.db.rows[a].question !in s.torn
      ensures s.db.rows[a].question in CutWriters(s)
    {
      var t :| Covers(s, t, a);
      assert s.threads[t].todo != map[] && s.threads[t].q == s.db.rows[a].question;
    }
    forall q | q in CutWriters(s) ensures exists a :: Unwritten(s.db, a) && s.db.rows[a].question == q {
      var t :| t in s.threads && s.threads[t].Writing? && s.threads[t].todo != map[] && s.threads[t].q == q;
      var a :| a in s.threads[t].todo;
      assert Covers(s, t, a);
    }
  }

  /// ## Every step

  predicate IsAnswer(thread: Thread)
  {
    thread.Answering? || thread.Checking? || thread.Expiring? || thread.Submitting? || thread.Notifying?
  }

  predicate IsTimer(thread: Thread)
  {
    thread.StartingTimer? || thread.Armed? || thread.Firing? || thread.Looking? || thread.TimingOut?
  }

  lemma AnswerKeeps(p: Params, s: State, t: nat, choice: nat)
    requires Inv(p, s) && RunEnabled(s, t, choice) && IsAnswer(s.threads[t])
    ensures Inv(p, AfterRun(p, s, t, choice)) && Progress(p, s.db, AfterRun(p, s, t, choice).db)
  {
    assert ThreadFine(p, s.db, s.now, s.threads[t]);
    match s.threads[t] {
      case Answering(q, w, valid, answer, fits) =>
        if choice in Attempts(s.db.rows, w, q) {
          var row := s.db.rows[choice];
          BecomeKeeps(p, s, t, Checking(choice, q, row.status == Claimed, row.ddl, valid, answer, fits));
        } else {
          EndKeeps(p, s, t);
        }
      case Checking(a, q, wasClaimed, ddl, valid, answer, fits) =>
        if wasClaimed && s.now > ddl {
          BecomeKeeps(p, s, t, Expiring(a));
        } else if wasClaimed && fits {
          BecomeKeeps(p, s, t, Submitting(a, q, valid, answer));
        } else {
          EndKeeps(p, s, t);
        }
      case Expiring(a) =>
        ExpireThenKeeps(p, s, a);
        EndKeeps(p, s.(db := Expire(s.db, a).0), t);
      case Submitting(a, q, valid, answer) => SubmittingKeeps(p, s, t, a, q, valid, answer);
      case Notifying(a, q) => NotifyingKeeps(p, s, t, a, q);
    }
  }

  lemma NotifyingKeeps(p: Params, s: State, t: nat, a: nat, q: nat)
    requires Inv(p, s) && t in s.threads && s.threads[t] == Notifying(a, q)
    ensures var s' := AfterRun(p, s, t, 0); Inv(p, s') && Progress(p, s.db, s'.db)
  {
    NoProgress(p, s.db);
    CancelKeeps(p, s, a);
    BecomeKeeps(p, Cancelled(s, a), t, Trying(q));
  }

  lemma SubmittingKeeps(p: Params, s: State, t: nat, a: nat, q: nat, valid: bool, answer: string)
    requires Inv(p, s) && t in s.threads && s.threads[t] == Submitting(a, q, valid, answer)
    ensures var s' := AfterRun(p, s, t, 0); Inv(p, s') && Progress(p, s.db, s'.db)
  {
    assert ThreadFine(p, s.db, s.now, s.threads[t]);
    AcceptThenKeeps(p, s, a, valid, answer);
    if StillClaimed(s.db, a) {
      BecomeKeeps(p, s.(db := Accept(s.db, a, valid, answer).0), t, Notifying(a, q));
    } else {
      EndKeeps(p, s, t);
    }
  }

  lemma StartingKeeps(p: Params, s: State, t: nat, a: nat, q: nat, ddl: int)
    requires Inv(p, s) && t in s.threads && s.threads[t] == StartingTimer(a, q, ddl)
    ensures var s' := AfterRun(p, s, t, 0); Inv(p, s') && Progress(p, s.db, s'.db)
  {
    assert ThreadFine(p, s.db, s.now, s.threads[t]);
    if ddl <= s.now {
      BecomeKeeps(p, s, t, Firing(a, q));
    } else {
      TimersDoNotMatter(p, s, s.timers[a := t]);
      BecomeKeeps(p, s.(timers := s.timers[a := t]), t, Armed(a, q, ddl));
    }
  }

  lemma TimingOutKeeps(p: Params, s: State, t: nat, a: nat, q: nat)
    requires Inv(p, s) && t in s.threads && s.threads[t] == TimingOut(a, q)
    ensures var s' := AfterRun(p, s, t, 0); Inv(p, s') && Progress(p, s.db, s'.db)
  {
    assert ThreadFine(p, s.db, s.now, s.threads[t]);
    ExpireThenKeeps(p, s, a);
    if StillClaimed(s.db, a) {
      BecomeKeeps(p, s.(db := Expire(s.db, a).0), t, Trying(q));
    } else {
      EndKeeps(p, s, t);
    }
  }

  lemma TimerKeeps(p: Params, s: State, t: nat, choice: nat)
    requires Inv(p, s) && RunEnabled(s, t, choice) && IsTimer(s.threads[t])
    ensures Inv(p, AfterRun(p, s, t, choice)) && Progress(p, s.db, AfterRun(p, s, t, choice).db)
  {
    assert ThreadFine(p, s.db, s.now, s.threads[t]);
    match s.threads[t] {
      case StartingTimer(a, q, ddl) => StartingKeeps(p, s, t, a, q, ddl);
      case Armed(a, q, ddl) => BecomeKeeps(p, s, t, Firing(a, q));
      case Firing(a, q) =>
        TimersDoNotMatter(p, s, s.timers - {a});
        BecomeKeeps(p, s.(timers := s.timers - {a}), t, Looking(a, q));
      case Looking(a, q) =>
        if StillClaimed(s.db, a) { BecomeKeeps(p, s, t, TimingOut(a, q)); } else { EndKeeps(p, s, t); }
      case TimingOut(a, q) => TimingOutKeeps(p, s, t, a, q);
    }
  }

  /** Enough replied rows mean the question exists and is full. */
  lemma EnoughMeansFull(p: Params, s: State, q: nat)
    requires Inv(p, s) && |RepliedRows(s.db.rows, q)| >= p.required
    ensures Full(p, s.db, q)
  {
    assert RepliedRows(s.db.rows, q) != {};
    var a :| a in RepliedRows(s.db.rows, q);
    assert RowFine(p, s.db, s.now, a);
  }

  lemma ListingKeeps(p: Params, s: State, t: nat, q: nat, reference: string)
    requires Inv(p, s) && t in s.threads && s.threads[t] == Listing(q, reference)
    ensures var s' := AfterRun(p, s, t, 0); Inv(p, s') && Progress(p, s.db, s'.db)
  {
    assert ThreadFine(p, s.db, s.now, s.threads[t]);
    if RepliedRows(s.db.rows, q) == {} {
      EndKeeps(p, s, t);
    } else {
      if IsOpen(s.db, q) { ListedIsExpected(p, s, q); }
      BecomeKeeps(p, s, t, Judging(q, Judge(reference, RepliesNow(s.db.rows, q))));
    }
  }

  lemma CountedKeeps(p: Params, s: State, t: nat, q: nat)
    requires Inv(p, s) && t in s.threads && s.threads[t] == Counted(q)
    ensures var s' := AfterRun(p, s, t, 0); Inv(p, s') && Progress(p, s.db, s'.db)
  {
    assert ThreadFine(p, s.db, s.now, s.threads[t]);
    if IsOpen(s.db, q) {
      BecomeKeeps(p, s, t, Listing(q, s.db.questions[q].answer));
    } else {
      EndKeeps(p, s, t);
    }
  }

  lemma ScorerKeeps(p: Params, s: State, t: nat, choice: nat)
    requires Inv(p, s) && RunEnabled(s, t, choice) && !IsAnswer(s.threads[t]) && !IsTimer(s.threads[t])
    ensures Inv(p, AfterRun(p, s, t, choice)) && Progress(p, s.db, AfterRun(p, s, t, choice).db)
  {
    match s.threads[t] {
      case Trying(q) =>
        if |RepliedRows(s.db.rows, q)| >= p.required {
          EnoughMeansFull(p, s, q);
          BecomeKeeps(p, s, t, Counted(q));
        } else {
          EndKeeps(p, s, t);
        }
      case Counted(q) => CountedKeeps(p, s, t, q);
      case Listing(q, reference) => ListingKeeps(p, s, t, q, reference);
      case Judging(q, o) =>
        if IsOpen(s.db, q) { WinStepKeeps(p, s, t, q, o); } else { EndKeeps(p, s, t); }
      case Writing(q, todo) =>
        if todo == map[] { WriterEnds(p, s, t, q); } else { WriteStepKeeps(p, s, t, q, todo, choice); }
    }
  }

  lemma WriterEnds(p: Params, s: State, t: nat, q: nat)
    requires Inv(p, s) && t in s.threads && s.threads[t] == Writing(q, map[])
    ensures Inv(p, End(s, t)) && Progress(p, s.db, s.db)
  {
    NoProgress(p, s.db);
    QuietThreads(p, s, End(s, t));
    EmptyListCoversNothing(s, t, q);
  }

  lemma EmptyListCoversNothing(s: State, t: nat, q: nat)
    requires OneWriter(s) && Covered(s) && TornFine(s) && t in s.threads && s.threads[t] == Writing(q, map[])
    ensures OneWriter(End(s, t)) && Covered(End(s, t)) && TornFine(End(s, t))
  {
    var s' := End(s, t);
    forall a | Unwritten(s'.db, a) && s'.db.rows[a].question !in s'.torn ensures exists u :: Covers(s', u, a) {
      var u :| Covers(s, u, a);
      assert Covers(s', u, a);
    }
    assert forall u, r :: Writes(s', u, r) ==> Writes(s, u, r);
    forall r | r in s'.torn ensures exists b :: Unwritten(s'.db, b) && s'.db.rows[b].question == r {
      var b :| Unwritten(s.db, b) && s.db.rows[b].question == r;
    }
  }

  lemma StepKeeps(p: Params, s: State, e: Event)
    requires Inv(p, s) && Enabled(p, s, e)
    ensures Inv(p, After(p, s, e)) && Progress(p, s.db, After(p, s, e).db)
  {
    NoProgress(p, s.db);
    match e {
      case Tick(to) => TickKeeps(p, s, to);
      case Ask(bsId, questioner, answer) => AskStepKeeps(p, s, bsId, questioner, answer);
      case Poll(w, held, pick, ddl) => PollKeeps(p, s, w, held, pick, ddl);
      case Submit(q, w, valid, answer, fits) => SpawnKeeps(p, s, Answering(q, w, valid, answer, fits));
      case RecoverTimer(a) => SpawnKeeps(p, s, StartingTimer(a, s.db.rows[a].question, s.db.rows[a].ddl));
      case RecoverScore(q) => SpawnKeeps(p, s, Trying(q));
      case Run(t, choice) =>
        if IsAnswer(s.threads[t]) { AnswerKeeps(p, s, t, choice); }
        else if IsTimer(s.threads[t]) { TimerKeeps(p, s, t, choice); }
        else { ScorerKeeps(p, s, t, choice); }
      case Crash => CrashKeeps(p, s);
    }
  }

  lemma AskStepKeeps(p: Params, s: State, bsId: string, questioner: Address, answer: string)
    requires Inv(p, s)
    ensures var db' := AddQuestion(s.db, bsId, questioner, answer); Inv(p, s.(db := db')) && Progress(p, s.db, db')
  {
    AskKeeps(p, s.db, s.now, bsId, questioner, answer);
    AskUnwritten(p, s.db, s.now, bsId, questioner, answer);
    QuietStep(p, s, s.(db := AddQuestion(s.db, bsId, questioner, answer)));
  }

  lemma TickKeeps(p: Params, s: State, to: int)
    requires Inv(p, s) && s.now <= to
    ensures Inv(p, s.(now := to))
  {
    NoProgress(p, s.db);
    forall a | a in s.db.rows ensures RowFine(p, s.db, to, a) {
      assert RowFine(p, s.db, s.now, a);
    }
    QuietStep(p, s, s.(now := to));
  }
}
