/** What every step of the protocol keeps in the tables. */
module ProtocolInvariant {
  import opened Wrappers
  import opened Scoring
  import opened Sets
  import opened Tables
  import opened Protocol

  /// ## The table invariant

  function AnsweredRows(rows: Rows, q: nat): set<nat>
  {
    set a | a in rows && rows[a].question == q && IsAnswered(rows[a])
  }

  function RepliesOf(rows: Rows, q: nat): Replies
  {
    map a | a in AnsweredRows(rows, q) :: rows[a].reply
  }

  /** The reference outcome for the replies a question has. */
  function Expected(answer: string, rows: Rows, q: nat): Outcome
  {
    Judge(answer, RepliesOf(rows, q))
  }

  predicate IsScored(db: Db, q: nat)
  {
    q in db.questions && db.questions[q].status == QuestionScored
  }

  predicate IsOpen(db: Db, q: nat)
  {
    q in db.questions && db.questions[q].status == Submitted
  }

  /** Enough replies are in, or the question is already scored. */
  predicate Full(p: Params, db: Db, q: nat)
  {
    IsScored(db, q) || (IsOpen(db, q) && |RepliedRows(db.rows, q)| >= p.required)
  }

  predicate Accepted(r: Reply) { r.valid.Some? && r.answer.Some? }

  predicate RowFine(p: Params, db: Db, now: int, a: nat)
    requires a in db.rows
  {
    var row := db.rows[a];
    && a < db.nextRow
    && row.worker in p.workers
    && row.question in db.questions
    && row.worker != db.questions[row.question].questioner
    && (row.status != Scored ==> row.score == 0 && row.share == 0)
    && (!IsAnswered(row) ==> row.reply == NO_REPLY)
    && (IsAnswered(row) ==> Accepted(row.reply))
    && (row.status == Claimed ==> IsOpen(db, row.question))
    && (row.status == Scored ==> IsScored(db, row.question))
    && (row.status == TimedOut ==> now >= row.ddl)
  }

  predicate RowsFine(p: Params, db: Db, now: int)
  {
    forall a :: a in db.rows ==> RowFine(p, db, now, a)
  }

  /** At most one claimed row per worker: the partial unique index. */
  predicate OneClaim(rows: Rows)
  {
    forall a, b :: a in rows && b in rows && BothClaimed(rows[a], rows[b]) ==> a == b
  }

  predicate BothClaimed(r: Assignment, s: Assignment)
  {
    r.worker == s.worker && r.status == Claimed && s.status == Claimed
  }

  /** At most one row per worker and question that has not timed out. */
  predicate OneLive(rows: Rows)
  {
    forall a, b :: a in rows && b in rows && BothLive(rows[a], rows[b]) ==> a == b
  }

  predicate BothLive(r: Assignment, s: Assignment)
  {
    r.worker == s.worker && r.question == s.question && r.status != TimedOut && s.status != TimedOut
  }

  ghost predicate TwoAttempts(rows: Rows)
  {
    forall w: Address, q: nat :: |Attempts(rows, w, q)| <= 2
  }

  ghost predicate WithinRequired(p: Params, rows: Rows)
  {
    forall q: nat :: |Active(rows, q)| <= p.required
  }

  predicate Marked(rows: Rows, q: nat, o: Outcome)
  {
    forall a :: a in rows && rows[a].question == q && rows[a].status == Scored ==>
      a in o.marks && rows[a].score == o.marks[a].score && rows[a].share == Stored(o.marks[a].share)
  }

  /** The question's columns and its scored rows agree with an outcome. */
  predicate Carries(question: Question, rows: Rows, q: nat, o: Outcome)
  {
    && question.score == o.score
    && question.share == Stored(o.share)
    && question.passRate == Stored(o.passRate)
    && Marked(rows, q, o)
  }

  predicate QuestionFine(p: Params, question: Question, rows: Rows, q: nat)
  {
    match question.status
    case Submitted => question.score == 0 && question.share == 0 && question.passRate == 0
    case QuestionScored =>
      |AnsweredRows(rows, q)| == p.required && Carries(question, rows, q, Expected(question.answer, rows, q))
  }

  predicate QuestionsFine(p: Params, db: Db)
  {
    forall q :: q in db.questions ==> q < db.nextQuestion && QuestionFine(p, db.questions[q], db.rows, q)
  }

  ghost predicate DbInv(p: Params, db: Db, now: int)
  {
    && RowsFine(p, db, now)
    && OneClaim(db.rows)
    && OneLive(db.rows)
    && TwoAttempts(db.rows)
    && WithinRequired(p, db.rows)
    && QuestionsFine(p, db)
  }

  /** The reply set of a full question is complete: nothing is claimed, exactly
      the required number has replied. */
  lemma FullHasNoClaims(p: Params, db: Db, now: int, q: nat)
    requires DbInv(p, db, now) && Full(p, db, q)
    ensures forall a :: a in db.rows && db.rows[a].question == q ==> db.rows[a].status != Claimed
    ensures IsOpen(db, q) ==>
      |RepliedRows(db.rows, q)| == p.required && AnsweredRows(db.rows, q) == RepliedRows(db.rows, q)
  {
    forall a | a in db.rows && db.rows[a].question == q
      ensures IsOpen(db, q) ==> db.rows[a].status != Scored
      ensures IsScored(db, q) ==> db.rows[a].status != Claimed
    {
      assert RowFine(p, db, now, a);
    }
    if IsOpen(db, q) {
      var active, replied := Active(db.rows, q), RepliedRows(db.rows, q);
      assert replied <= active;
      SubsetSize(replied, active);
      assert |active| <= p.required;
      forall a | a in db.rows && db.rows[a].question == q ensures db.rows[a].status != Claimed {
        assert a in active <==> a in replied;
      }
    }
  }

  /// ## What a step may do to the tables

  /** Same identity: the columns no statement changes. */
  predicate SameIdentity(r: Assignment, r': Assignment)
  {
    r.question == r'.question && r.worker == r'.worker && r.ddl == r'.ddl
  }

  /** The only status changes: claimed to replied or timed out, replied to scored.
      Everything a finished row holds, and every accepted reply, stays. */
  predicate Later(r: Assignment, r': Assignment)
  {
    && SameIdentity(r, r')
    && match r.status
       case Claimed => r' == r || r'.status != Claimed
       case Replied => (r' == r || r'.status == Scored) && r'.reply == r.reply
       case _ => r' == r
  }

  predicate LaterQuestion(x: Question, x': Question)
  {
    && x'.bsId == x.bsId && x'.questioner == x.questioner && x'.answer == x.answer
    && (x.status == QuestionScored ==> x' == x)
  }

  predicate Evolves(db: Db, db': Db)
  {
    && (forall a :: a in db.rows ==> a in db'.rows && Later(db.rows[a], db'.rows[a]))
    && (forall q :: q in db.questions ==> q in db'.questions && LaterQuestion(db.questions[q], db'.questions[q]))
  }

  predicate SameRows(rows: Rows, rows': Rows, q: nat)
  {
    && (forall a :: a in rows && rows[a].question == q ==> a in rows' && rows'[a] == rows[a])
    && (forall a :: a in rows' && rows'[a].question == q ==> a in rows && rows[a] == rows'[a])
  }

  /** A full question keeps its replies; until it is scored its rows do not change at all. */
  predicate Frozen(p: Params, db: Db, db': Db, q: nat)
  {
    && Full(p, db', q)
    && RepliesOf(db'.rows, q) == RepliesOf(db.rows, q)
    && (IsOpen(db', q) ==> SameRows(db.rows, db'.rows, q))
  }

  predicate Freezes(p: Params, db: Db, db': Db)
  {
    forall q :: q in db.questions && Full(p, db, q) ==> Frozen(p, db, db', q)
  }

  predicate Progress(p: Params, db: Db, db': Db)
  {
    Evolves(db, db') && Freezes(p, db, db')
  }

  lemma NoProgress(p: Params, db: Db)
    ensures Progress(p, db, db)
  {
  }

  /** What is computed from the rows of a question depends on those rows only. */
  lemma SameRowsSameSets(rows: Rows, rows': Rows, q: nat)
    requires SameRows(rows, rows', q)
    ensures Active(rows', q) == Active(rows, q)
    ensures RepliedRows(rows', q) == RepliedRows(rows, q)
    ensures AnsweredRows(rows', q) == AnsweredRows(rows, q)
    ensures RepliesOf(rows', q) == RepliesOf(rows, q)
  {
    assert AnsweredRows(rows', q) == AnsweredRows(rows, q);
  }

  lemma SameRowsFrozen(p: Params, db: Db, db': Db, q: nat)
    requires q in db.questions && q in db'.questions && db'.questions[q] == db.questions[q]
    requires SameRows(db.rows, db'.rows, q) && Full(p, db, q)
    ensures Frozen(p, db, db', q)
  {
    SameRowsSameSets(db.rows, db'.rows, q);
  }

  lemma SameRowsFine(p: Params, question: Question, rows: Rows, rows': Rows, q: nat)
    requires SameRows(rows, rows', q) && QuestionFine(p, question, rows, q)
    ensures QuestionFine(p, question, rows', q)
  {
    SameRowsSameSets(rows, rows', q);
    assert Expected(question.answer, rows', q) == Expected(question.answer, rows, q);
  }

  /// ## One claimed row changes: timeout or reply

  /** A statement that takes one row out of claimed. */
  predicate LeavesClaimed(db: Db, db': Db, a: nat, now: int)
  {
    && StillClaimed(db, a)
    && a in db'.rows && db' == PutRow(db, a, db'.rows[a])
    && SameIdentity(db.rows[a], db'.rows[a])
    && db'.rows[a].score == 0 && db'.rows[a].share == 0
    && match db'.rows[a].status
       case TimedOut => db'.rows[a].reply == NO_REPLY && now >= db.rows[a].ddl
       case Replied => Accepted(db'.rows[a].reply)
       case _ => false
  }

  lemma ExpireLeavesClaimed(p: Params, db: Db, now: int, a: nat)
    requires DbInv(p, db, now) && StillClaimed(db, a) && now >= db.rows[a].ddl
    ensures LeavesClaimed(db, Expire(db, a).0, a, now)
  {
    assert RowFine(p, db, now, a);
  }

  lemma AcceptLeavesClaimed(p: Params, db: Db, now: int, a: nat, valid: bool, answer: string)
    requires DbInv(p, db, now) && StillClaimed(db, a)
    ensures LeavesClaimed(db, Accept(db, a, valid, answer).0, a, now)
  {
    assert RowFine(p, db, now, a);
  }

  lemma LeavesClaimedNotFull(p: Params, db: Db, a: nat, now: int)
    requires DbInv(p, db, now) && StillClaimed(db, a)
    ensures !Full(p, db, db.rows[a].question) && IsOpen(db, db.rows[a].question)
  {
    assert RowFine(p, db, now, a);
    if Full(p, db, db.rows[a].question) {
      FullHasNoClaims(p, db, now, db.rows[a].question);
    }
  }

  lemma LeavesClaimedProgress(p: Params, db: Db, db': Db, a: nat, now: int)
    requires LeavesClaimed(db, db', a, now) && !Full(p, db, db.rows[a].question)
    ensures Progress(p, db, db')
  {
    forall q | q in db.questions && Full(p, db, q) ensures Frozen(p, db, db', q) {
      assert SameRows(db.rows, db'.rows, q);
      SameRowsFrozen(p, db, db', q);
    }
  }

  lemma LeavesClaimedCounts(p: Params, db: Db, db': Db, a: nat, now: int)
    requires DbInv(p, db, now) && LeavesClaimed(db, db', a, now)
    ensures TwoAttempts(db'.rows) && WithinRequired(p, db'.rows)
  {
    forall w: Address, q: nat ensures |Attempts(db'.rows, w, q)| <= 2 {
      assert Attempts(db'.rows, w, q) == Attempts(db.rows, w, q);
    }
    forall q: nat ensures |Active(db'.rows, q)| <= p.required {
      assert Active(db'.rows, q) <= Active(db.rows, q);
      SubsetSize(Active(db'.rows, q), Active(db.rows, q));
    }
  }

  lemma LeavesClaimedQuestions(p: Params, db: Db, db': Db, a: nat, now: int)
    requires DbInv(p, db, now) && LeavesClaimed(db, db', a, now)
    ensures QuestionsFine(p, db')
  {
    LeavesClaimedNotFull(p, db, a, now);
    forall q | q in db'.questions ensures QuestionFine(p, db'.questions[q], db'.rows, q) {
      if q != db.rows[a].question {
        assert SameRows(db.rows, db'.rows, q);
        SameRowsFine(p, db.questions[q], db.rows, db'.rows, q);
      }
    }
  }

  lemma LeavesClaimedRows(p: Params, db: Db, db': Db, a: nat, now: int)
    requires DbInv(p, db, now) && LeavesClaimed(db, db', a, now)
    ensures RowsFine(p, db', now) && OneClaim(db'.rows) && OneLive(db'.rows)
  {
    forall b | b in db'.rows ensures RowFine(p, db', now, b) {
      assert RowFine(p, db, now, b);
    }
    forall b, c | b in db'.rows && c in db'.rows && BothLive(db'.rows[b], db'.rows[c]) ensures b == c {
      assert BothLive(db.rows[b], db.rows[c]);
    }
  }

  lemma LeavesClaimedKeeps(p: Params, db: Db, db': Db, a: nat, now: int)
    requires DbInv(p, db, now) && LeavesClaimed(db, db', a, now)
    ensures DbInv(p, db', now) && Progress(p, db, db')
  {
    LeavesClaimedNotFull(p, db, a, now);
    LeavesClaimedProgress(p, db, db', a, now);
    LeavesClaimedCounts(p, db, db', a, now);
    LeavesClaimedQuestions(p, db, db', a, now);
    LeavesClaimedRows(p, db, db', a, now);
  }

  /// ## A claim is inserted

  /** The double-poll guard makes the unique index accept the insert. */
  lemma InsertAccepted(p: Params, db: Db, now: int, w: Address, held: Option<nat>)
    requires DbInv(p, db, now) && IsHeld(db, w, held) && !KeepsClaim(db, now, held)
    ensures MayClaim(Cleaned(db, now, held), w)
  {
    forall a, b | a in db.rows && b in db.rows && BothClaimed(db.rows[a], db.rows[b]) ensures a == b {}
  }

  lemma FreshRow(p: Params, db: Db, now: int)
    requires DbInv(p, db, now)
    ensures db.nextRow !in db.rows
  {
    forall a | a in db.rows ensures a != db.nextRow {
      assert RowFine(p, db, now, a);
    }
  }

  /** A new row joins its own worker's attempts and its own question's active rows. */
  lemma NewRowCounts(rows: Rows, n: nat, row: Assignment, v: Address, r: nat)
    requires n !in rows && row.status == Claimed
    ensures Attempts(rows[n := row], v, r)
         == if row.worker == v && row.question == r then Attempts(rows, v, r) + {n} else Attempts(rows, v, r)
    ensures Active(rows[n := row], r) == if row.question == r then Active(rows, r) + {n} else Active(rows, r)
  {
  }

  lemma OnlyTimedOutAttempts(db: Db, w: Address, q: nat, required: nat)
    requires Eligible(db, w, q, required)
    ensures |Attempts(db.rows, w, q)| < 2 && |Active(db.rows, q)| < required
  {
    assert Attempts(db.rows, w, q) == TimedOutAttempts(db.rows, w, q);
  }

  lemma InsertCounts(p: Params, db: Db, now: int, w: Address, q: nat, ddl: int)
    requires DbInv(p, db, now) && MayClaim(db, w) && Eligible(db, w, q, p.required)
    ensures var rows' := Insert(db, q, w, ddl).value.rows; TwoAttempts(rows') && WithinRequired(p, rows')
  {
    var rows' := Insert(db, q, w, ddl).value.rows;
    FreshRow(p, db, now);
    OnlyTimedOutAttempts(db, w, q, p.required);
    forall v: Address, r: nat ensures |Attempts(rows', v, r)| <= 2 && |Active(rows', r)| <= p.required {
      NewRowCounts(db.rows, db.nextRow, NewRow(q, w, ddl), v, r);
    }
    forall r: nat ensures |Active(rows', r)| <= p.required {
      NewRowCounts(db.rows, db.nextRow, NewRow(q, w, ddl), w, r);
    }
  }

  lemma EligibleNotFull(p: Params, db: Db, w: Address, q: nat)
    requires Eligible(db, w, q, p.required)
    ensures !Full(p, db, q)
  {
    assert RepliedRows(db.rows, q) <= Active(db.rows, q);
    SubsetSize(RepliedRows(db.rows, q), Active(db.rows, q));
  }

  lemma InsertFrozen(p: Params, db: Db, now: int, w: Address, q: nat, ddl: int)
    requires DbInv(p, db, now) && MayClaim(db, w) && IsOpen(db, q) && !Full(p, db, q)
    ensures var db' := Insert(db, q, w, ddl).value; Progress(p, db, db') && QuestionsFine(p, db')
  {
    var db' := Insert(db, q, w, ddl).value;
    FreshRow(p, db, now);
    forall r | r in db.questions && r != q
      ensures QuestionFine(p, db.questions[r], db'.rows, r)
      ensures Full(p, db, r) ==> Frozen(p, db, db', r)
    {
      assert SameRows(db.rows, db'.rows, r);
      SameRowsFine(p, db.questions[r], db.rows, db'.rows, r);
      if Full(p, db, r) { SameRowsFrozen(p, db, db', r); }
    }
  }

  lemma InsertRows(p: Params, db: Db, now: int, w: Address, q: nat, ddl: int)
    requires DbInv(p, db, now) && w in p.workers && MayClaim(db, w) && Eligible(db, w, q, p.required)
    ensures var db' := Insert(db, q, w, ddl).value;
      RowsFine(p, db', now) && OneLive(db'.rows) && OneClaim(db'.rows)
  {
    var db' := Insert(db, q, w, ddl).value;
    FreshRow(p, db, now);
    forall a | a in db'.rows ensures RowFine(p, db', now, a) {
      if a in db.rows { assert RowFine(p, db, now, a); }
    }
    forall a | a in db.rows && db.rows[a].worker == w && db.rows[a].question == q
      ensures db.rows[a].status == TimedOut
    {
      assert a in Attempts(db.rows, w, q);
    }
  }

  lemma InsertKeeps(p: Params, db: Db, now: int, w: Address, q: nat, ddl: int)
    requires DbInv(p, db, now) && w in p.workers && MayClaim(db, w) && Eligible(db, w, q, p.required)
    ensures var db' := Insert(db, q, w, ddl).value;
      DbInv(p, db', now) && Progress(p, db, db')
  {
    InsertCounts(p, db, now, w, q, ddl);
    EligibleNotFull(p, db, w, q);
    InsertFrozen(p, db, now, w, q, ddl);
    InsertRows(p, db, now, w, q, ddl);
  }

  /// ## The rows stay and a question changes

  lemma AskKeeps(p: Params, db: Db, now: int, bsId: string, questioner: Address, answer: string)
    requires DbInv(p, db, now)
    ensures var db' := AddQuestion(db, bsId, questioner, answer);
      DbInv(p, db', now) && Progress(p, db, db')
  {
    var db' := AddQuestion(db, bsId, questioner, answer);
    AskRows(p, db, now, bsId, questioner, answer);
    assert db.nextQuestion !in db.questions;
    forall q | q in db.questions && Full(p, db, q) ensures Frozen(p, db, db', q) {}
  }

  lemma AskRows(p: Params, db: Db, now: int, bsId: string, questioner: Address, answer: string)
    requires RowsFine(p, db, now) && db.nextQuestion !in db.questions
    ensures RowsFine(p, AddQuestion(db, bsId, questioner, answer), now)
  {
    forall a | a in db.rows ensures RowFine(p, AddQuestion(db, bsId, questioner, answer), now, a) {
      assert RowFine(p, db, now, a);
    }
  }

  /** The compare-and-set succeeds on a full question with the expected outcome. */
  lemma WinKeeps(p: Params, db: Db, now: int, q: nat, o: Outcome)
    requires DbInv(p, db, now) && IsOpen(db, q) && Full(p, db, q)
    requires o == Expected(db.questions[q].answer, db.rows, q)
    ensures var db' := Win(db, q, o, now).0;
      DbInv(p, db', now) && Progress(p, db, db')
  {
    FullHasNoClaims(p, db, now, q);
    WinRows(p, db, now, q, o);
    WinQuestions(p, db, now, q, o);
    WinProgress(p, db, q, o, now);
  }

  lemma WinCarries(db: Db, q: nat, o: Outcome, now: int)
    requires IsOpen(db, q) && Marked(db.rows, q, o)
    ensures var x := Win(db, q, o, now).0.questions[q];
      x.status == QuestionScored && Carries(x, db.rows, q, o) && x.answer == db.questions[q].answer
  {
  }

  lemma WonQuestionFine(p: Params, db: Db, now: int, q: nat, o: Outcome)
    requires IsOpen(db, q) && Marked(db.rows, q, o) && |AnsweredRows(db.rows, q)| == p.required
    requires o == Expected(db.questions[q].answer, db.rows, q)
    ensures var db' := Win(db, q, o, now).0; QuestionFine(p, db'.questions[q], db'.rows, q)
  {
    WinCarries(db, q, o, now);
  }

  /** A question's own columns and rows are all that its fineness looks at. */
  lemma OtherQuestionsFine(p: Params, db: Db, db': Db, q: nat)
    requires QuestionsFine(p, db) && db'.rows == db.rows && db'.nextQuestion == db.nextQuestion
    requires q in db.questions && q in db'.questions && db'.questions == db.questions[q := db'.questions[q]]
    requires QuestionFine(p, db'.questions[q], db'.rows, q)
    ensures QuestionsFine(p, db')
  {
  }

  lemma WinQuestions(p: Params, db: Db, now: int, q: nat, o: Outcome)
    requires DbInv(p, db, now) && IsOpen(db, q) && |AnsweredRows(db.rows, q)| == p.required
    requires o == Expected(db.questions[q].answer, db.rows, q)
    ensures QuestionsFine(p, Win(db, q, o, now).0)
  {
    NothingScored(p, db, now, q, o);
    WonQuestionFine(p, db, now, q, o);
    OtherQuestionsFine(p, db, Win(db, q, o, now).0, q);
  }

  lemma WinProgress(p: Params, db: Db, q: nat, o: Outcome, now: int)
    requires IsOpen(db, q)
    ensures Progress(p, db, Win(db, q, o, now).0)
  {
  }

  lemma WinRows(p: Params, db: Db, now: int, q: nat, o: Outcome)
    requires DbInv(p, db, now) && IsOpen(db, q)
    requires forall a :: a in db.rows && db.rows[a].question == q ==> db.rows[a].status != Claimed
    ensures RowsFine(p, Win(db, q, o, now).0, now)
  {
    var db' := Win(db, q, o, now).0;
    forall a | a in db'.rows ensures RowFine(p, db', now, a) {
      assert RowFine(p, db, now, a);
    }
  }

  lemma NothingScored(p: Params, db: Db, now: int, q: nat, o: Outcome)
    requires DbInv(p, db, now) && IsOpen(db, q)
    ensures Marked(db.rows, q, o)
  {
    forall a | a in db.rows && db.rows[a].question == q ensures db.rows[a].status != Scored {
      assert RowFine(p, db, now, a);
    }
  }

  /// ## A score is written

  /** `a` waits for the mark `m` that the outcome of its question gives it. */
  predicate Pending(db: Db, q: nat, a: nat, m: Mark)
  {
    && IsScored(db, q) && a in db.rows && db.rows[a].question == q && db.rows[a].status == Replied
    && a in Expected(db.questions[q].answer, db.rows, q).marks
    && Expected(db.questions[q].answer, db.rows, q).marks[a] == m
  }

  /** Scoring a replied row changes no reply of its question. */
  lemma WriteReplies(db: Db, a: nat, m: Mark)
    requires a in db.rows && db.rows[a].status == Replied
    ensures var q, rows' := db.rows[a].question, WriteScore(db, a, m).rows;
      AnsweredRows(rows', q) == AnsweredRows(db.rows, q) && RepliesOf(rows', q) == RepliesOf(db.rows, q)
  {
    var q, rows' := db.rows[a].question, WriteScore(db, a, m).rows;
    assert AnsweredRows(rows', q) == AnsweredRows(db.rows, q);
  }

  lemma WriteCounts(p: Params, db: Db, now: int, a: nat, m: Mark)
    requires DbInv(p, db, now) && a in db.rows && db.rows[a].status == Replied
    ensures var rows' := WriteScore(db, a, m).rows; TwoAttempts(rows') && WithinRequired(p, rows')
  {
    var rows' := WriteScore(db, a, m).rows;
    forall w: Address, r: nat ensures |Attempts(rows', w, r)| <= 2 {
      assert Attempts(rows', w, r) == Attempts(db.rows, w, r);
    }
    forall r: nat ensures |Active(rows', r)| <= p.required {
      assert Active(rows', r) <= Active(db.rows, r);
      SubsetSize(Active(rows', r), Active(db.rows, r));
    }
  }

  lemma WriteMarked(db: Db, q: nat, a: nat, m: Mark, o: Outcome)
    requires a in db.rows && db.rows[a].question == q && Marked(db.rows, q, o)
    requires a in o.marks && o.marks[a] == m
    ensures Marked(WriteScore(db, a, m).rows, q, o)
  {
  }

  lemma WriteQuestion(p: Params, db: Db, q: nat, a: nat, m: Mark)
    requires Pending(db, q, a, m) && q in db.questions && QuestionFine(p, db.questions[q], db.rows, q)
    ensures QuestionFine(p, db.questions[q], WriteScore(db, a, m).rows, q)
  {
    WriteReplies(db, a, m);
    WriteMarked(db, q, a, m, Expected(db.questions[q].answer, db.rows, q));
  }

  lemma WriteQuestions(p: Params, db: Db, now: int, q: nat, a: nat, m: Mark)
    requires QuestionsFine(p, db) && Pending(db, q, a, m)
    ensures QuestionsFine(p, WriteScore(db, a, m))
  {
    var db' := WriteScore(db, a, m);
    forall r | r in db.questions ensures QuestionFine(p, db.questions[r], db'.rows, r) {
      if r == q {
        WriteQuestion(p, db, q, a, m);
      } else {
        assert SameRows(db.rows, db'.rows, r);
        SameRowsFine(p, db.questions[r], db.rows, db'.rows, r);
      }
    }
  }

  lemma WriteProgress(p: Params, db: Db, a: nat, m: Mark)
    requires a in db.rows && db.rows[a].status == Replied && IsScored(db, db.rows[a].question)
    ensures Progress(p, db, WriteScore(db, a, m))
  {
    var db' := WriteScore(db, a, m);
    forall r | r in db.questions && Full(p, db, r) ensures Frozen(p, db, db', r) {
      if r == db.rows[a].question {
        WriteReplies(db, a, m);
      } else {
        assert SameRows(db.rows, db'.rows, r);
        SameRowsFrozen(p, db, db', r);
      }
    }
  }

  lemma WriteRow(p: Params, db: Db, now: int, a: nat, m: Mark, b: nat)
    requires b in db.rows && RowFine(p, db, now, b)
    requires a in db.rows && db.rows[a].status == Replied && IsScored(db, db.rows[a].question)
    ensures RowFine(p, WriteScore(db, a, m), now, b)
  {
  }

  lemma WriteRows(p: Params, db: Db, now: int, a: nat, m: Mark)
    requires RowsFine(p, db, now) && OneClaim(db.rows) && OneLive(db.rows)
    requires a in db.rows && db.rows[a].status == Replied && IsScored(db, db.rows[a].question)
    ensures var db' := WriteScore(db, a, m); RowsFine(p, db', now) && OneClaim(db'.rows) && OneLive(db'.rows)
  {
    var db' := WriteScore(db, a, m);
    forall b | b in db'.rows ensures RowFine(p, db', now, b) {
      WriteRow(p, db, now, a, m, b);
    }
    forall b, c | b in db'.rows && c in db'.rows && BothLive(db'.rows[b], db'.rows[c]) ensures b == c {
      assert BothLive(db.rows[b], db.rows[c]);
    }
  }

  lemma WriteKeeps(p: Params, db: Db, now: int, q: nat, a: nat, m: Mark)
    requires DbInv(p, db, now) && Pending(db, q, a, m)
    ensures var db' := WriteScore(db, a, m);
      DbInv(p, db', now) && Progress(p, db, db')
  {
    WriteCounts(p, db, now, a, m);
    WriteQuestions(p, db, now, q, a, m);
    WriteProgress(p, db, a, m);
    WriteRows(p, db, now, a, m);
  }
}
