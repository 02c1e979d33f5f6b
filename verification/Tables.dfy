/** The questions and assignments tables and the guarded statements that write
    them (internal/store/question.go, internal/store/assignment.go,
    migrations/001_init.sql). Each statement is a function from the tables to the
    tables it leaves and what it reports. */
module Tables {
  import opened Wrappers
  import opened Scoring

  type Address = string

  datatype QuestionStatus = Submitted | QuestionScored

  datatype Status = Claimed | Replied | Scored | TimedOut

  /** Scores are small integers; shares and rates are stored ten-thousandths. */
  datatype Question = Question(bsId: string, questioner: Address, answer: string, status: QuestionStatus,
                               score: nat, share: nat, passRate: nat, scoredAt: int, benchmark: bool)

  datatype Assignment = Assignment(question: nat, worker: Address, status: Status, ddl: int,
                                   reply: Reply, score: nat, share: nat)

  /** `nextRow` and `nextQuestion` are the identity sequences. */
  datatype Db = Db(questions: map<nat, Question>, rows: map<nat, Assignment>, nextRow: nat, nextQuestion: nat)

  const NO_REPLY := Reply(None, None)

  /// ## Reads

  type Rows = map<nat, Assignment>

  predicate IsActive(row: Assignment) { row.status == Claimed || row.status == Replied }

  /** The row holds an accepted reply. */
  predicate IsAnswered(row: Assignment) { row.status == Replied || row.status == Scored }

  /** CountActiveAssignments: claimed or replied. */
  function Active(rows: Rows, q: nat): set<nat>
  {
    set a | a in rows && rows[a].question == q && IsActive(rows[a])
  }

  function RepliedRows(rows: Rows, q: nat): set<nat>
  {
    set a | a in rows && rows[a].question == q && rows[a].status == Replied
  }

  /** All rows of one worker on one question. */
  function Attempts(rows: Rows, w: Address, q: nat): set<nat>
  {
    set a | a in rows && rows[a].worker == w && rows[a].question == q
  }

  function TimedOutAttempts(rows: Rows, w: Address, q: nat): set<nat>
  {
    set a | a in Attempts(rows, w, q) && rows[a].status == TimedOut
  }

  /** The newest claimed row of a worker, as FindClaimedAssignment returns it. */
  predicate IsHeld(db: Db, w: Address, held: Option<nat>)
  {
    match held
    case None => forall a :: a in db.rows ==> !(db.rows[a].worker == w && db.rows[a].status == Claimed)
    case Some(a) =>
      && a in db.rows && db.rows[a].worker == w && db.rows[a].status == Claimed
      && forall b :: b in db.rows && db.rows[b].worker == w && db.rows[b].status == Claimed ==> b <= a
  }

  /** The candidate test of PickQuestionForWorker, without the count of active
      rows: that count may be stale and is taken again under the row lock. */
  predicate Candidate(db: Db, w: Address, q: nat)
  {
    && q in db.questions
    && db.questions[q].status == Submitted
    && db.questions[q].questioner != w
    && (forall a :: a in Attempts(db.rows, w, q) ==> db.rows[a].status == TimedOut)
    && |TimedOutAttempts(db.rows, w, q)| < 2
  }

  predicate Eligible(db: Db, w: Address, q: nat, required: nat)
  {
    Candidate(db, w, q) && |Active(db.rows, q)| < required
  }

  const CANDIDATES := 100

  /** Every candidate whose active rows in the snapshot `seen` leave a slot. */
  function Candidates(db: Db, seen: Rows, w: Address, required: nat): set<nat>
  {
    set q | q in db.questions && Candidate(db, w, q) && |Active(seen, q)| < required
  }

  /** The questions PickQuestionForWorker draws from: the oldest candidates. */
  function Offered(db: Db, seen: Rows, w: Address, required: nat): set<nat>
  {
    var candidates := Candidates(db, seen, w, required);
    set q | q in candidates && |set r | r in candidates && r < q| < CANDIDATES
  }

  /// ## Guarded writes

  function PutRow(db: Db, a: nat, row: Assignment): Db
  {
    db.(rows := db.rows[a := row])
  }

  predicate StillClaimed(db: Db, a: nat)
  {
    a in db.rows && db.rows[a].status == Claimed
  }

  /** TimeoutAssignment. */
  function Expire(db: Db, a: nat): (Db, bool)
  {
    if StillClaimed(db, a) then
      (PutRow(db, a, db.rows[a].(status := TimedOut, score := 0, share := 0)), true)
    else (db, false)
  }

  /** SetAssignmentReply. */
  function Accept(db: Db, a: nat, valid: bool, answer: string): (Db, bool)
  {
    if StillClaimed(db, a) then
      (PutRow(db, a, db.rows[a].(status := Replied, reply := Reply(Some(valid), Some(answer)))), true)
    else (db, false)
  }

  /** SetAssignmentScore: not guarded by any status. */
  function WriteScore(db: Db, a: nat, mark: Mark): Db
  {
    if a in db.rows then
      PutRow(db, a, db.rows[a].(status := Scored, score := mark.score, share := Stored(mark.share)))
    else db
  }

  /** ScoreQuestion, the compare-and-set on the question row. */
  function Win(db: Db, q: nat, o: Outcome, now: int): (Db, bool)
  {
    if q in db.questions && db.questions[q].status == Submitted then
      (db.(questions := db.questions[q := db.questions[q].(
             status := QuestionScored, score := o.score, share := Stored(o.share),
             passRate := Stored(o.passRate), scoredAt := now)]), true)
    else (db, false)
  }

  /** The partial unique index: one claimed row per worker. */
  predicate MayClaim(db: Db, w: Address)
  {
    forall a :: a in db.rows && db.rows[a].worker == w ==> db.rows[a].status != Claimed
  }

  function NewRow(q: nat, w: Address, ddl: int): Assignment
  {
    Assignment(q, w, Claimed, ddl, NO_REPLY, 0, 0)
  }

  /** CreateAssignment; None when the unique index rejects the insert. */
  function Insert(db: Db, q: nat, w: Address, ddl: int): Option<Db>
  {
    if MayClaim(db, w) then
      Some(PutRow(db, db.nextRow, NewRow(q, w, ddl)).(nextRow := db.nextRow + 1))
    else None
  }

  /** CreateQuestion. */
  function AddQuestion(db: Db, bsId: string, questioner: Address, answer: string): Db
  {
    db.(questions := db.questions[db.nextQuestion :=
          Question(bsId, questioner, answer, Submitted, 0, 0, 0, 0, false)],
        nextQuestion := db.nextQuestion + 1)
  }
}
