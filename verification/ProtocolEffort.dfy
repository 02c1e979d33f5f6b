/** Bounded runs: with finitely many workers and questions, only a bounded number
    of protocol steps change the tables. */
module ProtocolEffort {
  import opened Wrappers
  import opened Scoring
  import opened Sums
  import opened Tables
  import opened Protocol
  import opened ProtocolInvariant
  import opened ProtocolSteps
  import opened ProtocolRuns

  /// ## The measure

  function WithStatus(rows: Rows, status: Status): set<nat>
  {
    set a | a in rows && rows[a].status == status
  }

  function OpenQuestions(questions: map<nat, Question>): set<nat>
  {
    set q | q in questions && questions[q].status == Submitted
  }

  /** `each` per question; linear in each question added. */
  function Allowance(each: nat, questions: nat): nat
  {
    if questions == 0 then 0 else Allowance(each, questions - 1) + each
  }

  lemma {:induction false} AllowanceIsProduct(each: nat, questions: nat)
    ensures Allowance(each, questions) == questions * each
    decreases questions
  {
    if questions != 0 {
      AllowanceIsProduct(each, questions - 1);
      Distribute(questions - 1, each);
    }
  }

  /** Three units for every attempt slot still unused (two per worker and
      question), two for every claimed row, one for every replied row and one for
      every open question. */
  function Effort(p: Params, db: Db): int
  {
    3 * (Allowance(2 * |p.workers|, |db.questions|) - |db.rows|)
    + 2 * |WithStatus(db.rows, Claimed)| + |WithStatus(db.rows, Replied)| + |OpenQuestions(db.questions)|
  }

  /// ## Effort is never negative

  lemma {:induction false} ProductSize(w: set<Address>, q: set<nat>) returns (pairs: set<(Address, nat)>)
    ensures forall x, y :: x in w && y in q <==> (x, y) in pairs
    ensures |pairs| == |w| * |q|
    decreases |w|
  {
    if w == {} {
      pairs := {};
    } else {
      var x :| x in w;
      var rest := ProductSize(w - {x}, q);
      var column := Column(x, q);
      pairs := rest + column;
      DisjointSize(rest, column, x);
      assert |w| == |w - {x}| + 1;
      Distribute(|w - {x}|, |q|);
    }
  }

  lemma DisjointSize(rest: set<(Address, nat)>, column: set<(Address, nat)>, x: Address)
    requires forall pair :: pair in column ==> pair.0 == x
    requires forall pair :: pair in rest ==> pair.0 != x
    ensures |rest + column| == |rest| + |column|
  {
    assert rest !! column;
  }

  lemma {:induction false} Column(x: Address, q: set<nat>) returns (pairs: set<(Address, nat)>)
    ensures forall a, y :: (a, y) in pairs <==> a == x && y in q
    ensures forall pair :: pair in pairs ==> pair.0 == x
    ensures |pairs| == |q|
    decreases |q|
  {
    if q == {} {
      pairs := {};
    } else {
      var y :| y in q;
      var rest := Column(x, q - {y});
      pairs := rest + {(x, y)};
    }
  }

  function Ones(rows: Rows): map<nat, int>
  {
    map a | a in rows :: 1
  }

  function Slot(rows: Rows): map<nat, (Address, nat)>
  {
    map a | a in rows :: (rows[a].worker, rows[a].question)
  }

  lemma OnesTotal(m: map<nat, int>)
    requires forall a :: a in m ==> m[a] == 1
    ensures Total(m) == |m.Keys|
  {
    TotalTwoValued(m, m.Keys, 1);
  }

  lemma SlotTotal(rows: Rows, pairs: set<(Address, nat)>, pair: (Address, nat))
    requires pair in pairs && |Attempts(rows, pair.0, pair.1)| <= 2
    ensures ByGroup(Ones(rows), Slot(rows), pairs)[pair] <= 2
  {
    var part := Part(Ones(rows), Slot(rows), pair);
    OnesTotal(part);
    assert part.Keys == Attempts(rows, pair.0, pair.1) by {
      forall a ensures a in part <==> a in Attempts(rows, pair.0, pair.1) {
        assert a in rows ==> (Slot(rows)[a] == pair <==> rows[a].worker == pair.0 && rows[a].question == pair.1);
      }
    }
  }

  lemma RowsPerSlot(rows: Rows, pairs: set<(Address, nat)>)
    requires forall a :: a in rows ==> Slot(rows)[a] in pairs
    requires TwoAttempts(rows)
    ensures |rows| <= |pairs| * 2
  {
    var groups := ByGroup(Ones(rows), Slot(rows), pairs);
    OnesTotal(Ones(rows));
    assert Ones(rows).Keys == rows.Keys;
    TotalPartition(Ones(rows), Slot(rows), pairs);
    forall pair | pair in groups ensures groups[pair] <= 2 {
      SlotTotal(rows, pairs, pair);
    }
    TotalBounded(groups, 2);
    assert groups.Keys == pairs;
    assert |rows| == |rows.Keys| && |groups| == |groups.Keys|;
  }

  /** At most two rows per worker and question, so at most 2 * workers * questions. */
  lemma RowsBounded(p: Params, db: Db, now: int)
    requires DbInv(p, db, now)
    ensures |db.rows| <= Allowance(2 * |p.workers|, |db.questions|)
  {
    var pairs := ProductSize(p.workers, db.questions.Keys);
    forall a | a in db.rows ensures Slot(db.rows)[a] in pairs {
      assert RowFine(p, db, now, a);
    }
    RowsPerSlot(db.rows, pairs);
    assert |db.questions| == |db.questions.Keys|;
    AllowanceIsProduct(2 * |p.workers|, |db.questions|);
    Reorder(|p.workers|, |db.questions|);
  }

  lemma Reorder(w: nat, q: nat)
    ensures w * q * 2 == q * (2 * w)
  {
  }

  lemma EffortNonNegative(p: Params, db: Db, now: int)
    requires DbInv(p, db, now)
    ensures Effort(p, db) >= 0
  {
    RowsBounded(p, db, now);
  }

  /// ## Every table change spends effort

  lemma StatusMoves(rows: Rows, a: nat, row: Assignment, status: Status)
    requires a in rows
    ensures |WithStatus(rows[a := row], status)| == |WithStatus(rows, status)|
      - (if rows[a].status == status then 1 else 0) + (if row.status == status then 1 else 0)
    ensures |rows[a := row]| == |rows|
  {
    var was, now := WithStatus(rows, status), WithStatus(rows[a := row], status);
    assert rows[a := row].Keys == rows.Keys;
    assert |rows[a := row]| == |rows[a := row].Keys| == |rows.Keys| == |rows|;
    assert a in was <==> rows[a].status == status;
    assert a in now <==> row.status == status;
    SizesAround(was, now, a);
  }

  /** Two sets that agree except on `a`. */
  lemma SizesAround(was: set<nat>, now: set<nat>, a: nat)
    requires forall b :: b != a ==> (b in was <==> b in now)
    ensures |now| == |was| - (if a in was then 1 else 0) + (if a in now then 1 else 0)
  {
    LessOne(was, a);
    LessOne(now, a);
    assert was - {a} == now - {a};
  }

  lemma LessOne(s: set<nat>, a: nat)
    ensures |s| == |s - {a}| + (if a in s then 1 else 0)
  {
    assert s == if a in s then (s - {a}) + {a} else s - {a};
  }

  lemma ExpireSpends(p: Params, db: Db, a: nat)
    requires StillClaimed(db, a)
    ensures Effort(p, Expire(db, a).0) == Effort(p, db) - 2
  {
    var row := Expire(db, a).0.rows[a];
    StatusMoves(db.rows, a, row, Claimed);
    StatusMoves(db.rows, a, row, Replied);
  }

  lemma AcceptSpends(p: Params, db: Db, a: nat, valid: bool, answer: string)
    requires StillClaimed(db, a)
    ensures Effort(p, Accept(db, a, valid, answer).0) == Effort(p, db) - 1
  {
    var row := Accept(db, a, valid, answer).0.rows[a];
    StatusMoves(db.rows, a, row, Claimed);
    StatusMoves(db.rows, a, row, Replied);
  }

  lemma WriteSpends(p: Params, db: Db, a: nat, m: Mark)
    requires a in db.rows && db.rows[a].status == Replied
    ensures Effort(p, WriteScore(db, a, m)) == Effort(p, db) - 1
  {
    var row := WriteScore(db, a, m).rows[a];
    StatusMoves(db.rows, a, row, Claimed);
    StatusMoves(db.rows, a, row, Replied);
  }

  lemma InsertSpends(p: Params, db: Db, q: nat, w: Address, ddl: int)
    requires MayClaim(db, w) && db.nextRow !in db.rows
    ensures Effort(p, Insert(db, q, w, ddl).value) == Effort(p, db) - 1
  {
    var rows, rows' := db.rows, Insert(db, q, w, ddl).value.rows;
    SizesAround(WithStatus(rows, Claimed), WithStatus(rows', Claimed), db.nextRow);
    SizesAround(WithStatus(rows, Replied), WithStatus(rows', Replied), db.nextRow);
    SizesAround(rows.Keys, rows'.Keys, db.nextRow);
    assert |rows'| == |rows'.Keys| && |rows| == |rows.Keys|;
  }

  lemma WinSpends(p: Params, db: Db, q: nat, o: Outcome, now: int)
    requires IsOpen(db, q)
    ensures Effort(p, Win(db, q, o, now).0) == Effort(p, db) - 1
  {
    var questions' := Win(db, q, o, now).0.questions;
    assert OpenQuestions(questions') == OpenQuestions(db.questions) - {q};
    assert questions'.Keys == db.questions.Keys;
    assert |questions'| == |questions'.Keys|;
  }

  lemma AskAdds(p: Params, db: Db, bsId: string, questioner: Address, answer: string)
    requires db.nextQuestion !in db.questions
    ensures var db' := AddQuestion(db, bsId, questioner, answer);
      |db'.questions| == |db.questions| + 1 && Effort(p, db') == Effort(p, db) + 6 * |p.workers| + 1
  {
    var questions, questions' := db.questions, AddQuestion(db, bsId, questioner, answer).questions;
    SizesAround(OpenQuestions(questions), OpenQuestions(questions'), db.nextQuestion);
    SizesAround(questions.Keys, questions'.Keys, db.nextQuestion);
    assert |questions'| == |questions'.Keys| && |questions| == |questions.Keys|;
    OneMore(2 * |p.workers|, |questions|);
  }

  lemma OneMore(each: nat, questions: nat)
    ensures Allowance(each, questions + 1) == Allowance(each, questions) + each
  {
  }

  /** No question appears, and either nothing changes or effort is spent. */
  predicate Spends(p: Params, db: Db, db': Db)
  {
    |db'.questions| == |db.questions| && (db' == db || Effort(p, db') < Effort(p, db))
  }

  lemma PollSpends(p: Params, s: State, w: Address, held: Option<nat>, pick: Option<nat>, ddl: int)
    requires DbInv(p, s.db, s.now) && PollEnabled(p, s, w, held, pick)
    ensures Spends(p, s.db, AfterPoll(s, w, held, pick, ddl).db)
  {
    if !KeepsClaim(s.db, s.now, held) {
      var db := Cleaned(s.db, s.now, held);
      if held.Some? && s.now > s.db.rows[held.value].ddl {
        ExpireSpends(p, s.db, held.value);
      }
      if pick.Some? {
        FreshRow(p, s.db, s.now);
        InsertAccepted(p, s.db, s.now, w, held);
        InsertSpends(p, db, pick.value, w, ddl);
      }
    }
  }

  lemma GuardedSpend(p: Params, db: Db, a: nat, valid: bool, answer: string, q: nat, o: Outcome, now: int)
    ensures Spends(p, db, Expire(db, a).0)
    ensures Spends(p, db, Accept(db, a, valid, answer).0)
    ensures Spends(p, db, Win(db, q, o, now).0)
  {
    if StillClaimed(db, a) {
      ExpireSpends(p, db, a);
      AcceptSpends(p, db, a, valid, answer);
    }
    if IsOpen(db, q) {
      WinSpends(p, db, q, o, now);
      SameSize(db, q, o, now);
    }
  }

  lemma RunSpends(p: Params, s: State, t: nat, choice: nat)
    requires ThreadsFine(p, s) && RunEnabled(s, t, choice)
    ensures Spends(p, s.db, AfterRun(p, s, t, choice).db)
  {
    var any := Judge("", map[]);
    match s.threads[t] {
      case Expiring(a) => GuardedSpend(p, s.db, a, true, "", 0, any, 0);
      case Submitting(a, _, valid, answer) => GuardedSpend(p, s.db, a, valid, answer, 0, any, 0);
      case TimingOut(a, _) => GuardedSpend(p, s.db, a, true, "", 0, any, 0);
      case Judging(q, o) => GuardedSpend(p, s.db, 0, true, "", q, o, s.now);
      case Writing(q, todo) =>
        WriterIsScored(p, s, t);
        if todo != map[] { PendingSpends(p, s.db, q, choice, todo[choice]); }
      case Notifying(a, _) => assert Cancelled(s, a).db == s.db;
      case _ => assert AfterRun(p, s, t, choice).db == s.db;
    }
  }

  lemma PendingSpends(p: Params, db: Db, q: nat, a: nat, m: Mark)
    requires Pending(db, q, a, m)
    ensures Spends(p, db, WriteScore(db, a, m))
  {
    WriteSpends(p, db, a, m);
  }

  lemma SameSize(db: Db, q: nat, o: Outcome, now: int)
    ensures |Win(db, q, o, now).0.questions| == |db.questions|
  {
    assert Win(db, q, o, now).0.questions.Keys == db.questions.Keys;
    assert |Win(db, q, o, now).0.questions.Keys| == |Win(db, q, o, now).0.questions|;
  }

  /** A step adds a question, or leaves the tables alone, or spends effort. */
  lemma StepSpends(p: Params, s: State, e: Event)
    requires Inv(p, s) && Enabled(p, s, e)
    ensures var db' := After(p, s, e).db;
      if e.Ask? then |db'.questions| == |s.db.questions| + 1 && Effort(p, db') == Effort(p, s.db) + 6 * |p.workers| + 1
      else Spends(p, s.db, db')
  {
    match e {
      case Ask(bsId, questioner, answer) =>
        assert s.db.nextQuestion !in s.db.questions;
        AskAdds(p, s.db, bsId, questioner, answer);
      case Poll(w, held, pick, ddl) => PollSpends(p, s, w, held, pick, ddl);
      case Run(t, choice) => RunSpends(p, s, t, choice);
      case _ =>
    }
  }

  /// ## Bounded runs

  /** How many of the first `n` steps, other than new questions, changed the tables. */
  ghost function Changes(states: seq<State>, events: seq<Event>, n: nat): nat
    requires |states| == |events| + 1 && n <= |events|
  {
    if n == 0 then 0
    else
      var changed := !events[n - 1].Ask? && states[n].db != states[n - 1].db;
      Changes(states, events, n - 1) + (if changed then 1 else 0)
  }

  /** Table changes allowed per question. */
  function QuestionBudget(p: Params): nat
  {
    6 * |p.workers| + 1
  }

  /** Effort left after the budget of all questions so far is charged. */
  function Slack(p: Params, db: Db): int
  {
    Allowance(QuestionBudget(p), |db.questions|) - Effort(p, db)
  }

  lemma SlackGrows(p: Params, s: State, e: Event)
    requires Inv(p, s) && Enabled(p, s, e)
    ensures var db' := After(p, s, e).db;
      Slack(p, db') >= Slack(p, s.db) + (if !e.Ask? && db' != s.db then 1 else 0)
  {
    StepSpends(p, s, e);
    OneMore(QuestionBudget(p), |s.db.questions|);
  }

  lemma NoSlackAtFirst(p: Params)
    ensures Slack(p, Initial().db) == 0
  {
    var db := Initial().db;
    assert WithStatus(db.rows, Claimed) == {} && WithStatus(db.rows, Replied) == {}
      && OpenQuestions(db.questions) == {};
  }

  lemma {:induction false} ChangesWithinSlack(p: Params, states: seq<State>, events: seq<Event>, n: nat)
    requires IsRun(p, states, events) && n <= |events|
    ensures Changes(states, events, n) <= Slack(p, states[n].db)
    decreases n
  {
    if n == 0 {
      NoSlackAtFirst(p);
    } else {
      ChangesWithinSlack(p, states, events, n - 1);
      InvAt(p, states, events, n - 1);
      SlackGrows(p, states[n - 1], events[n - 1]);
    }
  }

  lemma SlackWithinBudget(p: Params, s: State, budget: nat)
    requires Inv(p, s) && budget == QuestionBudget(p)
    ensures Slack(p, s.db) <= |s.db.questions| * budget
  {
    EffortNonNegative(p, s.db, s.now);
    AllowanceIsProduct(budget, |s.db.questions|);
  }

  /** No run makes more than 6 * workers + 1 table changes per question. */
  lemma RunsAreBounded(p: Params, states: seq<State>, events: seq<Event>)
    requires IsRun(p, states, events)
    ensures Changes(states, events, |events|) <= |states[|events|].db.questions| * QuestionBudget(p)
  {
    var n := |events|;
    ChangesWithinSlack(p, states, events, n);
    InvAt(p, states, events, n);
    SlackWithinBudget(p, states[n], QuestionBudget(p));
  }
}
