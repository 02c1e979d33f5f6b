/** The store object: the two tables as fields that each guarded statement updates
    in place (internal/store/question.go, internal/store/assignment.go). */
module Store {
  import opened Wrappers
  import opened Sets
  import opened Scoring
  import opened Tables

  /** A row as a query returns it. */
  datatype Row = Row(id: nat, columns: Assignment)

  /** Every row of `q`, once, the oldest first. */
  ghost predicate Lists(list: seq<Row>, rows: Rows, q: nat)
  {
    && (forall i, j :: 0 <= i < j < |list| ==> list[i].id < list[j].id)
    && (forall i :: 0 <= i < |list| ==>
          list[i].id in rows && rows[list[i].id] == list[i].columns && list[i].columns.question == q)
    && (forall a :: a in rows && rows[a].question == q ==> exists i :: 0 <= i < |list| && list[i].id == a)
  }

  /** The oldest rows of `q` are listed, those in `todo` are not yet. */
  ghost predicate ListsBut(list: seq<Row>, rows: Rows, q: nat, todo: set<nat>)
  {
    && (forall i, j :: 0 <= i < j < |list| ==> list[i].id < list[j].id)
    && (forall i :: 0 <= i < |list| ==>
          list[i].id in rows && rows[list[i].id] == list[i].columns && list[i].columns.question == q)
    && (forall i, b :: 0 <= i < |list| && b in todo ==> list[i].id < b)
    && (forall b :: b in rows && rows[b].question == q && b !in todo ==> exists i :: 0 <= i < |list| && list[i].id == b)
  }

  function OldestFirst(id: nat): Rank { (id, 0) }

  lemma ListsNext(list: seq<Row>, rows: Rows, q: nat, todo: set<nat>, a: nat)
    requires ListsBut(list, rows, q, todo)
    requires a in todo && a in rows && rows[a].question == q && IsLeast(todo, OldestFirst, a)
    ensures ListsBut(list + [Row(a, rows[a])], rows, q, todo - {a})
  {
    var next := list + [Row(a, rows[a])];
    forall b | b in rows && rows[b].question == q && b !in todo - {a}
      ensures exists i :: 0 <= i < |next| && next[i].id == b
    {
      if b == a {
        assert next[|list|].id == b;
      } else {
        var i :| 0 <= i < |list| && list[i].id == b;
        assert next[i].id == b;
      }
    }
  }

  class Store {
    var questions: map<nat, Question>
    var rows: map<nat, Assignment>
    var nextRow: nat
    var nextQuestion: nat

    /** The table contents. */
    function Snapshot(): Db
      reads this
    {
      Db(questions, rows, nextRow, nextQuestion)
    }

    constructor ()
      ensures Snapshot() == Db(map[], map[], 0, 0)
    {
      questions, rows, nextRow, nextQuestion := map[], map[], 0, 0;
    }

    /// ## Queries

    /** Any one of the worker's rows on the question: the query has no ordering. */
    method GetAssignmentByWorker(q: nat, w: Address) returns (found: Option<nat>)
      ensures found.Some? ==> found.value in Attempts(rows, w, q)
      ensures found.None? ==> Attempts(rows, w, q) == {}
    {
      var matching := Attempts(rows, w, q);
      if matching == {} {
        return None;
      }
      var a :| a in matching;
      return Some(a);
    }

    /** The newest claimed row of the worker. */
    method FindClaimedAssignment(w: Address) returns (held: Option<nat>)
      ensures IsHeld(Snapshot(), w, held)
    {
      held := None;
      var claimed := set a | a in rows && rows[a].worker == w && rows[a].status == Claimed;
      var todo := claimed;
      while todo != {}
        invariant todo <= claimed
        invariant held.None? ==> todo == claimed
        invariant held.Some? ==> held.value in claimed && forall b :: b in claimed && b !in todo ==> b <= held.value
        decreases todo
      {
        var a :| a in todo;
        if held.None? || held.value < a {
          held := Some(a);
        }
        todo := todo - {a};
      }
      assert forall b :: b in claimed <==> b in rows && rows[b].worker == w && rows[b].status == Claimed;
    }

    method ListAssignmentsByQuestion(q: nat) returns (list: seq<Row>)
      ensures Lists(list, rows, q)
    {
      list := [];
      var todo := set a | a in rows && rows[a].question == q;
      while todo != {}
        invariant forall a :: a in todo ==> a in rows && rows[a].question == q
        invariant ListsBut(list, rows, q, todo)
        decreases todo
      {
        ghost var oldest := LeastOf(todo, OldestFirst);
        var a :| a in todo && IsLeast(todo, OldestFirst, a);
        ListsNext(list, rows, q, todo, a);
        list := list + [Row(a, rows[a])];
        todo := todo - {a};
      }
    }

    /** Counts the claimed and replied rows of the question one by one. */
    method CountActiveAssignments(q: nat) returns (count: nat)
      ensures count == |Active(rows, q)|
    {
      count := 0;
      var todo := rows.Keys;
      while todo != {}
        invariant todo <= rows.Keys
        invariant count == |Active(rows, q) - todo|
        decreases todo
      {
        var a :| a in todo;
        CountOne(Active(rows, q), todo, a);
        if rows[a].question == q && (rows[a].status == Claimed || rows[a].status == Replied) {
          count := count + 1;
        }
        todo := todo - {a};
      }
      assert Active(rows, q) - todo == Active(rows, q);
    }

    /** Any one of the oldest candidates that no other transaction has locked, or
        none when there is none. The active rows are counted on the snapshot `seen`,
        which other transactions may have left behind by now. */
    method PickQuestionForWorker(w: Address, required: nat, seen: Rows, locked: set<nat>) returns (pick: Option<nat>)
      ensures pick.Some? ==> Candidate(Snapshot(), w, pick.value) && |Active(seen, pick.value)| < required
      ensures pick.Some? ==> pick.value in Offered(Snapshot(), seen, w, required) - locked
      ensures pick.None? ==> Offered(Snapshot(), seen, w, required) <= locked
    {
      var free := Offered(Snapshot(), seen, w, required) - locked;
      if free == {} {
        assert forall q :: q in Offered(Snapshot(), seen, w, required) && q !in locked ==> q in free;
        return None;
      }
      var q :| q in free;
      return Some(q);
    }

    /// ## Statements

    /** Undoes a transaction. */
    method Rollback(before: Db)
      modifies this
      ensures Snapshot() == before
    {
      questions, rows, nextRow, nextQuestion := before.questions, before.rows, before.nextRow, before.nextQuestion;
    }

    method CreateQuestion(bsId: string, questioner: Address, answer: string) returns (q: nat)
      modifies this
      ensures q == old(nextQuestion) && Snapshot() == AddQuestion(old(Snapshot()), bsId, questioner, answer)
    {
      q := nextQuestion;
      questions := questions[q := Question(bsId, questioner, answer, Submitted, 0, 0, 0, 0, false)];
      nextQuestion := nextQuestion + 1;
    }

    /** Fails exactly when the worker already holds a claim. */
    method CreateAssignment(q: nat, w: Address, ddl: int) returns (created: Option<nat>)
      modifies this
      ensures created.Some? <==> MayClaim(old(Snapshot()), w)
      ensures created.Some? ==> created.value == old(nextRow) && Insert(old(Snapshot()), q, w, ddl) == Some(Snapshot())
      ensures created.None? ==> Snapshot() == old(Snapshot())
    {
      if !MayClaim(Snapshot(), w) {
        return None;
      }
      var a := nextRow;
      rows := rows[a := Assignment(q, w, Claimed, ddl, NO_REPLY, 0, 0)];
      nextRow := nextRow + 1;
      return Some(a);
    }

    method TimeoutAssignment(a: nat) returns (updated: bool)
      modifies this
      ensures updated == StillClaimed(old(Snapshot()), a)
      ensures (Snapshot(), updated) == Expire(old(Snapshot()), a)
    {
      updated := a in rows && rows[a].status == Claimed;
      if updated {
        rows := rows[a := rows[a].(status := TimedOut, score := 0, share := 0)];
      }
    }

    method SetAssignmentReply(a: nat, valid: bool, answer: string) returns (ok: bool)
      modifies this
      ensures ok == StillClaimed(old(Snapshot()), a)
      ensures (Snapshot(), ok) == Accept(old(Snapshot()), a, valid, answer)
      ensures ok ==> a in rows && rows[a].status == Replied && rows[a].reply == Reply(Some(valid), Some(answer))
    {
      ok := a in rows && rows[a].status == Claimed;
      if ok {
        rows := rows[a := rows[a].(status := Replied, reply := Reply(Some(valid), Some(answer)))];
      }
    }

    method SetAssignmentScore(a: nat, score: nat, share: Fraction)
      modifies this
      ensures Snapshot() == WriteScore(old(Snapshot()), a, Mark(score, share))
    {
      if a in rows {
        rows := rows[a := rows[a].(status := Scored, score := score, share := Stored(share))];
      }
    }

    /** The compare-and-set: only a submitted question is scored. */
    method ScoreQuestion(q: nat, score: nat, share: Fraction, passRate: Fraction, now: int) returns (updated: bool)
      modifies this
      ensures updated == (q in old(questions) && old(questions)[q].status == Submitted)
      ensures forall o: Outcome | o.score == score && o.share == share && o.passRate == passRate ::
        (Snapshot(), updated) == Win(old(Snapshot()), q, o, now)
    {
      updated := q in questions && questions[q].status == Submitted;
      if updated {
        questions := questions[q := questions[q].(status := QuestionScored, score := score, share := Stored(share),
                                                  passRate := Stored(passRate), scoredAt := now)];
      }
    }
  }
}
