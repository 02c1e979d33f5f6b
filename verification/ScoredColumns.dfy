/** What the tables hold for a scored question in every reachable state, in terms of
    its rows alone (internal/service/scoring.go:71-192, migrations/001_init.sql). */
module ScoredColumns {
  import opened Wrappers
  import opened Scoring
  import opened ScoringLaws
  import opened Tables
  import opened Protocol
  import opened ProtocolInvariant
  import opened ProtocolRuns

  /** The answered rows that say the question is valid and give its reference answer. */
  function RightRows(db: Db, q: nat): set<nat>
    requires q in db.questions
  {
    set a | a in db.rows && db.rows[a].question == q && (db.rows[a].status == Replied || db.rows[a].status == Scored)
            && db.rows[a].reply == Reply(Some(true), Some(db.questions[q].answer))
  }

  predicate AllRowsCallInvalid(db: Db, q: nat)
  {
    forall a :: a in db.rows && db.rows[a].question == q ==>
                  (db.rows[a].status == Replied || db.rows[a].status == Scored ==>
                     db.rows[a].reply.valid == Some(false))
  }

  lemma RightRowsLaw(p: Params, db: Db, now: int, q: nat)
    requires DbInv(p, db, now) && q in db.questions
    ensures RightRows(db, q) == Right(db.questions[q].answer, RepliesOf(db.rows, q))
    ensures AllRowsCallInvalid(db, q) <==> AllCallInvalid(RepliesOf(db.rows, q))
  {
    var reference, replies := db.questions[q].answer, RepliesOf(db.rows, q);
    forall a | a in replies ensures Says(replies[a], reference) <==> replies[a].answer == Some(reference) {
      assert RowFine(p, db, now, a);
    }
    if AllRowsCallInvalid(db, q) {
      forall a | a in replies ensures replies[a].valid == Some(false) {}
    }
    if AllCallInvalid(replies) {
      forall a | a in db.rows && db.rows[a].question == q && IsAnswered(db.rows[a])
        ensures db.rows[a].reply.valid == Some(false)
      {
        assert a in replies;
      }
    }
  }

  /** `units` is `num / den` in ten-thousandths, rounded to the nearest, ties upwards. */
  predicate IsNearest(units: nat, num: nat, den: nat)
  {
    2 * den * units <= 20000 * num + den < 2 * den * (units + 1)
  }

  lemma StoredRounds(num: nat, den: nat)
    requires den > 0
    ensures IsNearest(Stored(Fraction(num, den)), num, den)
  {
    StoredRoundsHalfUp(Fraction(num, den));
  }

  lemma ScoredFacts(p: Params, s: State, q: nat)
    requires Reachable(p, s) && IsScored(s.db, q)
    ensures var replies := RepliesOf(s.db.rows, q);
      && |replies| == p.required
      && RightRows(s.db, q) == Right(s.db.questions[q].answer, replies)
      && (AllRowsCallInvalid(s.db, q) <==> AllCallInvalid(replies))
      && ProtocolInvariant.Carries(s.db.questions[q], s.db.rows, q, Judge(s.db.questions[q].answer, replies))
  {
    ReachableInv(p, s);
    RightRowsLaw(p, s.db, s.now, q);
    var replies := RepliesOf(s.db.rows, q);
    assert QuestionFine(p, s.db.questions[q], s.db.rows, q);
    assert replies.Keys == AnsweredRows(s.db.rows, q) && |replies| == |replies.Keys|;
  }

  /** The columns of a scored question by the number of its right rows; its pass rate is
      their part of the required number. */
  lemma QuestionColumnsLaw(p: Params, s: State, q: nat)
    requires Reachable(p, s) && IsScored(s.db, q)
    ensures var x, k := s.db.questions[q], |RightRows(s.db, q)|;
      && (k == 1 ==> x.score == 5 && x.share == 10000)
      && (k == 2 ==> x.score == 5 && x.share == 9000)
      && (k == 3 ==> x.score == 4 && x.share == 7000)
      && (k == 4 ==> x.score == 3 && x.share == 5000)
      && (k >= 5 ==> x.score == 2 && x.share == 1000)
      && (k == 0 && AllRowsCallInvalid(s.db, q) ==> x.score == 0 && x.share == 0)
      && (k == 0 && !AllRowsCallInvalid(s.db, q) ==> x.score == 1 && x.share == 1000)
      && IsNearest(x.passRate, k, p.required)
  {
    ScoredFacts(p, s, q);
    var replies := RepliesOf(s.db.rows, q);
    assert replies != map[];
    QuestionColumns(s.db.questions[q].answer, replies);
    StoredRounds(|RightRows(s.db, q)|, p.required);
  }

  lemma ScoredRowFacts(p: Params, s: State, a: nat)
    requires Reachable(p, s) && a in s.db.rows && s.db.rows[a].status == Scored
    ensures var row, q := s.db.rows[a], s.db.rows[a].question;
      && IsScored(s.db, q) && Accepted(row.reply)
      && var o := Judge(s.db.questions[q].answer, RepliesOf(s.db.rows, q));
      && a in RepliesOf(s.db.rows, q) && RepliesOf(s.db.rows, q)[a] == row.reply
      && a in o.marks && row.score == o.marks[a].score && row.share == Stored(o.marks[a].share)
  {
    ReachableInv(p, s);
    assert RowFine(p, s.db, s.now, a);
    ScoredFacts(p, s, s.db.rows[a].question);
  }

  /** The columns of a scored row: beside right rows, 5 and an equal part for them, 3 for
      other answers, 2 for calling the question invalid; when everybody calls it
      invalid, 5 and an equal part. */
  lemma RowColumnsLaw(p: Params, s: State, a: nat)
    requires Reachable(p, s) && a in s.db.rows && s.db.rows[a].status == Scored
    ensures IsScored(s.db, s.db.rows[a].question)
    ensures var row, q := s.db.rows[a], s.db.rows[a].question;
      var k := |RightRows(s.db, q)|;
      && (a in RightRows(s.db, q) ==> row.score == 5 && IsNearest(row.share, 1, k))
      && (k > 0 && a !in RightRows(s.db, q) && row.reply.valid == Some(true) ==> row.score == 3 && row.share == 0)
      && (k > 0 && row.reply.valid == Some(false) ==> row.score == 2 && row.share == 0)
      && (k == 0 && AllRowsCallInvalid(s.db, q) ==> row.score == 5 && IsNearest(row.share, 1, p.required))
  {
    ScoredRowFacts(p, s, a);
    var row, q := s.db.rows[a], s.db.rows[a].question;
    ScoredFacts(p, s, q);
    var reference, replies := s.db.questions[q].answer, RepliesOf(s.db.rows, q);
    if RightRows(s.db, q) != {} {
      MarksBesideCorrect(reference, replies, a);
      StoredRounds(1, |RightRows(s.db, q)|);
    } else if AllRowsCallInvalid(s.db, q) {
      MarksOfInvalid(reference, replies, a);
      StoredRounds(1, p.required);
    }
  }

  /** With no right row and not everybody objecting, the largest camps get 5 and an
      equal part, the others 2. */
  lemma CampColumnsLaw(p: Params, s: State, a: nat)
    requires Reachable(p, s) && a in s.db.rows && s.db.rows[a].status == Scored
    requires s.db.rows[a].question in s.db.questions && RightRows(s.db, s.db.rows[a].question) == {}
    requires !AllRowsCallInvalid(s.db, s.db.rows[a].question)
    ensures var row, replies := s.db.rows[a], RepliesOf(s.db.rows, s.db.rows[a].question);
      var camp := set w | w in replies && InLargestCamp(replies, w);
      if a in camp then row.score == 5 && IsNearest(row.share, 1, |camp|) else row.score == 2 && row.share == 0
  {
    ScoredRowFacts(p, s, a);
    var q := s.db.rows[a].question;
    ScoredFacts(p, s, q);
    var replies := RepliesOf(s.db.rows, q);
    var camp := set w | w in replies && InLargestCamp(replies, w);
    MarksOfCamps(s.db.questions[q].answer, replies, a);
    if a in camp { StoredRounds(1, |camp|); }
  }
}
