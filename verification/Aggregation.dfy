/** The loops of Settle that index the answers and build the per-worker records
    in a map (internal/service/settlement.go:94-143). */
module Aggregation {
  import opened Sums
  import opened Tables
  import opened Payouts
  import opened Settlement

  /// ## Query results as lists of (id, row)

  /** Every entry of `m`, once, in some order. */
  ghost predicate Enumerates<K(!new), V(!new)>(list: seq<(K, V)>, m: map<K, V>)
  {
    && (forall i, j :: 0 <= i < j < |list| ==> list[i].0 != list[j].0)
    && (forall i :: 0 <= i < |list| ==> list[i].0 in m && m[list[i].0] == list[i].1)
    && (forall k :: k in m ==> exists i :: 0 <= i < |list| && list[i].0 == k)
  }

  function MapOf<K(==), V>(list: seq<(K, V)>): map<K, V>
  {
    if list == [] then map[]
    else MapOf(list[..|list| - 1])[list[|list| - 1].0 := list[|list| - 1].1]
  }

  lemma {:induction false} MapOfKeys<K(!new), V>(list: seq<(K, V)>)
    ensures forall k :: k in MapOf(list) <==> exists i :: 0 <= i < |list| && list[i].0 == k
    decreases |list|
  {
    if list != [] {
      var front := list[..|list| - 1];
      MapOfKeys(front);
      forall k ensures k in MapOf(list) <==> exists i :: 0 <= i < |list| && list[i].0 == k {
        if i :| 0 <= i < |list| && list[i].0 == k {
          if i < |front| { assert front[i].0 == k; }
        }
        if k in MapOf(front) {
          var i :| 0 <= i < |front| && front[i].0 == k;
          assert list[i].0 == k;
        }
      }
    }
  }

  lemma {:induction false} EnumeratesMapOf<K(!new), V(!new)>(list: seq<(K, V)>)
    requires forall i, j :: 0 <= i < j < |list| ==> list[i].0 != list[j].0
    ensures Enumerates(list, MapOf(list))
    decreases |list|
  {
    MapOfKeys(list);
    if list != [] {
      var front := list[..|list| - 1];
      EnumeratesMapOf(front);
      forall i | 0 <= i < |list| ensures list[i].0 in MapOf(list) && MapOf(list)[list[i].0] == list[i].1 {
        if i < |front| { assert front[i] == list[i]; }
      }
    }
  }

  /** A list determines the map it enumerates. */
  lemma EnumeratesUnique<K(!new), V(!new)>(list: seq<(K, V)>, m: map<K, V>, n: map<K, V>)
    requires Enumerates(list, m) && Enumerates(list, n)
    ensures m == n
  {
    forall k ensures k in m <==> k in n {
      if k in m {
        var i :| 0 <= i < |list| && list[i].0 == k;
      }
      if k in n {
        var i :| 0 <= i < |list| && list[i].0 == k;
      }
    }
    forall k | k in m ensures m[k] == n[k] {
      var i :| 0 <= i < |list| && list[i].0 == k;
    }
  }

  lemma WholeList<K(!new), V(!new)>(list: seq<(K, V)>, m: map<K, V>)
    requires Enumerates(list, m)
    ensures MapOf(list) == m
  {
    EnumeratesMapOf(list);
    EnumeratesUnique(list, MapOf(list), m);
  }

  /** The next entry is not among the earlier ones. */
  lemma NextIsNew<K(!new), V(!new)>(list: seq<(K, V)>, m: map<K, V>, i: nat)
    requires Enumerates(list, m) && i < |list|
    ensures list[i].0 !in MapOf(list[..i]) && list[i].0 in m && m[list[i].0] == list[i].1
    ensures MapOf(list[..i + 1]) == MapOf(list[..i])[list[i].0 := list[i].1]
  {
    MapOfKeys(list[..i]);
    assert list[..i + 1][..i] == list[..i];
  }

  lemma EnumeratesAppend<K(!new), V(!new)>(list: seq<(K, V)>, m: map<K, V>, a: K, row: V)
    requires Enumerates(list, m) && a !in m
    ensures Enumerates(list + [(a, row)], m[a := row])
  {
    var more, m' := list + [(a, row)], m[a := row];
    forall k | k in m' ensures exists i :: 0 <= i < |more| && more[i].0 == k {
      if k == a {
        assert more[|list|].0 == a;
      } else {
        var i :| 0 <= i < |list| && list[i].0 == k;
        assert more[i].0 == k;
      }
    }
  }

  /// ## Answers by question

  function AnswersTo(answers: map<nat, Assignment>, q: nat): map<nat, Assignment>
  {
    map a | a in answers && answers[a].question == q :: answers[a]
  }

  function Listed(aByQ: map<nat, seq<(nat, Assignment)>>, q: nat): seq<(nat, Assignment)>
  {
    if q in aByQ then aByQ[q] else []
  }

  ghost predicate Indexes(aByQ: map<nat, seq<(nat, Assignment)>>, answers: map<nat, Assignment>)
  {
    forall q: nat :: IndexesOne(aByQ, answers, q)
  }

  ghost predicate IndexesOne(aByQ: map<nat, seq<(nat, Assignment)>>, answers: map<nat, Assignment>, q: nat)
  {
    Enumerates(Listed(aByQ, q), AnswersTo(answers, q))
  }

  lemma AnswersToAppend(answers: map<nat, Assignment>, a: nat, row: Assignment, q: nat)
    requires a !in answers
    ensures AnswersTo(answers[a := row], q)
         == if q == row.question then AnswersTo(answers, q)[a := row] else AnswersTo(answers, q)
    ensures a !in AnswersTo(answers, q)
  {
  }

  lemma IndexesAppend(aByQ: map<nat, seq<(nat, Assignment)>>, answers: map<nat, Assignment>, a: nat, row: Assignment)
    requires Indexes(aByQ, answers) && a !in answers
    ensures Indexes(aByQ[row.question := Listed(aByQ, row.question) + [(a, row)]], answers[a := row])
  {
    var more, answers' := aByQ[row.question := Listed(aByQ, row.question) + [(a, row)]], answers[a := row];
    forall q: nat ensures IndexesOne(more, answers', q) {
      assert IndexesOne(aByQ, answers, q);
      AnswersToAppend(answers, a, row, q);
      if q == row.question {
        EnumeratesAppend(Listed(aByQ, q), AnswersTo(answers, q), a, row);
        assert Listed(more, q) == Listed(aByQ, q) + [(a, row)];
      } else {
        assert Listed(more, q) == Listed(aByQ, q);
      }
    }
  }

  method IndexAnswers(assignments: seq<(nat, Assignment)>, ghost answers: map<nat, Assignment>)
    returns (aByQ: map<nat, seq<(nat, Assignment)>>)
    requires Enumerates(assignments, answers)
    ensures Indexes(aByQ, answers)
  {
    aByQ := map[];
    for i := 0 to |assignments|
      invariant Indexes(aByQ, MapOf(assignments[..i]))
    {
      NextIsNew(assignments, answers, i);
      var a, row := assignments[i].0, assignments[i].1;
      IndexesAppend(aByQ, MapOf(assignments[..i]), a, row);
      aByQ := aByQ[row.question := (if row.question in aByQ then aByQ[row.question] else []) + [(a, row)]];
    }
    WholeList(assignments, answers);
    assert assignments[..|assignments|] == assignments;
  }

  /// ## One more question, one more answer

  function WithQuestion(inp: Inputs, q: nat, question: Question): Inputs
  {
    inp.(questions := inp.questions[q := question])
  }

  function WithAnswer(inp: Inputs, a: nat, row: Assignment): Inputs
  {
    inp.(answers := inp.answers[a := row])
  }

  /** A group gains the new key, or is unchanged. */
  lemma PartInsert(m: map<nat, int>, group: map<nat, Address>, m': map<nat, int>, group': map<nat, Address>,
                   k: nat, v: int, g: Address, w: Address)
    requires m.Keys == group.Keys && k !in m && m' == m[k := v] && group' == group[k := g]
    ensures Total(Part(m', group', w)) == Total(Part(m, group, w)) + (if w == g then v else 0)
  {
    if w == g {
      assert Part(m', group', w) == Part(m, group, w)[k := v];
      TotalInsert(Part(m, group, w), k, v);
    } else {
      assert Part(m', group', w) == Part(m, group, w);
    }
  }

  function AddAsk(s: Stats, base: nat, question: Question): Stats
  {
    s.(scoredAsks := s.scoredAsks + 1, askScoreSum := s.askScoreSum + question.score,
       rawReward := s.rawReward + Portion(AskPool(base), question.share))
  }

  function AddAnswer(s: Stats, base: nat, row: Assignment): Stats
  {
    s.(scoredAnswers := s.scoredAnswers + (if row.status == Scored then 1 else 0),
       timedOutAnswers := s.timedOutAnswers + (if row.status == TimedOut then 1 else 0),
       answerScoreSum := s.answerScoreSum + row.score,
       rawReward := s.rawReward + Portion(AnswerPool(base), row.share))
  }

  lemma AskSums(inp: Inputs, base: nat, q: nat, question: Question, w: Address)
    requires q !in inp.questions
    ensures var inp' := WithQuestion(inp, q, question);
      && Total(Part(AskScores(inp'), Questioners(inp'), w))
         == Total(Part(AskScores(inp), Questioners(inp), w)) + (if w == question.questioner then question.score else 0)
      && Total(Part(AskRewards(inp', base), Questioners(inp'), w))
         == Total(Part(AskRewards(inp, base), Questioners(inp), w))
            + (if w == question.questioner then Portion(AskPool(base), question.share) else 0)
  {
    var inp' := WithQuestion(inp, q, question);
    var score: int, reward: int := question.score, Portion(AskPool(base), question.share);
    assert Questioners(inp') == Questioners(inp)[q := question.questioner];
    assert AskScores(inp') == AskScores(inp)[q := score];
    assert AskRewards(inp', base) == AskRewards(inp, base)[q := reward];
    PartInsert(AskScores(inp), Questioners(inp), AskScores(inp'), Questioners(inp'), q, score, question.questioner, w);
    PartInsert(AskRewards(inp, base), Questioners(inp), AskRewards(inp', base), Questioners(inp'), q, reward,
               question.questioner, w);
  }

  lemma AskCounts(inp: Inputs, q: nat, question: Question, w: Address)
    requires q !in inp.questions
    ensures |Asked(WithQuestion(inp, q, question), w)| == |Asked(inp, w)| + (if w == question.questioner then 1 else 0)
  {
    assert Asked(WithQuestion(inp, q, question), w)
      == if w == question.questioner then Asked(inp, w) + {q} else Asked(inp, w);
  }

  /** A question leaves everything about answers alone, and the other way round. */
  lemma SidesAreSeparate(inp: Inputs, base: nat, k: nat, question: Question, row: Assignment, w: Address)
    ensures var more := WithQuestion(inp, k, question);
      && Answerers(more) == Answerers(inp) && AnswerScores(more) == AnswerScores(inp)
      && AnswerRewards(more, base) == AnswerRewards(inp, base)
      && Answered(more, w, Scored) == Answered(inp, w, Scored)
      && Answered(more, w, TimedOut) == Answered(inp, w, TimedOut)
    ensures var more := WithAnswer(inp, k, row);
      && Questioners(more) == Questioners(inp) && AskScores(more) == AskScores(inp)
      && AskRewards(more, base) == AskRewards(inp, base) && Asked(more, w) == Asked(inp, w)
  {
  }

  lemma QuestionAdds(inp: Inputs, base: nat, q: nat, question: Question, w: Address)
    requires q !in inp.questions
    ensures StatsOf(WithQuestion(inp, q, question), base, w)
         == if w == question.questioner then AddAsk(StatsOf(inp, base, w), base, question) else StatsOf(inp, base, w)
  {
    AskSums(inp, base, q, question, w);
    AskCounts(inp, q, question, w);
    SidesAreSeparate(inp, base, q, question, NewRow(0, w, 0), w);
  }

  lemma AnswerCounts(inp: Inputs, a: nat, row: Assignment, w: Address, status: Status)
    requires a !in inp.answers
    ensures |Answered(WithAnswer(inp, a, row), w, status)|
         == |Answered(inp, w, status)| + (if w == row.worker && row.status == status then 1 else 0)
  {
    var inp' := WithAnswer(inp, a, row);
    if w == row.worker && row.status == status {
      assert Answered(inp', w, status) == Answered(inp, w, status) + {a};
    } else {
      assert Answered(inp', w, status) == Answered(inp, w, status);
    }
  }

  lemma AnswerSums(inp: Inputs, base: nat, a: nat, row: Assignment, w: Address)
    requires a !in inp.answers
    ensures var inp' := WithAnswer(inp, a, row);
      && Total(Part(AnswerScores(inp'), Answerers(inp'), w))
         == Total(Part(AnswerScores(inp), Answerers(inp), w)) + (if w == row.worker then row.score else 0)
      && Total(Part(AnswerRewards(inp', base), Answerers(inp'), w))
         == Total(Part(AnswerRewards(inp, base), Answerers(inp), w))
            + (if w == row.worker then Portion(AnswerPool(base), row.share) else 0)
  {
    var inp' := WithAnswer(inp, a, row);
    var score: int, reward: int := row.score, Portion(AnswerPool(base), row.share);
    assert Answerers(inp') == Answerers(inp)[a := row.worker];
    assert AnswerScores(inp') == AnswerScores(inp)[a := score];
    assert AnswerRewards(inp', base) == AnswerRewards(inp, base)[a := reward];
    PartInsert(AnswerScores(inp), Answerers(inp), AnswerScores(inp'), Answerers(inp'), a, score, row.worker, w);
    PartInsert(AnswerRewards(inp, base), Answerers(inp), AnswerRewards(inp', base), Answerers(inp'), a, reward,
               row.worker, w);
  }

  lemma AnswerAdds(inp: Inputs, base: nat, a: nat, row: Assignment, w: Address)
    requires a !in inp.answers
    ensures StatsOf(WithAnswer(inp, a, row), base, w)
         == if w == row.worker then AddAnswer(StatsOf(inp, base, w), base, row) else StatsOf(inp, base, w)
  {
    AnswerSums(inp, base, a, row, w);
    AnswerCounts(inp, a, row, w, Scored);
    AnswerCounts(inp, a, row, w, TimedOut);
    SidesAreSeparate(inp, base, a, Question("", w, "", Submitted, 0, 0, 0, 0, false), row, w);
  }

  /** A worker that did nothing has an empty record. */
  lemma NothingDone(inp: Inputs, base: nat, w: Address)
    requires w !in Workers(inp)
    ensures StatsOf(inp, base, w) == NO_STATS
  {
    forall q | q in inp.questions ensures inp.questions[q].questioner != w {
      assert Questioners(inp)[q] in Questioners(inp).Values;
    }
    forall a | a in inp.answers ensures inp.answers[a].worker != w {
      assert Answerers(inp)[a] in Answerers(inp).Values;
    }
    assert Part(AskScores(inp), Questioners(inp), w) == map[] && Part(AnswerScores(inp), Answerers(inp), w) == map[];
    assert Part(AskRewards(inp, base), Questioners(inp), w) == map[];
    assert Part(AnswerRewards(inp, base), Answerers(inp), w) == map[];
    assert Asked(inp, w) == {} && Answered(inp, w, Scored) == {} && Answered(inp, w, TimedOut) == {};
  }

  /// ## The map of records

  /** ensureStats: a worker's record, created empty when it is missing. */
  function RecordOf(stats: map<Address, Stats>, w: Address): Stats
  {
    if w in stats then stats[w] else NO_STATS
  }

  function Asks(stats: map<Address, Stats>, base: nat, question: Question): map<Address, Stats>
  {
    stats[question.questioner := AddAsk(RecordOf(stats, question.questioner), base, question)]
  }

  function Answers(stats: map<Address, Stats>, base: nat, row: Assignment): map<Address, Stats>
  {
    stats[row.worker := AddAnswer(RecordOf(stats, row.worker), base, row)]
  }

  lemma ValuesInsert(m: map<nat, Address>, k: nat, w: Address)
    requires k !in m
    ensures m[k := w].Values == m.Values + {w}
  {
    forall v ensures v in m[k := w].Values <==> v in m.Values + {w} {
      if v in m.Values {
        var j :| j in m && m[j] == v;
        assert m[k := w][j] == v;
      }
      assert m[k := w][k] == w;
    }
  }

  lemma WorkersAddQuestion(inp: Inputs, q: nat, question: Question)
    requires q !in inp.questions
    ensures Workers(WithQuestion(inp, q, question)) == Workers(inp) + {question.questioner}
  {
    ValuesInsert(Questioners(inp), q, question.questioner);
    assert Questioners(WithQuestion(inp, q, question)) == Questioners(inp)[q := question.questioner];
    assert Answerers(WithQuestion(inp, q, question)) == Answerers(inp);
  }

  lemma WorkersAddAnswer(inp: Inputs, a: nat, row: Assignment)
    requires a !in inp.answers
    ensures Workers(WithAnswer(inp, a, row)) == Workers(inp) + {row.worker}
  {
    ValuesInsert(Answerers(inp), a, row.worker);
    assert Answerers(WithAnswer(inp, a, row)) == Answerers(inp)[a := row.worker];
    assert Questioners(WithAnswer(inp, a, row)) == Questioners(inp);
  }

  lemma RecordIsStats(inp: Inputs, base: nat, w: Address)
    ensures RecordOf(RecordsOf(inp, base), w) == StatsOf(inp, base, w)
  {
    if w !in Workers(inp) {
      NothingDone(inp, base, w);
    }
  }

  /** One worker's record is brought up to date, the others still are. */
  lemma RecordsStep(inp: Inputs, inp': Inputs, base: nat, worker: Address, record: Stats)
    requires Workers(inp') == Workers(inp) + {worker} && record == StatsOf(inp', base, worker)
    requires forall w :: w != worker ==> StatsOf(inp', base, w) == StatsOf(inp, base, w)
    ensures RecordsOf(inp', base) == RecordsOf(inp, base)[worker := record]
  {
    var now, more := RecordsOf(inp', base), RecordsOf(inp, base)[worker := record];
    assert now.Keys == more.Keys;
    forall w | w in now ensures now[w] == more[w] {
      if w != worker {
        assert StatsOf(inp', base, w) == StatsOf(inp, base, w);
      }
    }
  }

  lemma RecordsAddQuestion(inp: Inputs, base: nat, q: nat, question: Question)
    requires q !in inp.questions
    ensures RecordsOf(WithQuestion(inp, q, question), base) == Asks(RecordsOf(inp, base), base, question)
  {
    var worker := question.questioner;
    WorkersAddQuestion(inp, q, question);
    RecordIsStats(inp, base, worker);
    QuestionAdds(inp, base, q, question, worker);
    forall w | w != worker ensures StatsOf(WithQuestion(inp, q, question), base, w) == StatsOf(inp, base, w) {
      QuestionAdds(inp, base, q, question, w);
    }
    RecordsStep(inp, WithQuestion(inp, q, question), base, worker,
                AddAsk(RecordOf(RecordsOf(inp, base), worker), base, question));
  }

  lemma RecordsAddAnswer(inp: Inputs, base: nat, a: nat, row: Assignment)
    requires a !in inp.answers
    ensures RecordsOf(WithAnswer(inp, a, row), base) == Answers(RecordsOf(inp, base), base, row)
  {
    var worker := row.worker;
    WorkersAddAnswer(inp, a, row);
    RecordIsStats(inp, base, worker);
    AnswerAdds(inp, base, a, row, worker);
    forall w | w != worker ensures StatsOf(WithAnswer(inp, a, row), base, w) == StatsOf(inp, base, w) {
      AnswerAdds(inp, base, a, row, w);
    }
    RecordsStep(inp, WithAnswer(inp, a, row), base, worker,
                AddAnswer(RecordOf(RecordsOf(inp, base), worker), base, row));
  }

  /// ## The loop

  function AfterAnswers(stats: map<Address, Stats>, base: nat, list: seq<(nat, Assignment)>): map<Address, Stats>
  {
    if list == [] then stats
    else Answers(AfterAnswers(stats, base, list[..|list| - 1]), base, list[|list| - 1].1)
  }

  function AfterQuestions(base: nat, questions: seq<(nat, Question)>, aByQ: map<nat, seq<(nat, Assignment)>>):
    map<Address, Stats>
  {
    if questions == [] then map[]
    else
      var (q, question) := questions[|questions| - 1];
      AfterAnswers(Asks(AfterQuestions(base, questions[..|questions| - 1], aByQ), base, question),
                   base, Listed(aByQ, q))
  }

  /** A way to tell the records of any inputs that follows the two steps. */
  ghost predicate FollowsSteps(records: Inputs -> map<Address, Stats>, base: nat)
  {
    && records(Inputs(map[], map[])) == map[]
    && (forall inp: Inputs, q: nat, question: Question | q !in inp.questions ::
          records(WithQuestion(inp, q, question)) == Asks(records(inp), base, question))
    && (forall inp: Inputs, a: nat, row: Assignment | a !in inp.answers ::
          records(WithAnswer(inp, a, row)) == Answers(records(inp), base, row))
  }

  lemma OneAnswerFollows(records: Inputs -> map<Address, Stats>, base: nat, inp: Inputs, some: map<nat, Assignment>,
                         a: nat, row: Assignment)
    requires FollowsSteps(records, base) && a !in some && a !in inp.answers
    ensures records(Inputs(inp.questions, inp.answers + some[a := row]))
         == Answers(records(Inputs(inp.questions, inp.answers + some)), base, row)
  {
    var done := Inputs(inp.questions, inp.answers + some);
    assert inp.answers + some[a := row] == (inp.answers + some)[a := row];
    assert WithAnswer(done, a, row) == Inputs(inp.questions, inp.answers + some[a := row]);
  }

  lemma AfterAnswersStep(stats: map<Address, Stats>, base: nat, list: seq<(nat, Assignment)>, j: nat)
    requires j < |list|
    ensures AfterAnswers(stats, base, list[..j + 1]) == Answers(AfterAnswers(stats, base, list[..j]), base, list[j].1)
  {
    assert list[..j + 1][..j] == list[..j];
  }

  lemma {:induction false} AnswersFollow(records: Inputs -> map<Address, Stats>, base: nat, inp: Inputs,
                                         list: seq<(nat, Assignment)>, answers: map<nat, Assignment>, j: nat)
    requires FollowsSteps(records, base) && Enumerates(list, answers) && j <= |list|
    requires inp.answers.Keys !! answers.Keys
    ensures AfterAnswers(records(inp), base, list[..j])
         == records(Inputs(inp.questions, inp.answers + MapOf(list[..j])))
    decreases j
  {
    if j == 0 {
      assert inp.answers + MapOf(list[..0]) == inp.answers;
    } else {
      AnswersFollow(records, base, inp, list, answers, j - 1);
      NextIsNew(list, answers, j - 1);
      AfterAnswersStep(records(inp), base, list, j - 1);
      OneAnswerFollows(records, base, inp, MapOf(list[..j - 1]), list[j - 1].0, list[j - 1].1);
    }
  }

  /** The answers to the questions of `done`. */
  function AnswersAmong(answers: map<nat, Assignment>, done: map<nat, Question>): map<nat, Assignment>
  {
    map a | a in answers && answers[a].question in done :: answers[a]
  }

  lemma OneQuestionFollows(records: Inputs -> map<Address, Stats>, base: nat, done: map<nat, Question>,
                           q: nat, question: Question, list: seq<(nat, Assignment)>, answers: map<nat, Assignment>)
    requires FollowsSteps(records, base) && q !in done && Enumerates(list, AnswersTo(answers, q))
    ensures records(Inputs(done[q := question], AnswersAmong(answers, done[q := question])))
         == AfterAnswers(Asks(records(Inputs(done, AnswersAmong(answers, done))), base, question), base, list)
  {
    var inp := Inputs(done, AnswersAmong(answers, done));
    var inp' := WithQuestion(inp, q, question);
    assert records(inp') == Asks(records(inp), base, question);
    AnswersFollow(records, base, inp', list, AnswersTo(answers, q), |list|);
    assert list[..|list|] == list;
    WholeList(list, AnswersTo(answers, q));
    assert AnswersAmong(answers, done[q := question]) == AnswersAmong(answers, done) + AnswersTo(answers, q);
  }

  lemma AfterQuestionsStep(base: nat, questions: seq<(nat, Question)>, aByQ: map<nat, seq<(nat, Assignment)>>, i: nat)
    requires i < |questions|
    ensures AfterQuestions(base, questions[..i + 1], aByQ)
         == AfterAnswers(Asks(AfterQuestions(base, questions[..i], aByQ), base, questions[i].1), base,
                         Listed(aByQ, questions[i].0))
  {
    assert questions[..i + 1][..i] == questions[..i];
  }

  lemma {:induction false} QuestionsFollow(records: Inputs -> map<Address, Stats>, base: nat,
                                           questions: seq<(nat, Question)>,
                                           aByQ: map<nat, seq<(nat, Assignment)>>, full: Inputs, i: nat)
    requires FollowsSteps(records, base) && Enumerates(questions, full.questions) && Indexes(aByQ, full.answers)
    requires i <= |questions|
    ensures var done := MapOf(questions[..i]);
      AfterQuestions(base, questions[..i], aByQ) == records(Inputs(done, AnswersAmong(full.answers, done)))
    decreases i
  {
    if i == 0 {
      assert AnswersAmong(full.answers, map[]) == map[];
    } else {
      var (q, question) := questions[i - 1];
      QuestionsFollow(records, base, questions, aByQ, full, i - 1);
      NextIsNew(questions, full.questions, i - 1);
      AfterQuestionsStep(base, questions, aByQ, i - 1);
      assert IndexesOne(aByQ, full.answers, q);
      OneQuestionFollows(records, base, MapOf(questions[..i - 1]), q, question, Listed(aByQ, q), full.answers);
    }
  }

  lemma RecordsFollowSteps(base: nat)
    ensures FollowsSteps(inp => RecordsOf(inp, base), base)
  {
    assert Workers(Inputs(map[], map[])) == {};
    forall inp: Inputs, q: nat, question: Question | q !in inp.questions
      ensures RecordsOf(WithQuestion(inp, q, question), base) == Asks(RecordsOf(inp, base), base, question)
    {
      RecordsAddQuestion(inp, base, q, question);
    }
    forall inp: Inputs, a: nat, row: Assignment | a !in inp.answers
      ensures RecordsOf(WithAnswer(inp, a, row), base) == Answers(RecordsOf(inp, base), base, row)
    {
      RecordsAddAnswer(inp, base, a, row);
    }
  }

  /** The loop's result is every worker's record, whatever order the queries list
      the questions and answers in. */
  lemma LoopComputesRecords(base: nat, questions: seq<(nat, Question)>, aByQ: map<nat, seq<(nat, Assignment)>>,
                            full: Inputs)
    requires Enumerates(questions, full.questions) && Indexes(aByQ, full.answers) && Linked(full)
    ensures AfterQuestions(base, questions, aByQ) == RecordsOf(full, base)
  {
    RecordsFollowSteps(base);
    QuestionsFollow(inp => RecordsOf(inp, base), base, questions, aByQ, full, |questions|);
    assert questions[..|questions|] == questions;
    WholeList(questions, full.questions);
    assert AnswersAmong(full.answers, full.questions) == full.answers;
  }

  /** Visits the questions and their answers in list order, keeping the records in a map. */
  method Aggregate(questions: seq<(nat, Question)>, aByQ: map<nat, seq<(nat, Assignment)>>, base: nat)
    returns (stats: map<Address, Stats>)
    ensures stats == AfterQuestions(base, questions, aByQ)
  {
    stats := map[];
    for i := 0 to |questions|
      invariant stats == AfterQuestions(base, questions[..i], aByQ)
    {
      AfterQuestionsStep(base, questions, aByQ, i);
      var q, question := questions[i].0, questions[i].1;
      var s := if question.questioner in stats then stats[question.questioner] else NO_STATS;
      stats := stats[question.questioner := AddAsk(s, base, question)];
      ghost var before := stats;
      var list := if q in aByQ then aByQ[q] else [];
      for j := 0 to |list|
        invariant stats == AfterAnswers(before, base, list[..j])
      {
        AfterAnswersStep(before, base, list, j);
        var row := list[j].1;
        var r := if row.worker in stats then stats[row.worker] else NO_STATS;
        stats := stats[row.worker := AddAnswer(r, base, row)];
      }
      assert list[..|list|] == list;
    }
    assert questions[..|questions|] == questions;
  }
}
