/** What a settlement computes, said about the rows of its window and with the
    numbers of the source written out (internal/service/settlement.go:111-215). */
module RewardLaws {
  import opened Wrappers
  import opened Sums
  import opened Tables
  import opened Payouts
  import opened Settlement
  import opened Ledger
  import opened Restart

  /// ## Pools and portions

  /** The pool is split evenly between the questions, rounding down. */
  lemma BaseRewardLaw(total: nat, questions: nat)
    requires questions > 0
    ensures var base := PerQuestion(total, questions); questions * base <= total < questions * (base + 1)
  {
    Divides(total, questions);
  }

  lemma Divides(x: nat, n: nat)
    requires n > 0
    ensures n * (x / n) <= x < n * (x / n + 1)
  {
    assert x == n * (x / n) + x % n;
    assert n * (x / n + 1) == n * (x / n) + n;
  }

  /** A third for the question, rounded down, and the rest for its answers. */
  lemma PoolLaw(base: nat)
    ensures 3 * AskPool(base) <= base < 3 * AskPool(base) + 3
    ensures AskPool(base) + AnswerPool(base) == base
  {
  }

  /** The share is in ten-thousandths of the pool, rounded down. */
  lemma PortionLaw(pool: nat, share: nat)
    ensures 10000 * Portion(pool, share) <= pool * share < 10000 * (Portion(pool, share) + 1)
  {
  }

  /// ## One worker's rows

  function AsksOf(inp: Inputs, w: Address): set<nat>
  {
    set q | q in inp.questions && inp.questions[q].questioner == w
  }

  function ScoredOf(inp: Inputs, w: Address): set<nat>
  {
    set a | a in inp.answers && inp.answers[a].worker == w && inp.answers[a].status == Scored
  }

  function LateOf(inp: Inputs, w: Address): set<nat>
  {
    set a | a in inp.answers && inp.answers[a].worker == w && inp.answers[a].status == TimedOut
  }

  function AskScoresOf(inp: Inputs, w: Address): map<nat, int>
  {
    map q | q in inp.questions && inp.questions[q].questioner == w :: inp.questions[q].score
  }

  function AnswerScoresOf(inp: Inputs, w: Address): map<nat, int>
  {
    map a | a in inp.answers && inp.answers[a].worker == w :: inp.answers[a].score
  }

  function AskEarningsOf(inp: Inputs, base: nat, w: Address): map<nat, int>
  {
    map q | q in inp.questions && inp.questions[q].questioner == w :: base / 3 * inp.questions[q].share / 10000
  }

  function AnswerEarningsOf(inp: Inputs, base: nat, w: Address): map<nat, int>
  {
    map a | a in inp.answers && inp.answers[a].worker == w :: (base - base / 3) * inp.answers[a].share / 10000
  }

  /** The record counts the worker's own rows and sums their scores. */
  lemma RecordLaw(inp: Inputs, base: nat, w: Address)
    ensures var s := StatsOf(inp, base, w);
      && s.scoredAsks == |AsksOf(inp, w)|
      && s.scoredAnswers == |ScoredOf(inp, w)|
      && s.timedOutAnswers == |LateOf(inp, w)|
      && s.askScoreSum == Total(AskScoresOf(inp, w))
      && s.answerScoreSum == Total(AnswerScoresOf(inp, w))
  {
    assert Part(AskScores(inp), Questioners(inp), w) == AskScoresOf(inp, w);
    assert Part(AnswerScores(inp), Answerers(inp), w) == AnswerScoresOf(inp, w);
  }

  /** A third of the base reward times the share for each question asked, the rest
      times the share for each answer, every one rounded down. */
  lemma RawLaw(inp: Inputs, base: nat, w: Address)
    ensures StatsOf(inp, base, w).rawReward
         == Total(AskEarningsOf(inp, base, w)) + Total(AnswerEarningsOf(inp, base, w))
  {
    AskEarnings(inp, base, w);
    AnswerEarnings(inp, base, w);
  }

  lemma AskEarnings(inp: Inputs, base: nat, w: Address)
    ensures Part(AskRewards(inp, base), Questioners(inp), w) == AskEarningsOf(inp, base, w)
  {
  }

  lemma AnswerEarnings(inp: Inputs, base: nat, w: Address)
    ensures Part(AnswerRewards(inp, base), Answerers(inp), w) == AnswerEarningsOf(inp, base, w)
  {
  }

  /// ## The composite score

  lemma DivideBack(sum: int, count: nat)
    requires count > 0
    ensures count as real * Average(sum, count) == sum as real
  {
  }

  /** A tenth of the average over the one kind of task there is, or of the two
      averages together, and nothing without a task. */
  predicate IsComposite(c: real, asks: nat, answers: nat, askSum: int, answerSum: int)
  {
    && (asks > 0 && answers == 0 ==> 10.0 * (asks as real * c) == askSum as real)
    && (asks == 0 && answers > 0 ==> 10.0 * (answers as real * c) == answerSum as real)
    && (asks > 0 && answers > 0 ==>
          10.0 * (asks as real * (answers as real * c))
          == answers as real * askSum as real + asks as real * answerSum as real)
    && (asks == 0 && answers == 0 ==> c == 0.0)
  }

  /** The score of any record. */
  lemma CompositeLaw(s: Stats, asks: nat, answers: nat, askSum: int, answerSum: int)
    requires asks == s.scoredAsks && answers == s.scoredAnswers + s.timedOutAnswers
    requires askSum == s.askScoreSum && answerSum == s.answerScoreSum
    ensures IsComposite(Composite(s), asks, answers, askSum, answerSum)
  {
    if asks > 0 { DivideBack(askSum, asks); }
    if answers > 0 { DivideBack(answerSum, answers); }
    if asks > 0 && answers > 0 {
      BothSides(asks as real, answers as real, Average(askSum, asks), Average(answerSum, answers), Composite(s));
    }
  }

  lemma BothSides(asks: real, answers: real, askAvg: real, answerAvg: real, c: real)
    requires c == (askAvg + answerAvg) / 10.0
    ensures 10.0 * (asks * (answers * c)) == answers * (asks * askAvg) + asks * (answers * answerAvg)
  {
    assert 10.0 * c == askAvg + answerAvg;
    calc {
      10.0 * (asks * (answers * c));
      asks * (answers * (10.0 * c));
      asks * (answers * (askAvg + answerAvg));
      answers * (asks * askAvg) + asks * (answers * answerAvg);
    }
  }

  /** The law over the rows of a window, timed-out answers in the count. */
  lemma WorkerComposite(inp: Inputs, base: nat, w: Address)
    ensures IsComposite(Composite(StatsOf(inp, base, w)), |AsksOf(inp, w)|, |ScoredOf(inp, w)| + |LateOf(inp, w)|,
                        Total(AskScoresOf(inp, w)), Total(AnswerScoresOf(inp, w)))
  {
    RecordLaw(inp, base, w);
    CompositeLaw(StatsOf(inp, base, w), |AsksOf(inp, w)|, |ScoredOf(inp, w)| + |LateOf(inp, w)|,
                 Total(AskScoresOf(inp, w)), Total(AnswerScoresOf(inp, w)));
  }

  lemma OneKindIsHalf(s: Stats)
    requires s.scoredAsks == 0 || s.scoredAnswers + s.timedOutAnswers == 0
    requires 0 <= s.askScoreSum <= s.scoredAsks * 5
    requires 0 <= s.answerScoreSum <= (s.scoredAnswers + s.timedOutAnswers) * 5
    ensures 0.0 <= Composite(s) <= 0.5
  {
    AverageWithinFive(s.askScoreSum, s.scoredAsks);
    AverageWithinFive(s.answerScoreSum, s.scoredAnswers + s.timedOutAnswers);
  }

  /** Doing only one of the two earns at most one half. */
  lemma OneSidedIsHalf(inp: Inputs, base: nat, w: Address)
    requires ScoresInRange(inp) && Linked(inp)
    requires |AsksOf(inp, w)| == 0 || |ScoredOf(inp, w)| + |LateOf(inp, w)| == 0
    ensures 0.0 <= Composite(StatsOf(inp, base, w)) <= 0.5
  {
    RecordLaw(inp, base, w);
    AskSumInRange(inp, w);
    AnswerSumInRange(inp, w);
    OneKindIsHalf(StatsOf(inp, base, w));
  }

  /// ## The final reward

  /** The raw reward times the composite score, rounded down, for a worker with
      enough scored tasks, and nothing for the others. */
  lemma FinalLaw(cfg: Config, s: Stats)
    ensures var f, exact := Final(cfg, s), s.rawReward as real * Composite(s);
      && (s.scoredAsks + s.scoredAnswers >= cfg.minTasks ==> f as real <= exact < f as real + 1.0)
      && (s.scoredAsks + s.scoredAnswers < cfg.minTasks ==> f == 0)
  {
  }

  /** Stored with four decimals, rounded to the nearest. */
  lemma StoredCompositeLaw(c: real)
    ensures var units := StoredComposite(c) as real; units - 0.5 <= 10000.0 * c < units + 0.5
  {
  }

  /// ## Benchmarks

  /** Who called the question invalid. */
  function Objectors(inp: Inputs, q: nat): set<nat>
  {
    set a | a in inp.answers && inp.answers[a].question == q && inp.answers[a].status == Scored
            && inp.answers[a].reply.valid == Some(false)
  }

  /** Exactly the questions with a score of 4 or 5, at most one objection and a
      questioner with a sufficient composite score are marked. */
  lemma BenchmarkLaw(cfg: Config, inp: Inputs, q: nat)
    requires ScoresInRange(inp)
    ensures q in DayMarks(cfg, inp) <==>
      && q in inp.questions
      && (inp.questions[q].score == 4 || inp.questions[q].score == 5)
      && |Objectors(inp, q)| < 2
      && Composite(StatsOf(inp, BaseReward(cfg, inp), inp.questions[q].questioner)) >= cfg.benchmarkMinScore
  {
    QuestionersAreWorkers(inp);
    assert Objectors(inp, q) == InvalidReports(inp, q);
  }
}
