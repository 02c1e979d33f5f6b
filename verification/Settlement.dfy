/** What one epoch settlement computes from the scored questions and answers of
    its window, independent of the order in which anything is visited
    (internal/service/settlement.go). Scores and shares are averaged as exact
    rationals. */
module Settlement {
  import opened Sums
  import opened Tables
  import opened Payouts

  /** A non-negative int64. */
  type Amount = n: nat | n < 0x8000_0000_0000_0000

  datatype Config = Config(totalReward: Amount, minTasks: int, benchmarkMinScore: real)

  /** The questions scored in the window, without their benchmark flag, and the
      scored or timed-out answers to them. */
  datatype Inputs = Inputs(questions: map<nat, Question>, answers: map<nat, Assignment>)

  predicate InWindow(question: Question, start: int, end: int)
  {
    question.status == QuestionScored && start <= question.scoredAt < end
  }

  predicate IsFinished(row: Assignment)
  {
    row.status == Scored || row.status == TimedOut
  }

  function Window(db: Db, start: int, end: int): Inputs
  {
    Inputs(map q | q in db.questions && InWindow(db.questions[q], start, end) :: db.questions[q].(benchmark := false),
           map a | a in db.rows && IsFinished(db.rows[a]) && db.rows[a].question in db.questions
                   && InWindow(db.questions[db.rows[a].question], start, end) :: db.rows[a])
  }

  /** Every answer is finished and belongs to a question of the window. */
  predicate Linked(inp: Inputs)
  {
    forall a :: a in inp.answers ==> inp.answers[a].question in inp.questions && IsFinished(inp.answers[a])
  }

  lemma WindowLinked(db: Db, start: int, end: int)
    ensures Linked(Window(db, start, end))
  {
  }

  /// ## Columns

  function Questioners(inp: Inputs): map<nat, Address> { map q | q in inp.questions :: inp.questions[q].questioner }

  function Answerers(inp: Inputs): map<nat, Address> { map a | a in inp.answers :: inp.answers[a].worker }

  function QuestionOf(inp: Inputs): map<nat, nat> { map a | a in inp.answers :: inp.answers[a].question }

  function AskScores(inp: Inputs): map<nat, int> { map q | q in inp.questions :: inp.questions[q].score }

  function AnswerScores(inp: Inputs): map<nat, int> { map a | a in inp.answers :: inp.answers[a].score }

  function AskRewards(inp: Inputs, base: nat): map<nat, int>
  {
    map q | q in inp.questions :: Portion(AskPool(base), inp.questions[q].share)
  }

  function AnswerRewards(inp: Inputs, base: nat): map<nat, int>
  {
    map a | a in inp.answers :: Portion(AnswerPool(base), inp.answers[a].share)
  }

  /// ## Per worker

  /** One worker's record, as minerStats holds it. */
  datatype Stats = Stats(scoredAsks: nat, scoredAnswers: nat, timedOutAnswers: nat,
                         askScoreSum: int, answerScoreSum: int, rawReward: int)

  const NO_STATS := Stats(0, 0, 0, 0, 0, 0)

  function Workers(inp: Inputs): set<Address>
  {
    Questioners(inp).Values + Answerers(inp).Values
  }

  function Asked(inp: Inputs, w: Address): set<nat>
  {
    set q | q in inp.questions && inp.questions[q].questioner == w
  }

  function Answered(inp: Inputs, w: Address, status: Status): set<nat>
  {
    set a | a in inp.answers && inp.answers[a].worker == w && inp.answers[a].status == status
  }

  ghost function StatsOf(inp: Inputs, base: nat, w: Address): Stats
  {
    Stats(|Asked(inp, w)|, |Answered(inp, w, Scored)|, |Answered(inp, w, TimedOut)|,
          Total(Part(AskScores(inp), Questioners(inp), w)),
          Total(Part(AnswerScores(inp), Answerers(inp), w)),
          Total(Part(AskRewards(inp, base), Questioners(inp), w))
          + Total(Part(AnswerRewards(inp, base), Answerers(inp), w)))
  }

  function Average(sum: int, count: nat): real
  {
    if count == 0 then 0.0 else sum as real / count as real
  }

  /** Asking and answering each contribute up to one half. */
  function Composite(s: Stats): real
  {
    var asks, answers := s.scoredAsks, s.scoredAnswers + s.timedOutAnswers;
    if asks > 0 && answers > 0 then (Average(s.askScoreSum, asks) + Average(s.answerScoreSum, answers)) / 10.0
    else if asks > 0 then Average(s.askScoreSum, asks) / 10.0
    else if answers > 0 then Average(s.answerScoreSum, answers) / 10.0
    else 0.0
  }

  function Final(cfg: Config, s: Stats): int
  {
    if s.scoredAsks + s.scoredAnswers >= cfg.minTasks then (s.rawReward as real * Composite(s)).Floor else 0
  }

  /// ## The epoch

  function PerQuestion(total: nat, questions: nat): nat
    requires questions > 0
  {
    total / questions
  }

  function BaseReward(cfg: Config, inp: Inputs): nat
    requires inp.questions != map[]
  {
    PerQuestion(cfg.totalReward, |inp.questions|)
  }

  /** The record of every worker. */
  ghost function RecordsOf(inp: Inputs, base: nat): map<Address, Stats>
  {
    map w | w in Workers(inp) :: StatsOf(inp, base, w)
  }

  ghost function AllStats(cfg: Config, inp: Inputs): map<Address, Stats>
    requires inp.questions != map[]
  {
    RecordsOf(inp, BaseReward(cfg, inp))
  }

  function Raws(stats: map<Address, Stats>): map<Address, int>
  {
    map w | w in stats :: stats[w].rawReward
  }

  function Finals(cfg: Config, stats: map<Address, Stats>): map<Address, int>
  {
    map w | w in stats :: Final(cfg, stats[w])
  }

  /** Workers with something to be paid. */
  function Payable(finals: map<Address, int>): map<Address, int>
  {
    map w | w in finals && finals[w] > 0 :: finals[w]
  }

  /** The amount each recipient receives over all workers that name it. */
  ghost function LeafAmounts(payable: map<Address, int>, recipient: map<Address, string>): map<string, int>
    requires payable.Keys <= recipient.Keys
  {
    ByGroup(payable, recipient, set w | w in payable :: recipient[w])
  }

  /// ## Conservation

  /** A question pays out at most the base reward. */
  ghost predicate WithinBase(inp: Inputs, base: nat)
  {
    forall q :: q in inp.questions ==>
      AskRewards(inp, base)[q] + Total(Part(AnswerRewards(inp, base), QuestionOf(inp), q)) <= base
  }

  predicate ScoresInRange(inp: Inputs)
  {
    && (forall q :: q in inp.questions ==> inp.questions[q].score <= 5)
    && (forall a :: a in inp.answers ==> inp.answers[a].score <= 5)
  }

  lemma MultiplyDivide(total: nat, n: nat)
    requires n > 0
    ensures n * (total / n) <= total
  {
  }

  /** Questions' payouts, answers grouped by question. */
  lemma PayoutsWithinTotal(inp: Inputs, base: nat)
    requires Linked(inp) && WithinBase(inp, base)
    ensures Total(AskRewards(inp, base)) + Total(AnswerRewards(inp, base)) <= |inp.questions| * base
  {
    var asks, answers := AskRewards(inp, base), AnswerRewards(inp, base);
    var perQuestion := ByGroup(answers, QuestionOf(inp), inp.questions.Keys);
    TotalPartition(answers, QuestionOf(inp), inp.questions.Keys);
    var both := map q | q in inp.questions :: asks[q] + perQuestion[q];
    TotalAdd(asks, perQuestion, both);
    TotalBounded(both, base);
    assert both.Keys == inp.questions.Keys;
    assert |both| == |both.Keys| && |inp.questions| == |inp.questions.Keys|;
  }

  /** The raw rewards of all workers are the rewards of all questions and answers. */
  lemma RawsPartition(cfg: Config, inp: Inputs)
    requires inp.questions != map[]
    ensures var base := BaseReward(cfg, inp);
      Total(Raws(AllStats(cfg, inp))) == Total(AskRewards(inp, base)) + Total(AnswerRewards(inp, base))
  {
    var base := BaseReward(cfg, inp);
    var workers := Workers(inp);
    TotalPartition(AskRewards(inp, base), Questioners(inp), workers);
    TotalPartition(AnswerRewards(inp, base), Answerers(inp), workers);
    TotalAdd(ByGroup(AskRewards(inp, base), Questioners(inp), workers),
             ByGroup(AnswerRewards(inp, base), Answerers(inp), workers), Raws(AllStats(cfg, inp)));
  }

  lemma RawsWithinTotal(cfg: Config, inp: Inputs)
    requires inp.questions != map[] && Linked(inp) && WithinBase(inp, BaseReward(cfg, inp))
    ensures Total(Raws(AllStats(cfg, inp))) <= cfg.totalReward
  {
    RawsPartition(cfg, inp);
    PayoutsWithinTotal(inp, BaseReward(cfg, inp));
    MultiplyDivide(cfg.totalReward, |inp.questions|);
  }

  lemma AverageWithinFive(sum: int, count: nat)
    requires 0 <= sum <= count * 5
    ensures 0.0 <= Average(sum, count) <= 5.0
  {
    if count > 0 {
      var c := count as real;
      assert sum as real <= c * 5.0;
      assert 0.0 <= sum as real;
      assert sum as real / c <= (c * 5.0) / c == 5.0;
    }
  }

  lemma ScaleDown(raw: int, c: real)
    requires raw >= 0 && 0.0 <= c <= 1.0
    ensures 0 <= (raw as real * c).Floor <= raw
  {
  }

  lemma AskSumInRange(inp: Inputs, w: Address)
    requires ScoresInRange(inp)
    ensures 0 <= Total(Part(AskScores(inp), Questioners(inp), w)) <= |Asked(inp, w)| * 5
  {
    var part := Part(AskScores(inp), Questioners(inp), w);
    assert part.Keys == Asked(inp, w);
    assert |part| == |part.Keys|;
    TotalBounded(part, 5);
    TotalNonNegative(part);
  }

  lemma AnswerSumInRange(inp: Inputs, w: Address)
    requires ScoresInRange(inp) && Linked(inp)
    ensures 0 <= Total(Part(AnswerScores(inp), Answerers(inp), w))
         <= (|Answered(inp, w, Scored)| + |Answered(inp, w, TimedOut)|) * 5
  {
    var part := Part(AnswerScores(inp), Answerers(inp), w);
    var scored, late := Answered(inp, w, Scored), Answered(inp, w, TimedOut);
    forall a ensures a in part <==> a in scored + late {
      if a in part { assert IsFinished(inp.answers[a]); }
    }
    assert part.Keys == scored + late && scored !! late;
    assert |part| == |part.Keys|;
    TotalBounded(part, 5);
    TotalNonNegative(part);
  }

  lemma RawNonNegative(inp: Inputs, base: nat, w: Address)
    ensures 0 <= StatsOf(inp, base, w).rawReward
  {
    TotalNonNegative(Part(AskRewards(inp, base), Questioners(inp), w));
    TotalNonNegative(Part(AnswerRewards(inp, base), Answerers(inp), w));
  }

  /** Scores of at most five keep the composite score within the unit interval. */
  lemma CompositeInRange(inp: Inputs, base: nat, w: Address)
    requires ScoresInRange(inp) && Linked(inp)
    ensures 0.0 <= Composite(StatsOf(inp, base, w)) <= 1.0
  {
    var s := StatsOf(inp, base, w);
    AskSumInRange(inp, w);
    AnswerSumInRange(inp, w);
    AverageWithinFive(s.askScoreSum, s.scoredAsks);
    AverageWithinFive(s.answerScoreSum, s.scoredAnswers + s.timedOutAnswers);
  }

  /** No worker is paid more than its raw reward. */
  lemma FinalWithinRaw(cfg: Config, inp: Inputs, base: nat, w: Address)
    requires ScoresInRange(inp) && Linked(inp)
    ensures 0 <= Final(cfg, StatsOf(inp, base, w)) <= StatsOf(inp, base, w).rawReward
  {
    RawNonNegative(inp, base, w);
    CompositeInRange(inp, base, w);
    FinalScales(cfg, StatsOf(inp, base, w));
  }

  lemma FinalScales(cfg: Config, s: Stats)
    requires s.rawReward >= 0 && 0.0 <= Composite(s) <= 1.0
    ensures 0 <= Final(cfg, s) <= s.rawReward
  {
    ScaleDown(s.rawReward, Composite(s));
  }

  lemma FinalsWithinRaws(cfg: Config, inp: Inputs)
    requires inp.questions != map[] && ScoresInRange(inp) && Linked(inp)
    ensures var stats := AllStats(cfg, inp); Total(Payable(Finals(cfg, stats))) <= Total(Raws(stats))
  {
    var stats := AllStats(cfg, inp);
    forall w | w in stats ensures 0 <= Finals(cfg, stats)[w] <= Raws(stats)[w] {
      FinalWithinRaw(cfg, inp, BaseReward(cfg, inp), w);
    }
    TotalMonotone(Payable(Finals(cfg, stats)), Raws(stats));
  }

  /** Aggregation by recipient loses nothing. */
  lemma LeavesCarryEverything(payable: map<Address, int>, recipient: map<Address, string>)
    requires payable.Keys <= recipient.Keys
    ensures Total(LeafAmounts(payable, recipient)) == Total(payable)
  {
    TotalPartition(payable, recipient, set w | w in payable :: recipient[w]);
  }

  /** Conservation over the epoch: what the leaves promise is what the workers are
      due, and that is at most what they earned raw, which is at most the pool. */
  lemma EpochConserves(cfg: Config, inp: Inputs, recipient: map<Address, string>)
    requires inp.questions != map[] && Linked(inp) && ScoresInRange(inp)
    requires WithinBase(inp, BaseReward(cfg, inp))
    requires Payable(Finals(cfg, AllStats(cfg, inp))).Keys <= recipient.Keys
    ensures var stats := AllStats(cfg, inp);
      var payable := Payable(Finals(cfg, stats));
      Total(LeafAmounts(payable, recipient)) == Total(payable) <= Total(Raws(stats)) <= cfg.totalReward
  {
    LeavesCarryEverything(Payable(Finals(cfg, AllStats(cfg, inp))), recipient);
    FinalsWithinRaws(cfg, inp);
    RawsWithinTotal(cfg, inp);
  }
}
