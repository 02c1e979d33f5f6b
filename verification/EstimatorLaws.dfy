/** The running estimate said about the worker's rows of the day and with the numbers
    of the source written out (internal/store/public_queries.go:245-330). */
module EstimatorLaws {
  import opened Sums
  import opened Tables
  import opened Settlement
  import opened Estimator
  import opened RewardLaws

  /** The day's total at the rate so far, rounded down; the first minute counts as a
      whole one, and after a day the total stands. */
  lemma ExtrapolationLaw(total: nat, elapsed: real)
    ensures var e := EstimatedTotal(total, elapsed) as real;
      60.0 <= elapsed <= 86400.0 ==> e * elapsed <= 86400.0 * total as real < (e + 1.0) * elapsed
    ensures elapsed < 60.0 ==> EstimatedTotal(total, elapsed) == 1440 * total
    ensures elapsed > 86400.0 ==> EstimatedTotal(total, elapsed) == total
  {
    if elapsed < 60.0 {
      assert total as real / (60.0 / 86400.0) == 1440.0 * total as real;
    } else if elapsed <= 86400.0 {
      AtLeastTotal(total, elapsed / 86400.0);
      var fraction := elapsed / 86400.0;
      QuotientTimes(total as real, fraction, elapsed);
      Between(EstimatedTotal(total, elapsed) as real, total as real / fraction, elapsed, 86400.0 * total as real);
    } else {
      DivideMonotone(total as real, 1.0, elapsed / 86400.0);
    }
  }

  lemma Between(e: real, quotient: real, c: real, product: real)
    requires e <= quotient < e + 1.0 && c > 0.0 && product == quotient * c
    ensures e * c <= product < (e + 1.0) * c
  {
    var next := e + 1.0;
    assert next > quotient;
    assert next * c > quotient * c;
  }

  lemma QuotientTimes(x: real, fraction: real, elapsed: real)
    requires elapsed > 0.0 && fraction == elapsed / 86400.0
    ensures x / fraction * elapsed == 86400.0 * x
  {
    var quotient := x / fraction;
    assert quotient * fraction == x;
    assert elapsed == fraction * 86400.0;
    calc {
      quotient * elapsed;
      quotient * (fraction * 86400.0);
      quotient * fraction * 86400.0;
    }
  }

  lemma AtLeastTotal(total: nat, fraction: real)
    requires 0.0 < fraction <= 1.0
    ensures (total as real / fraction).Floor >= total
  {
    DivideMonotone(total as real, fraction, 1.0);
  }

  /// ## The worker's sums

  function AskSharesOf(inp: Inputs, w: Address): map<nat, int>
  {
    map q | q in inp.questions && inp.questions[q].questioner == w :: inp.questions[q].share
  }

  function ScoredSharesOf(inp: Inputs, w: Address): map<nat, int>
  {
    map a | a in inp.answers && inp.answers[a].worker == w && inp.answers[a].status == Scored :: inp.answers[a].share
  }

  /** The queries count and sum the worker's own rows; shares of scored ones only. */
  lemma SumsLaw(inp: Inputs, w: Address)
    ensures var sums := SumsOf(inp, w);
      && sums.total == |inp.questions|
      && sums.asked == |AsksOf(inp, w)| && sums.answered == |ScoredOf(inp, w)| && sums.timedOut == |LateOf(inp, w)|
      && sums.askScores == Total(AskScoresOf(inp, w)) && sums.answerScores == Total(AnswerScoresOf(inp, w))
      && sums.askUnits == Total(AskSharesOf(inp, w)) && sums.answerUnits == Total(ScoredSharesOf(inp, w))
  {
    RecordLaw(inp, 0, w);
    ShareSums(inp, w);
  }

  lemma ShareSums(inp: Inputs, w: Address)
    ensures Part(AskShares(inp), Questioners(inp), w) == AskSharesOf(inp, w)
    ensures Part(ScoredShares(inp), Answerers(inp), w) == ScoredSharesOf(inp, w)
  {
  }

  /// ## The estimate

  /** With `base` for the even split of the pool over the questions, a third of it times
      the summed ask shares and the rest times the summed answer shares, both rounded
      down. */
  lemma EstimatedRawLaw(totalReward: nat, questions: nat, sums: DaySums, base: nat)
    requires questions > 0 && sums.askUnits >= 0 && sums.answerUnits >= 0
    requires questions * base <= totalReward < questions * (base + 1)
    ensures EstimatedRaw(totalReward, questions, sums)
         == base / 3 * sums.askUnits / 10000 + (base - base / 3) * sums.answerUnits / 10000
  {
    BaseRewardLaw(totalReward, questions);
    OnlySplit(totalReward, questions, base, PerQuestion(totalReward, questions));
  }

  lemma OnlySplit(total: nat, questions: nat, a: nat, b: nat)
    requires questions > 0
    requires questions * a <= total < questions * (a + 1) && questions * b <= total < questions * (b + 1)
    ensures a == b
  {
    NotBelow(questions, a + 1, b);
    NotBelow(questions, b + 1, a);
  }

  lemma NotBelow(n: nat, a: nat, b: nat)
    ensures a <= b ==> n * a <= n * b
  {
  }

  /** The composite score is the settlement's, over the worker's rows so far; the
      estimated reward is its part of the raw one, rounded down, with enough tasks. */
  lemma TodayLaw(sums: DaySums, minTasks: int, raw: int, composite: real)
    requires composite == Composite(StatsFor(sums, raw))
    ensures IsComposite(composite, sums.asked, sums.answered + sums.timedOut, sums.askScores, sums.answerScores)
    ensures var estimated, exact := Scaled(sums, minTasks, raw, composite), raw as real * composite;
      && (sums.asked + sums.answered >= minTasks ==> estimated as real <= exact < estimated as real + 1.0)
      && (sums.asked + sums.answered < minTasks ==> estimated == 0)
  {
    CompositeLaw(StatsFor(sums, raw), sums.asked, sums.answered + sums.timedOut, sums.askScores, sums.answerScores);
  }
}
