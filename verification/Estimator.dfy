/** The running estimate of a worker's reward for the current day
    (internal/store/public_queries.go:245-330) against the settlement that will
    decide it. */
module Estimator {
  import opened Sums
  import opened Tables
  import opened Payouts
  import opened Settlement

  /** What the three queries of the day return for one worker. */
  datatype DaySums = DaySums(asked: nat, askScores: int, askUnits: int, answered: nat, timedOut: nat,
                             answerScores: int, answerUnits: int, total: nat)

  datatype Today = Today(composite: real, rawReward: int, estimatedReward: int)

  function AskShares(inp: Inputs): map<nat, int> { map q | q in inp.questions :: inp.questions[q].share }

  /** Only scored answers are summed. */
  function ScoredShares(inp: Inputs): map<nat, int>
  {
    map a | a in inp.answers && inp.answers[a].status == Scored :: inp.answers[a].share
  }

  ghost function SumsOf(inp: Inputs, w: Address): DaySums
  {
    DaySums(|Asked(inp, w)|, Total(Part(AskScores(inp), Questioners(inp), w)),
            Total(Part(AskShares(inp), Questioners(inp), w)),
            |Answered(inp, w, Scored)|, |Answered(inp, w, TimedOut)|,
            Total(Part(AnswerScores(inp), Answerers(inp), w)),
            Total(Part(ScoredShares(inp), Answerers(inp), w)), |inp.questions|)
  }

  /// ## Extrapolating the number of questions

  /** The day's total if questions keep coming at the same rate; never below the
      number already scored. The first minute counts as a whole one. */
  function EstimatedTotal(total: nat, elapsed: real): int
  {
    var fraction := (if elapsed < 60.0 then 60.0 else elapsed) / 86400.0;
    var estimate := (total as real / fraction).Floor;
    if estimate < total then total else estimate
  }

  lemma DivideMonotone(x: real, a: real, b: real)
    requires x >= 0.0 && 0.0 < a <= b
    ensures x / b <= x / a
  {
    var p, q := x / a, x / b;
    assert p * a == x && q * b == x;
    if q > p {
      assert q * b >= q * a > p * a;
    }
  }

  /** As the day goes by without a new question the extrapolated total only falls,
      and at the end of the day it is the total itself. */
  lemma EstimatedTotalFalls(total: nat, earlier: real, later: real)
    requires earlier <= later
    ensures total <= EstimatedTotal(total, later) <= EstimatedTotal(total, earlier)
    ensures later >= 86400.0 ==> EstimatedTotal(total, later) == total
  {
    var a, b := (if earlier < 60.0 then 60.0 else earlier) / 86400.0, (if later < 60.0 then 60.0 else later) / 86400.0;
    DivideMonotone(total as real, a, b);
    if later >= 86400.0 {
      DivideMonotone(total as real, 1.0, b);
    }
  }

  /// ## The estimate

  function EstimatedRaw(totalReward: nat, questions: nat, sums: DaySums): int
    requires questions > 0 && sums.askUnits >= 0 && sums.answerUnits >= 0
  {
    var base := PerQuestion(totalReward, questions);
    Portion(AskPool(base), sums.askUnits) + Portion(AnswerPool(base), sums.answerUnits)
  }

  function Scaled(sums: DaySums, minTasks: int, raw: int, composite: real): int
  {
    if sums.asked + sums.answered >= minTasks then (raw as real * composite).Floor else 0
  }

  function StatsFor(sums: DaySums, raw: int): Stats
  {
    Stats(sums.asked, sums.answered, sums.timedOut, sums.askScores, sums.answerScores, raw)
  }

  method Extrapolate(total: nat, elapsed: real) returns (estimatedTotal: int)
    ensures estimatedTotal == EstimatedTotal(total, elapsed)
  {
    var seconds := elapsed;
    if seconds < 60.0 {
      seconds := 60.0;
    }
    var dayFraction := seconds / 86400.0;
    estimatedTotal := (total as real / dayFraction).Floor;
    if estimatedTotal < total {
      estimatedTotal := total;
    }
  }

  method CompositeToday(sums: DaySums, ghost raw: int) returns (composite: real)
    ensures composite == Composite(StatsFor(sums, raw))
  {
    var avgAsk := Average(sums.askScores, sums.asked);
    var avgAnswer := Average(sums.answerScores, sums.answered + sums.timedOut);
    var hasAsks, hasAnswers := sums.asked > 0, sums.answered + sums.timedOut > 0;
    composite := 0.0;
    if hasAsks && hasAnswers {
      composite := (avgAsk + avgAnswer) / 10.0;
    } else if hasAsks {
      composite := avgAsk / 10.0;
    } else if hasAnswers {
      composite := avgAnswer / 10.0;
    }
  }

  lemma RawDoesNotMatter(sums: DaySums, raw: int, other: int)
    ensures Composite(StatsFor(sums, raw)) == Composite(StatsFor(sums, other))
  {
  }

  /** Fills the result step by step from the query results. */
  method GetWorkerTodayStats(sums: DaySums, totalReward: nat, minTasks: int, elapsed: real) returns (st: Today)
    requires sums.askUnits >= 0 && sums.answerUnits >= 0
    ensures st.composite == Composite(StatsFor(sums, st.rawReward))
    ensures sums.total == 0 ==> st.rawReward == 0
    ensures sums.total > 0 ==>
      EstimatedTotal(sums.total, elapsed) > 0
      && st.rawReward == EstimatedRaw(totalReward, EstimatedTotal(sums.total, elapsed), sums)
    ensures st.estimatedReward == Scaled(sums, minTasks, st.rawReward, st.composite)
  {
    var composite := CompositeToday(sums, 0);
    var rawReward := 0;
    if sums.total > 0 {
      var estimatedTotal := Extrapolate(sums.total, elapsed);
      var baseReward := PerQuestion(totalReward, estimatedTotal);
      var askPool := AskPool(baseReward);
      var ansPool := baseReward - askPool;
      rawReward := Portion(askPool, sums.askUnits) + Portion(ansPool, sums.answerUnits);
    }
    RawDoesNotMatter(sums, 0, rawReward);
    var estimated := 0;
    if sums.asked + sums.answered >= minTasks {
      estimated := (rawReward as real * composite).Floor;
    }
    st := Today(composite, rawReward, estimated);
  }

  /// ## Against the settlement

  /** The settlement rounds every share down, the estimate rounds two sums. */
  lemma PortionAdds(pool: nat, u: nat, v: nat)
    ensures Portion(pool, u) + Portion(pool, v) <= Portion(pool, u + v) <= Portion(pool, u) + Portion(pool, v) + 1
  {
    assert pool * (u + v) == pool * u + pool * v;
    FloorAdds(pool * u, pool * v);
  }

  lemma FloorAdds(x: nat, y: nat)
    ensures x / 10000 + y / 10000 <= (x + y) / 10000 <= x / 10000 + y / 10000 + 1
  {
  }

  function Portions(pool: nat, units: map<nat, int>): map<nat, int>
    requires forall k :: k in units ==> 0 <= units[k]
  {
    map k | k in units :: Portion(pool, units[k])
  }

  lemma {:induction false} PortionOfSum(pool: nat, units: map<nat, int>)
    requires forall k :: k in units ==> 0 <= units[k]
    ensures Total(units) >= 0
    ensures Total(Portions(pool, units)) <= Portion(pool, Total(units))
      <= Total(Portions(pool, units)) + (if |units| == 0 then 0 else |units| - 1)
    decreases |units|
  {
    if units == map[] {
      assert Portions(pool, units) == map[];
      assert pool * 0 == 0;
    } else {
      var k :| k in units;
      var rest := units - {k};
      PortionOfSum(pool, rest);
      TotalSplit(units, k);
      TotalSplit(Portions(pool, units), k);
      assert Portions(pool, units) - {k} == Portions(pool, rest);
      KeysLessOne(units, k);
      PortionAdds(pool, units[k], Total(rest));
      if rest == map[] {
        assert Total(units) == units[k];
        assert Portions(pool, rest) == map[];
      }
    }
  }

  predicate LateEarnNothing(inp: Inputs)
  {
    forall a :: a in inp.answers && inp.answers[a].status == TimedOut ==> inp.answers[a].share == 0
  }

  function AtMostOneLess(n: nat): nat { if n == 0 then 0 else n - 1 }

  lemma AskEstimate(inp: Inputs, base: nat, w: Address)
    ensures var raw, est := Total(Part(AskRewards(inp, base), Questioners(inp), w)), SumsOf(inp, w).askUnits;
      0 <= est && raw <= Portion(AskPool(base), est) <= raw + AtMostOneLess(|Asked(inp, w)|)
  {
    var units := Part(AskShares(inp), Questioners(inp), w);
    PortionOfSum(AskPool(base), units);
    assert Portions(AskPool(base), units) == Part(AskRewards(inp, base), Questioners(inp), w);
    assert units.Keys == Asked(inp, w) && |units| == |units.Keys|;
  }

  /** Timed-out answers add nothing to the settlement. */
  lemma ScoredEarnEverything(inp: Inputs, base: nat, w: Address)
    requires Linked(inp) && LateEarnNothing(inp)
    ensures Total(Part(AnswerRewards(inp, base), Answerers(inp), w))
         == Total(Portions(AnswerPool(base), Part(ScoredShares(inp), Answerers(inp), w)))
  {
    var all := Part(AnswerRewards(inp, base), Answerers(inp), w);
    var scored := Portions(AnswerPool(base), Part(ScoredShares(inp), Answerers(inp), w));
    forall a | a in all ensures all[a] == if a in scored then scored[a] else 0 {
      assert IsFinished(inp.answers[a]);
      if inp.answers[a].status == TimedOut {
        assert Portion(AnswerPool(base), 0) == 0;
      }
    }
    TotalDominated(all, scored);
    TotalMonotone(scored, all);
  }

  lemma AnswerEstimate(inp: Inputs, base: nat, w: Address)
    requires Linked(inp) && LateEarnNothing(inp)
    ensures var raw, est := Total(Part(AnswerRewards(inp, base), Answerers(inp), w)), SumsOf(inp, w).answerUnits;
      0 <= est && raw <= Portion(AnswerPool(base), est) <= raw + AtMostOneLess(|Answered(inp, w, Scored)|)
  {
    var units := Part(ScoredShares(inp), Answerers(inp), w);
    PortionOfSum(AnswerPool(base), units);
    ScoredEarnEverything(inp, base, w);
    assert units.Keys == Answered(inp, w, Scored) && |units| == |units.Keys|;
  }

  /** With the settlement's own number of questions the estimated raw reward is at
      least the settled one and exceeds it by less than one unit per task, and the
      composite score is the settled one. */
  lemma EstimateBrackets(inp: Inputs, totalReward: nat, w: Address)
    requires inp.questions != map[] && Linked(inp) && LateEarnNothing(inp)
    ensures var sums := SumsOf(inp, w);
      var settled := StatsOf(inp, PerQuestion(totalReward, sums.total), w);
      && sums.askUnits >= 0 && sums.answerUnits >= 0
      && settled.rawReward <= EstimatedRaw(totalReward, sums.total, sums)
      && EstimatedRaw(totalReward, sums.total, sums)
         <= settled.rawReward + AtMostOneLess(settled.scoredAsks) + AtMostOneLess(settled.scoredAnswers)
      && Composite(StatsFor(sums, settled.rawReward)) == Composite(settled)
      && StatsFor(sums, settled.rawReward) == settled
  {
    var base := PerQuestion(totalReward, |inp.questions|);
    AskEstimate(inp, base, w);
    AnswerEstimate(inp, base, w);
  }

  /// ## More questions never raise the estimate

  lemma PortionMonotone(small: nat, large: nat, units: nat)
    requires small <= large
    ensures Portion(small, units) <= Portion(large, units)
  {
    Grow(units, small, large);
    assert small * units <= large * units;
  }

  lemma PerQuestionFalls(total: nat, few: nat, many: nat)
    requires 0 < few <= many
    ensures PerQuestion(total, many) <= PerQuestion(total, few)
  {
    var q := total / many;
    Grow(q, few, many);
    assert few * q <= many * q <= total;
    QuotientBound(total, few, q);
  }

  lemma QuotientBound(x: nat, n: nat, q: nat)
    requires n > 0 && n * q <= x
    ensures q <= x / n
  {
    if x / n < q {
      Grow(n, x / n + 1, q);
    }
  }

  lemma PoolsGrow(small: nat, large: nat)
    requires small <= large
    ensures AskPool(small) <= AskPool(large) && AnswerPool(small) <= AnswerPool(large)
  {
  }

  lemma FloorMonotone(a: int, b: int, c: real)
    requires a <= b && c >= 0.0
    ensures (a as real * c).Floor <= (b as real * c).Floor
  {
    assert a as real * c <= b as real * c;
  }

  lemma PortionsGrow(small: nat, large: nat, ask: nat, answer: nat)
    requires small <= large
    ensures Portion(AskPool(small), ask) + Portion(AnswerPool(small), answer)
         <= Portion(AskPool(large), ask) + Portion(AnswerPool(large), answer)
  {
    PoolsGrow(small, large);
    PortionMonotone(AskPool(small), AskPool(large), ask);
    PortionMonotone(AnswerPool(small), AnswerPool(large), answer);
  }

  lemma ScaledMonotone(sums: DaySums, minTasks: int, a: int, b: int, composite: real)
    requires a <= b && composite >= 0.0
    ensures Scaled(sums, minTasks, a, composite) <= Scaled(sums, minTasks, b, composite)
  {
    FloorMonotone(a, b, composite);
  }

  /** Raising the extrapolated number of questions never raises the estimate. */
  lemma EstimateFalls(totalReward: nat, few: nat, many: nat, sums: DaySums, minTasks: int, composite: real)
    requires 0 < few <= many && sums.askUnits >= 0 && sums.answerUnits >= 0 && composite >= 0.0
    ensures EstimatedRaw(totalReward, many, sums) <= EstimatedRaw(totalReward, few, sums)
    ensures Scaled(sums, minTasks, EstimatedRaw(totalReward, many, sums), composite)
         <= Scaled(sums, minTasks, EstimatedRaw(totalReward, few, sums), composite)
  {
    PerQuestionFalls(totalReward, few, many);
    PortionsGrow(PerQuestion(totalReward, many), PerQuestion(totalReward, few), sums.askUnits, sums.answerUnits);
    ScaledMonotone(sums, minTasks, EstimatedRaw(totalReward, many, sums), EstimatedRaw(totalReward, few, sums),
                   composite);
  }

  /** While no further question is scored, the estimate only rises towards the one
      made with the day's own total. */
  lemma EstimateRisesOverTheDay(totalReward: nat, sums: DaySums, minTasks: int, composite: real, earlier: real,
                                later: real)
    requires sums.total > 0 && sums.askUnits >= 0 && sums.answerUnits >= 0 && composite >= 0.0 && earlier <= later
    ensures var before, after := EstimatedTotal(sums.total, earlier), EstimatedTotal(sums.total, later);
      && 0 < after <= before
      && Scaled(sums, minTasks, EstimatedRaw(totalReward, before, sums), composite)
         <= Scaled(sums, minTasks, EstimatedRaw(totalReward, after, sums), composite)
         <= Scaled(sums, minTasks, EstimatedRaw(totalReward, sums.total, sums), composite)
  {
    EstimatedTotalFalls(sums.total, earlier, later);
    EstimateFalls(totalReward, EstimatedTotal(sums.total, later), EstimatedTotal(sums.total, earlier), sums, minTasks,
                  composite);
    EstimateFalls(totalReward, sums.total, EstimatedTotal(sums.total, later), sums, minTasks, composite);
  }
}
