/** What one scored question pays out, after the shares were rounded for storage
    (internal/service/scoring.go, internal/service/settlement.go). */
module Payouts {
  import opened Wrappers
  import opened Sets
  import opened Sums
  import opened Scoring

  function AskPool(baseReward: nat): nat { baseReward / 3 }

  function AnswerPool(baseReward: nat): nat { baseReward - AskPool(baseReward) }

  /** int64(float64(pool) * share) for a share stored in ten-thousandths. */
  function Portion(pool: nat, units: nat): nat { pool * units / 10000 }

  /** The ten-thousandths each of `n` winners receives. */
  function WinnerUnits(n: nat): nat
    requires n > 0
  {
    Stored(Fraction(1, n))
  }

  function Amounts(pool: nat, marks: map<nat, Mark>): map<nat, int>
  {
    map id | id in marks :: Portion(pool, Stored(marks[id].share))
  }

  ghost function Payout(baseReward: nat, o: Outcome): int
  {
    Portion(AskPool(baseReward), Stored(o.share)) + Total(Amounts(AnswerPool(baseReward), o.marks))
  }

  /** `n` winners and the questioner's share `q`. */
  function SplitPayout(baseReward: nat, q: nat, n: nat): nat
    requires n > 0
  {
    Portion(AskPool(baseReward), q) + n * Portion(AnswerPool(baseReward), WinnerUnits(n))
  }

  /** The payout of a judged question is one questioner's portion and equal
      portions for the winners. */
  lemma PayoutIsSplit(reference: string, replies: Replies, baseReward: nat)
    requires exists id :: id in replies && Judged(replies[id])
    ensures Paid(reference, replies) != {}
    ensures Payout(baseReward, Judge(reference, replies))
         == SplitPayout(baseReward, Stored(Judge(reference, replies).share), |Paid(reference, replies)|)
  {
    var o, paid := Judge(reference, replies), Paid(reference, replies);
    MarksShareOnePool(reference, replies);
    var pool := AnswerPool(baseReward);
    var each := Portion(pool, WinnerUnits(|paid|));
    AmountsTwoValued(pool, o.marks, paid, each);
    TotalTwoValued(Amounts(pool, o.marks), paid, each);
  }

  lemma AmountsTwoValued(pool: nat, marks: map<nat, Mark>, paid: set<nat>, each: nat)
    requires paid != {} && each == Portion(pool, WinnerUnits(|paid|))
    requires forall id :: id in marks ==> marks[id].share == if id in paid then Fraction(1, |paid|) else NO_SHARE
    ensures forall id :: id in marks ==> Amounts(pool, marks)[id] == if id in paid then each else 0
  {
    assert Portion(pool, Stored(NO_SHARE)) == 0;
  }

  /// ## The rounding bound

  /** Rounded shares of at most 14500, or more than 20000, winners. */
  predicate SafeWinners(n: nat) { n <= 14500 || n > 20000 }

  lemma PortionBound(pool: nat, units: nat)
    ensures 10000 * Portion(pool, units) <= pool * units
  {
  }

  /** Winners whose rounded shares do not add up to more than one. */
  lemma ExactSplit(pool: nat, n: nat, units: nat)
    requires n * units <= 10000
    ensures n * Portion(pool, units) <= pool
  {
    ScaledSplit(pool, n, units, 10000);
  }

  lemma ScaledSplit(pool: nat, n: nat, units: nat, limit: nat)
    requires n * units <= limit
    ensures 10000 * (n * Portion(pool, units)) <= pool * limit
  {
    var p := Portion(pool, units);
    PortionBound(pool, units);
    calc {
      10000 * (n * p);
      == { Rearrange(10000, n, p); }
      n * (10000 * p);
      <= { Grow(n, 10000 * p, pool * units); }
      n * (pool * units);
      == { Rearrange(n, pool, units); }
      pool * (n * units);
      <= { Grow(pool, n * units, limit); }
      pool * limit;
    }
  }

  lemma Rearrange(a: nat, b: nat, c: nat)
    ensures a * (b * c) == b * (a * c)
  {
  }

  lemma Grow(a: nat, b: nat, c: nat)
    requires b <= c
    ensures a * b <= a * c
  {
  }

  lemma WinnerUnitsRange(n: nat)
    requires n > 0
    ensures 2 * (n * WinnerUnits(n)) <= 20000 + n
    ensures n > 20000 <==> WinnerUnits(n) == 0
    ensures 6667 <= n <= 20000 <==> WinnerUnits(n) == 1
  {
    var r := WinnerUnits(n);
    StoredRoundsHalfUp(Fraction(1, n));
    assert 2 * n * r <= 20000 + n < 2 * n * (r + 1);
    assert 2 * n * r == 2 * (n * r);
    if n > 20000 && r >= 1 { Grow(n, 1, r); }
    if 6667 <= n <= 20000 {
      if r >= 2 { Grow(n, 2, r); }
      assert r != 0;
    }
    if r <= 1 { Grow(n, r + 1, 2); }
  }

  /** At most 6666 winners: the excess over one is under a third. */
  lemma FewWinners(baseReward: nat, q: nat, n: nat)
    requires 0 < n <= 6666 && q <= 1000
    ensures SplitPayout(baseReward, q, n) <= baseReward
  {
    var a, p := AskPool(baseReward), AnswerPool(baseReward);
    WinnerUnitsRange(n);
    ScaledSplit(p, n, WinnerUnits(n), 13333);
    AskTenth(a, q);
  }

  lemma AskTenth(a: nat, q: nat)
    requires q <= 1000
    ensures 10 * Portion(a, q) <= a
  {
    PortionBound(a, q);
    Grow(a, q, 1000);
  }

  /** One ten-thousandth each: safe up to 14500 winners. */
  lemma ManyWinners(baseReward: nat, q: nat, n: nat)
    requires 6667 <= n <= 14500 && q <= 1000
    ensures SplitPayout(baseReward, q, n) <= baseReward
  {
    var a, p := AskPool(baseReward), AnswerPool(baseReward);
    WinnerUnitsRange(n);
    var k := Portion(p, 1);
    Grow(k, n, 14500);
    AskTenth(a, q);
    assert 10000 * k <= p <= 2 * a + 2;
  }

  /** The questioner's stored share is at most a tenth from five winners on; with
      fewer winners the rounded shares do not exceed one. */
  lemma SplitIsSafe(baseReward: nat, q: nat, n: nat)
    requires n > 0 && SafeWinners(n) && q <= 10000
    requires n >= 5 ==> q <= 1000
    ensures SplitPayout(baseReward, q, n) <= baseReward
  {
    var a, p := AskPool(baseReward), AnswerPool(baseReward);
    if n < 5 {
      assert n * WinnerUnits(n) <= 10000;
      ExactSplit(p, n, WinnerUnits(n));
      PortionBound(a, q);
      Grow(a, q, 10000);
    } else if n <= 6666 {
      FewWinners(baseReward, q, n);
    } else if n <= 14500 {
      ManyWinners(baseReward, q, n);
    } else {
      WinnerUnitsRange(n);
      AskTenth(a, q);
    }
  }

  /** With one ten-thousandth each, more than 14500 winners overdraw this base reward. */
  lemma SplitOverdraws(q: nat, n: nat)
    requires 14500 < n <= 20000 && q == 1000
    ensures SplitPayout(14999, q, n) > 14999
  {
    WinnerUnitsRange(n);
    assert AskPool(14999) == 4999 && AnswerPool(14999) == 10000;
  }

  lemma QuestionShareLimits(reference: string, replies: Replies)
    requires exists id :: id in replies && Judged(replies[id])
    ensures var q, n := Stored(Judge(reference, replies).share), |Paid(reference, replies)|;
      q <= 10000 && (n >= 5 ==> q <= 1000)
  {
  }

  ghost predicate WithinBudget(reference: string, replies: Replies, baseReward: nat)
  {
    Payout(baseReward, Judge(reference, replies)) <= baseReward
  }

  /** Per question: no base reward is overdrawn by a safe number of winners. */
  lemma QuestionNeverOverdrawn(reference: string, replies: Replies, baseReward: nat)
    requires replies != map[] && SafeWinners(|Paid(reference, replies)|)
    ensures WithinBudget(reference, replies, baseReward)
  {
    var o := Judge(reference, replies);
    if id :| id in replies && Judged(replies[id]) {
      PayoutIsSplit(reference, replies, baseReward);
      QuestionShareLimits(reference, replies);
      SplitIsSafe(baseReward, Stored(o.share), |Paid(reference, replies)|);
    } else {
      assert o.marks == map[];
      assert Amounts(AnswerPool(baseReward), o.marks) == map[];
      PortionBound(AskPool(baseReward), Stored(o.share));
      QuestionShareWithoutJudges(reference, replies);
      AskTenth(AskPool(baseReward), Stored(o.share));
    }
  }

  lemma QuestionShareWithoutJudges(reference: string, replies: Replies)
    requires replies != map[] && forall id :: id in replies ==> !Judged(replies[id])
    ensures Stored(Judge(reference, replies).share) <= 1000
  {
    CasesAreExact(reference, replies);
    var id :| id in replies;
    assert !IsInvalid(replies[id]);
  }

  function FirstNumbers(n: nat): (s: set<nat>)
    ensures |s| == n && forall id: nat :: id in s <==> id < n
  {
    if n == 0 then {} else FirstNumbers(n - 1) + {n - 1}
  }

  const RIGHT := "42"
  const WRONG := "41"

  /** `n` replies of which the first `k` are correct and the others wrong. */
  function Crowd(n: nat, k: nat): Replies
  {
    map id | id in FirstNumbers(n) :: Reply(Some(true), Some(if id < k then RIGHT else WRONG))
  }

  lemma CrowdSize(n: nat, k: nat)
    ensures |Crowd(n, k)| == n
  {
    assert Crowd(n, k).Keys == FirstNumbers(n);
  }

  lemma CrowdCorrect(n: nat, k: nat)
    requires k <= n
    ensures Correct(RIGHT, Crowd(n, k)) == FirstNumbers(k)
  {
    assert RIGHT[1] != WRONG[1];
    forall id: nat ensures id in Correct(RIGHT, Crowd(n, k)) <==> id < k {
      if id < n {
        assert Crowd(n, k)[id] == Reply(Some(true), Some(if id < k then RIGHT else WRONG));
      }
    }
  }

  lemma CrowdOutcome(n: nat, k: nat)
    requires 5 <= k <= n
    ensures 0 in Crowd(n, k) && Judged(Crowd(n, k)[0])
    ensures |Paid(RIGHT, Crowd(n, k))| == k
    ensures Judge(RIGHT, Crowd(n, k)).share == Fraction(1, 10)
  {
    var replies := Crowd(n, k);
    CrowdCorrect(n, k);
    assert |FirstNumbers(k)| == k;
    assert Correct(RIGHT, replies) != {};
  }

  lemma CrowdOverdraws(n: nat, k: nat)
    requires 14500 < k <= 20000 && k <= n
    ensures !WithinBudget(RIGHT, Crowd(n, k), 14999)
  {
    CrowdOutcome(n, k);
    PayoutIsSplit(RIGHT, Crowd(n, k), 14999);
    SplitOverdraws(Stored(Judge(RIGHT, Crowd(n, k)).share), k);
  }

  /** Conservation per question holds for every reply set and every pool exactly
      when at most 14500 replies are required. */
  lemma RequiredRepliesBound(required: nat)
    requires required >= 1
    ensures (forall reference: string, replies: Replies, baseReward: nat ::
               |replies| == required ==> WithinBudget(reference, replies, baseReward))
            <==> required <= 14500
  {
    if required <= 14500 {
      forall reference: string, replies: Replies, baseReward: nat | |replies| == required
        ensures WithinBudget(reference, replies, baseReward)
      {
        PaidAtMostAll(reference, replies);
        QuestionNeverOverdrawn(reference, replies, baseReward);
      }
    } else {
      CrowdSize(required, 14501);
      CrowdOverdraws(required, 14501);
    }
  }

  lemma PaidAtMostAll(reference: string, replies: Replies)
    requires replies != map[]
    ensures |Paid(reference, replies)| <= |replies|
  {
    SomeonePaid(reference, replies);
    assert Paid(reference, replies) <= replies.Keys;
    SubsetSize(Paid(reference, replies), replies.Keys);
  }
}
