/** From protocol runs to settlements: whatever happened before, crashes included,
    an epoch never promises more than its reward pool. */
module SettlementRuns {
  import opened Wrappers
  import opened Sums
  import opened Scoring
  import opened Payouts
  import opened Tables
  import opened Protocol
  import opened ProtocolInvariant
  import opened ProtocolRuns
  import opened Settlement
  import opened Ledger
  import opened Hashing
  import opened Merkle
  import opened LeafLaws
  import opened Restart
  import opened SettledLaws
  import opened Settle
  import opened Estimator

  /** A scored row earns what its mark pays, a timed-out row nothing. */
  lemma AnswerWithinMark(p: Params, db: Db, now: int, a: nat, q: nat, o: Outcome, pool: nat)
    requires a in db.rows && RowFine(p, db, now, a) && Marked(db.rows, q, o)
    requires IsFinished(db.rows[a]) && db.rows[a].question == q
    ensures Portion(pool, db.rows[a].share) <= if a in Amounts(pool, o.marks) then Amounts(pool, o.marks)[a] else 0
  {
    if db.rows[a].status == TimedOut {
      assert Portion(pool, 0) == 0;
    } else {
      assert a in o.marks && db.rows[a].share == Stored(o.marks[a].share);
    }
  }

  /** The finished answers of a question earn at most what its marks pay. */
  lemma AnswersWithinMarks(p: Params, db: Db, now: int, start: int, end: int, q: nat, o: Outcome, base: nat)
    requires RowsFine(p, db, now) && Marked(db.rows, q, o)
    ensures var inp := Window(db, start, end);
      Total(Part(AnswerRewards(inp, base), QuestionOf(inp), q)) <= Total(Amounts(AnswerPool(base), o.marks))
  {
    var inp := Window(db, start, end);
    var part, amounts := Part(AnswerRewards(inp, base), QuestionOf(inp), q), Amounts(AnswerPool(base), o.marks);
    forall a | a in part ensures part[a] <= if a in amounts then amounts[a] else 0 {
      assert part[a] == Portion(AnswerPool(base), db.rows[a].share);
      AnswerWithinMark(p, db, now, a, q, o, AnswerPool(base));
    }
    TotalDominated(part, amounts);
  }

  /** A question whose columns and rows carry an outcome pays out no more than it. */
  lemma WithinPayout(p: Params, db: Db, now: int, start: int, end: int, q: nat, o: Outcome, base: nat)
    requires RowsFine(p, db, now) && q in Window(db, start, end).questions && Carries(db.questions[q], db.rows, q, o)
    ensures var inp := Window(db, start, end);
      AskRewards(inp, base)[q] + Total(Part(AnswerRewards(inp, base), QuestionOf(inp), q)) <= Payout(base, o)
  {
    AnswersWithinMarks(p, db, now, start, end, q, o, base);
  }

  lemma ScoredCarries(p: Params, db: Db, now: int, q: nat) returns (reference: string, replies: Replies, o: Outcome)
    requires DbInv(p, db, now) && IsScored(db, q)
    ensures |replies| == p.required && o == Judge(reference, replies) && Carries(db.questions[q], db.rows, q, o)
  {
    reference, replies := db.questions[q].answer, RepliesOf(db.rows, q);
    o := Judge(reference, replies);
    assert QuestionFine(p, db.questions[q], db.rows, q);
    assert replies.Keys == AnsweredRows(db.rows, q);
    assert |replies| == |replies.Keys|;
  }

  lemma PayoutWithinBase(reference: string, replies: Replies, base: nat)
    requires 0 < |replies| <= 14500
    ensures Payout(base, Judge(reference, replies)) <= base
  {
    PaidAtMostAll(reference, replies);
    QuestionNeverOverdrawn(reference, replies, base);
  }

  lemma QuestionWithinBase(p: Params, db: Db, now: int, start: int, end: int, q: nat, base: nat)
    requires DbInv(p, db, now) && p.required <= 14500
    requires q in Window(db, start, end).questions
    ensures var inp := Window(db, start, end);
      AskRewards(inp, base)[q] + Total(Part(AnswerRewards(inp, base), QuestionOf(inp), q)) <= base
  {
    var reference, replies, o := ScoredCarries(p, db, now, q);
    WithinPayout(p, db, now, start, end, q, o, base);
    PayoutWithinBase(reference, replies, base);
  }

  lemma QuestionScoresInRange(p: Params, db: Db, now: int, start: int, end: int)
    requires DbInv(p, db, now)
    ensures ScoresInRange(Window(db, start, end))
  {
    var inp := Window(db, start, end);
    forall q | q in inp.questions ensures inp.questions[q].score <= 5 {
      assert QuestionFine(p, db.questions[q], db.rows, q);
      ScoresWithinFive(db.questions[q].answer, RepliesOf(db.rows, q));
    }
    forall a | a in inp.answers ensures inp.answers[a].score <= 5 {
      AnswerScoreInRange(p, db, now, a);
    }
  }

  lemma AnswerScoreInRange(p: Params, db: Db, now: int, a: nat)
    requires DbInv(p, db, now) && a in db.rows && db.rows[a].question in db.questions
    ensures db.rows[a].score <= 5
  {
    var q := db.rows[a].question;
    assert RowFine(p, db, now, a);
    if db.rows[a].status == Scored {
      assert QuestionFine(p, db.questions[q], db.rows, q);
      ScoresWithinFive(db.questions[q].answer, RepliesOf(db.rows, q));
    }
  }

  /** In every reachable state, for every window, configuration and recipient
      choice, the leaf amounts add up to the positive final rewards and stay within
      the pool, as long as at most 14500 replies are required per question. */
  lemma ReachableEpochConserves(p: Params, s: State, cfg: Config, start: int, end: int, recipient: map<Address, string>)
    requires Reachable(p, s) && p.required <= 14500
    requires Window(s.db, start, end).questions != map[]
    requires Payable(Finals(cfg, AllStats(cfg, Window(s.db, start, end)))).Keys <= recipient.Keys
    ensures var stats := AllStats(cfg, Window(s.db, start, end));
      var payable := Payable(Finals(cfg, stats));
      Total(LeafAmounts(payable, recipient)) == Total(payable) <= Total(Raws(stats)) <= cfg.totalReward
  {
    var inp := Window(s.db, start, end);
    ReachableInv(p, s);
    WindowLinked(s.db, start, end);
    QuestionScoresInRange(p, s.db, s.now, start, end);
    forall q | q in inp.questions
      ensures AskRewards(inp, BaseReward(cfg, inp))[q]
        + Total(Part(AnswerRewards(inp, BaseReward(cfg, inp)), QuestionOf(inp), q)) <= BaseReward(cfg, inp)
    {
      QuestionWithinBase(p, s.db, s.now, start, end, q, BaseReward(cfg, inp));
    }
    EpochConserves(cfg, inp, recipient);
  }

  /// ## What settlement and estimate may rely on

  lemma PartPositive(payable: map<Address, int>, recipient: map<Address, string>, w: Address)
    requires w in payable && payable.Keys <= recipient.Keys && forall v :: v in payable ==> payable[v] > 0
    ensures Total(Part(payable, recipient, recipient[w])) > 0
  {
    var part := Part(payable, recipient, recipient[w]);
    TotalSplit(part, w);
    TotalNonNegative(part - {w});
  }

  /** Each leaf carries something, and no more than all of them together. */
  lemma LeafAmountsInRange(payable: map<Address, int>, recipient: map<Address, string>)
    requires payable.Keys <= recipient.Keys && forall v :: v in payable ==> payable[v] > 0
    ensures var amounts := LeafAmounts(payable, recipient);
      forall r :: r in amounts ==> 0 < amounts[r] <= Total(amounts)
  {
    var amounts := LeafAmounts(payable, recipient);
    forall r | r in amounts ensures amounts[r] > 0 {
      var w :| w in payable && recipient[w] == r;
      PartPositive(payable, recipient, w);
    }
    forall r | r in amounts ensures amounts[r] <= Total(amounts) {
      TotalSplit(amounts, r);
      TotalNonNegative(amounts - {r});
    }
  }

  /** So settling a reachable state never overflows: Settle may be called. */
  lemma ReachableNeverOverflows(p: Params, s: State, cfg: Config, out: Outside, date: int)
    requires Reachable(p, s) && p.required <= 14500
    ensures NoOverflow(cfg, out, Window(s.db, date, date + DAY))
  {
    var inp := Window(s.db, date, date + DAY);
    if inp.questions != map[] && Resolved(cfg, out, inp) {
      var payable := PayableOf(cfg, inp);
      var recipient := Recipients(out, payable);
      ReachableEpochConserves(p, s, cfg, date, date + DAY, recipient);
      LeafAmountsInRange(payable, recipient);
    }
  }

  /// ## The published tree

  lemma RootOfBooks(cfg: Config, out: Outside, date: int, b: Books)
    requires Ready(cfg, out, InputsOf(b, date)) && SettledBooks(cfg, out, date, b).epochs[date].root.Some?
    ensures InputsOf(b, date).questions != map[]
    ensures var amounts := AmountsOf(cfg, out, InputsOf(b, date));
      AmountsFit(amounts) && amounts != map[]
      && SettledBooks(cfg, out, date, b).epochs[date].root == RootFor(out, amounts)
  {
  }

  /** The conservation theorem reaches the published root: settling any reachable state
      publishes, if anything, the root of a tree whose leaves together carry exactly the
      day's final rewards, and these stay within the pool. */
  lemma ReachableTreeConserves(p: Params, s: State, cfg: Config, out: Outside, date: int, b: Books)
    returns (leaves: seq<Leaf>)
    requires Reachable(p, s) && p.required <= 14500 && b.db == s.db
    requires Resolved(cfg, out, InputsOf(b, date))
    ensures Ready(cfg, out, InputsOf(b, date))
    ensures var after := SettledBooks(cfg, out, date, b);
      after.epochs[date].root.Some? ==>
        && leaves != [] && AllFit(leaves)
        && after.epochs[date].root == Some(TreeRoot(out.keccak, leaves))
        && LeafTotal(leaves) == Total(DayPaid(after.rewards, date)) <= cfg.totalReward
  {
    leaves := [];
    ReachableNeverOverflows(p, s, cfg, out, date);
    if SettledBooks(cfg, out, date, b).epochs[date].root.Some? {
      RootOfBooks(cfg, out, date, b);
      var inp := InputsOf(b, date);
      leaves := TreeLaw(out, AmountsOf(cfg, out, inp));
      ReachableEpochConserves(p, s, cfg, date, date + DAY, Recipients(out, PayableOf(cfg, inp)));
      DayPaidLaw(cfg, out, date, b);
    }
  }

  /// ## The estimate

  /** In every reachable state the estimate made with the settlement's number of
      questions brackets the settlement. */
  lemma ReachableEstimateBrackets(p: Params, s: State, totalReward: nat, start: int, end: int, w: Address)
    requires Reachable(p, s) && Window(s.db, start, end).questions != map[]
    ensures var inp := Window(s.db, start, end);
      var sums := SumsOf(inp, w);
      var settled := StatsOf(inp, PerQuestion(totalReward, sums.total), w);
      && sums.askUnits >= 0 && sums.answerUnits >= 0
      && settled.rawReward <= EstimatedRaw(totalReward, sums.total, sums)
         <= settled.rawReward + AtMostOneLess(settled.scoredAsks) + AtMostOneLess(settled.scoredAnswers)
  {
    ReachableInv(p, s);
    WindowLinked(s.db, start, end);
    var inp := Window(s.db, start, end);
    forall a | a in inp.answers && inp.answers[a].status == TimedOut ensures inp.answers[a].share == 0 {
      assert RowFine(p, s.db, s.now, a);
    }
    EstimateBrackets(inp, totalReward, w);
  }
}
