/** What a settled day looks like in the tables: which rows there are, what they hold,
    and how epoch, rewards and proofs fit together (internal/service/settlement.go). */
module SettledLaws {
  import opened Wrappers
  import opened Sums
  import opened Tables
  import opened Hashing
  import opened Merkle
  import opened Settlement
  import opened Ledger
  import opened Restart
  import opened LeafLaws

  /// ## The day's rows

  /** Scored within the 24 hours from `date` on. */
  function TodaysQuestions(db: Db, date: int): set<nat>
  {
    set q | q in db.questions && db.questions[q].status == QuestionScored
            && date <= db.questions[q].scoredAt < date + 86400
  }

  function TodaysAnswers(db: Db, date: int): set<nat>
  {
    set a | a in db.rows && db.rows[a].question in TodaysQuestions(db, date)
            && (db.rows[a].status == Scored || db.rows[a].status == TimedOut)
  }

  /** A settlement reads exactly these rows, as they are but for the flag. */
  lemma InputsLaw(b: Books, date: int)
    ensures var inp := InputsOf(b, date);
      && inp.questions.Keys == TodaysQuestions(b.db, date)
      && inp.answers.Keys == TodaysAnswers(b.db, date)
      && (forall q :: q in inp.questions ==> inp.questions[q] == b.db.questions[q].(benchmark := false))
      && (forall a :: a in inp.answers ==> inp.answers[a] == b.db.rows[a])
  {
  }

  /** Who asked or answered one of the day's questions. */
  predicate TookPart(db: Db, date: int, w: Address)
  {
    || (exists q :: q in TodaysQuestions(db, date) && db.questions[q].questioner == w)
    || (exists a :: a in TodaysAnswers(db, date) && db.rows[a].worker == w)
  }

  lemma WorkersLaw(b: Books, date: int, w: Address)
    ensures w in Workers(InputsOf(b, date)) <==> TookPart(b.db, date, w)
  {
    var inp := InputsOf(b, date);
    InputsLaw(b, date);
    if q :| q in inp.questions && inp.questions[q].questioner == w {
      assert Questioners(inp)[q] in Questioners(inp).Values;
    }
    if a :| a in inp.answers && inp.answers[a].worker == w {
      assert Answerers(inp)[a] in Answerers(inp).Values;
    }
    if w in Questioners(inp).Values {
      var q :| q in Questioners(inp) && Questioners(inp)[q] == w;
      assert q in TodaysQuestions(b.db, date) && b.db.questions[q].questioner == w;
    }
    if w in Answerers(inp).Values {
      var a :| a in Answerers(inp) && Answerers(inp)[a] == w;
      assert a in TodaysAnswers(b.db, date) && b.db.rows[a].worker == w;
    }
  }

  /// ## Rewards

  /** The table once the rows of one day are replaced. */
  lemma DayRows<K(!new), V(!new)>(was: map<(int, K), V>, date: int, rows: map<K, V>, d: int, k: K)
    ensures var after := Without(was, date) + Keyed(date, rows);
      && ((date, k) in after <==> k in rows)
      && (k in rows ==> after[(date, k)] == rows[k])
      && (d != date ==> ((d, k) in after <==> (d, k) in was))
      && (d != date && (d, k) in after ==> after[(d, k)] == was[(d, k)])
  {
    if k in rows { assert (date, k) in Keyed(date, rows); }
  }

  /** A row holds the worker's record, its composite score and final reward, and a
      recipient exactly when something is to be paid. */
  ghost predicate IsRewardRow(cfg: Config, out: Outside, inp: Inputs, w: Address, row: RewardRow)
    requires inp.questions != map[]
  {
    && row.stats == StatsOf(inp, BaseReward(cfg, inp), w)
    && row.composite == StoredComposite(Composite(row.stats))
    && row.finalReward == Final(cfg, row.stats)
    && row.recipient == (if row.finalReward > 0 then out.lookup(w) else None)
  }

  lemma TodaysRewardsLaw(cfg: Config, out: Outside, inp: Inputs, w: Address)
    requires Linked(inp)
    ensures w in TodaysRewards(cfg, out, inp) <==> w in Workers(inp)
  {
    if inp.questions == map[] {
      forall a ensures a !in inp.answers {}
      assert Workers(inp) == {};
    }
  }

  lemma TablesLaw(cfg: Config, out: Outside, date: int, b: Books)
    requires Ready(cfg, out, InputsOf(b, date))
    ensures SettledBooks(cfg, out, date, b).rewards
         == Without(b.rewards, date) + Keyed(date, TodaysRewards(cfg, out, InputsOf(b, date)))
    ensures SettledBooks(cfg, out, date, b).proofs
         == Without(b.proofs, date) + Keyed(date, TodaysProofs(cfg, out, InputsOf(b, date)))
  {
  }

  /** There is one reward row for everyone who took part, and no other; other days
      keep theirs. */
  lemma RewardsLaw(cfg: Config, out: Outside, date: int, b: Books, d: int, w: Address)
    requires Ready(cfg, out, InputsOf(b, date))
    ensures var after := SettledBooks(cfg, out, date, b).rewards;
      && ((date, w) in after <==> TookPart(b.db, date, w))
      && (d != date ==> ((d, w) in after <==> (d, w) in b.rewards))
      && (d != date && (d, w) in after ==> after[(d, w)] == b.rewards[(d, w)])
  {
    WorkersLaw(b, date, w);
    WindowLinked(b.db, date, date + DAY);
    TodaysRewardsLaw(cfg, out, InputsOf(b, date), w);
    TablesLaw(cfg, out, date, b);
    DayRows(b.rewards, date, TodaysRewards(cfg, out, InputsOf(b, date)), d, w);
  }

  lemma TodaysRowLaw(cfg: Config, out: Outside, inp: Inputs, w: Address)
    requires w in TodaysRewards(cfg, out, inp)
    ensures inp.questions != map[] && IsRewardRow(cfg, out, inp, w, TodaysRewards(cfg, out, inp)[w])
  {
  }

  lemma RewardRowLaw(cfg: Config, out: Outside, date: int, b: Books, w: Address)
    requires Ready(cfg, out, InputsOf(b, date)) && (date, w) in SettledBooks(cfg, out, date, b).rewards
    ensures InputsOf(b, date).questions != map[]
    ensures IsRewardRow(cfg, out, InputsOf(b, date), w, SettledBooks(cfg, out, date, b).rewards[(date, w)])
  {
    TablesLaw(cfg, out, date, b);
    DayRows(b.rewards, date, TodaysRewards(cfg, out, InputsOf(b, date)), date, w);
    TodaysRowLaw(cfg, out, InputsOf(b, date), w);
  }

  /// ## Proofs and the epoch

  /** The workers whose final reward goes to `r`, with it. */
  function PaidTo(rewards: map<(int, Address), RewardRow>, date: int, r: string): map<Address, int>
  {
    map k | k in rewards && k.0 == date && rewards[k].finalReward > 0 && rewards[k].recipient == Some(r) ::
      k.1 := rewards[k].finalReward
  }

  function PaidIn(rows: map<Address, RewardRow>, r: string): map<Address, int>
  {
    map w | w in rows && rows[w].finalReward > 0 && rows[w].recipient == Some(r) :: rows[w].finalReward
  }

  lemma PaidOfDay(was: map<(int, Address), RewardRow>, date: int, rows: map<Address, RewardRow>, r: string)
    ensures PaidTo(Without(was, date) + Keyed(date, rows), date, r) == PaidIn(rows, r)
  {
    var after := Without(was, date) + Keyed(date, rows);
    forall w ensures w in PaidTo(after, date, r) <==> w in PaidIn(rows, r) {
      DayRows(was, date, rows, date, w);
      assert w in PaidTo(after, date, r) <==>
        ((date, w) in after && after[(date, w)].finalReward > 0 && after[(date, w)].recipient == Some(r));
    }
    forall w | w in PaidIn(rows, r) ensures PaidTo(after, date, r)[w] == PaidIn(rows, r)[w] {
      DayRows(was, date, rows, date, w);
      assert (date, w) in after;
    }
  }

  /** What the day's reward rows give a recipient is what it is paid. */
  lemma PaidInRows(cfg: Config, out: Outside, stats: map<Address, Stats>, r: string)
    requires forall w :: w in Payable(Finals(cfg, stats)) ==> out.lookup(w).Some?
    ensures PaidIn(RowsFor(cfg, out, stats), r)
         == Part(Payable(Finals(cfg, stats)), Recipients(out, Payable(Finals(cfg, stats))), r)
  {
    var payable := Payable(Finals(cfg, stats));
    forall w ensures w in PaidIn(RowsFor(cfg, out, stats), r) <==> w in Part(payable, Recipients(out, payable), r) {
      assert w in payable <==> w in stats && Final(cfg, stats[w]) > 0;
    }
  }

  lemma AmountsLaw(payable: map<Address, int>, recipient: map<Address, string>, r: string)
    requires payable.Keys <= recipient.Keys
    ensures r in LeafAmounts(payable, recipient) <==> Part(payable, recipient, r) != map[]
    ensures r in LeafAmounts(payable, recipient) ==>
      LeafAmounts(payable, recipient)[r] == Total(Part(payable, recipient, r))
  {
    var part := Part(payable, recipient, r);
    if part != map[] {
      var w :| w in part;
      assert w in payable && recipient[w] == r;
    }
    forall w | w in payable && recipient[w] == r ensures part != map[] {
      assert w in part;
    }
  }

  /** Today's proof rows, in terms of today's reward rows. */
  lemma TodaysProofsLaw(cfg: Config, out: Outside, inp: Inputs, r: string)
    requires Ready(cfg, out, inp)
    ensures var paid := PaidIn(TodaysRewards(cfg, out, inp), r);
      && (r in TodaysProofs(cfg, out, inp) <==> paid != map[])
      && (r in TodaysProofs(cfg, out, inp) ==> TodaysProofs(cfg, out, inp)[r].amount == Total(paid))
  {
    if inp.questions != map[] {
      PaidInRows(cfg, out, AllStats(cfg, inp), r);
      AmountsLaw(PayableOf(cfg, inp), Recipients(out, PayableOf(cfg, inp)), r);
    }
  }

  /** There is a proof row for exactly the recipients of positive final rewards, for
      the sum of what the day's reward rows give them; other days keep theirs. */
  lemma ProofsLaw(cfg: Config, out: Outside, date: int, b: Books, d: int, r: string)
    requires Ready(cfg, out, InputsOf(b, date))
    ensures var after := SettledBooks(cfg, out, date, b);
      && ((date, r) in after.proofs <==> PaidTo(after.rewards, date, r) != map[])
      && ((date, r) in after.proofs ==> after.proofs[(date, r)].amount == Total(PaidTo(after.rewards, date, r)))
      && (d != date ==> ((d, r) in after.proofs <==> (d, r) in b.proofs))
      && (d != date && (d, r) in after.proofs ==> after.proofs[(d, r)] == b.proofs[(d, r)])
  {
    var inp := InputsOf(b, date);
    TablesLaw(cfg, out, date, b);
    DayRows(b.proofs, date, TodaysProofs(cfg, out, inp), d, r);
    PaidOfDay(b.rewards, date, TodaysRewards(cfg, out, inp), r);
    TodaysProofsLaw(cfg, out, inp, r);
  }

  lemma TodaysProofRow(cfg: Config, out: Outside, inp: Inputs, r: string) returns (bytes: seq<Byte>)
    requires Ready(cfg, out, inp) && r in TodaysProofs(cfg, out, inp)
    ensures var row := TodaysProofs(cfg, out, inp)[r];
      && Spells(bytes, out.toAccount(r), row.amount)
      && row.leafHash == out.keccak(out.keccak(bytes))
      && TodaysEpoch(cfg, out, inp).root == Some(Fold(out.keccak, row.leafHash, row.proof))
  {
    var amounts := AmountsOf(cfg, out, inp);
    bytes := StoredRowLaw(out, amounts, r);
    StoredProofsVerify(out, amounts, r);
  }

  /** The leaf hash of every proof row commits to the recipient's account and the row's
      amount, and its proof leads to the epoch's root. */
  lemma ProofRowLaw(cfg: Config, out: Outside, date: int, b: Books, r: string) returns (bytes: seq<Byte>)
    requires Ready(cfg, out, InputsOf(b, date)) && (date, r) in SettledBooks(cfg, out, date, b).proofs
    ensures var after := SettledBooks(cfg, out, date, b);
      var row := after.proofs[(date, r)];
      && Spells(bytes, out.toAccount(r), row.amount)
      && row.leafHash == out.keccak(out.keccak(bytes))
      && after.epochs[date].root == Some(Fold(out.keccak, row.leafHash, row.proof))
  {
    TablesLaw(cfg, out, date, b);
    DayRows(b.proofs, date, TodaysProofs(cfg, out, InputsOf(b, date)), date, r);
    bytes := TodaysProofRow(cfg, out, InputsOf(b, date), r);
  }

  /** The positive final rewards in the day's reward rows. */
  function DayPaid(rewards: map<(int, Address), RewardRow>, date: int): map<Address, int>
  {
    map k | k in rewards && k.0 == date && rewards[k].finalReward > 0 :: k.1 := rewards[k].finalReward
  }

  function AllPaid(rows: map<Address, RewardRow>): map<Address, int>
  {
    map w | w in rows && rows[w].finalReward > 0 :: rows[w].finalReward
  }

  lemma AllPaidOfDay(was: map<(int, Address), RewardRow>, date: int, rows: map<Address, RewardRow>)
    ensures DayPaid(Without(was, date) + Keyed(date, rows), date) == AllPaid(rows)
  {
    var after := Without(was, date) + Keyed(date, rows);
    forall w ensures w in DayPaid(after, date) <==> w in AllPaid(rows) {
      DayRows(was, date, rows, date, w);
      assert w in DayPaid(after, date) <==> ((date, w) in after && after[(date, w)].finalReward > 0);
    }
    forall w | w in AllPaid(rows) ensures DayPaid(after, date)[w] == AllPaid(rows)[w] {
      DayRows(was, date, rows, date, w);
      assert (date, w) in after;
    }
  }

  lemma AllPaidInRows(cfg: Config, out: Outside, stats: map<Address, Stats>)
    ensures AllPaid(RowsFor(cfg, out, stats)) == Payable(Finals(cfg, stats))
  {
  }

  /** The settled final rewards are the ones the day's reward rows hold. */
  lemma DayPaidLaw(cfg: Config, out: Outside, date: int, b: Books)
    requires Ready(cfg, out, InputsOf(b, date)) && InputsOf(b, date).questions != map[]
    ensures DayPaid(SettledBooks(cfg, out, date, b).rewards, date) == PayableOf(cfg, InputsOf(b, date))
  {
    TablesLaw(cfg, out, date, b);
    AllPaidOfDay(b.rewards, date, TodaysRewards(cfg, out, InputsOf(b, date)));
    AllPaidInRows(cfg, out, AllStats(cfg, InputsOf(b, date)));
  }

  /** The epoch row says how many questions were settled; other days keep theirs. */
  lemma EpochLaw(cfg: Config, out: Outside, date: int, b: Books)
    requires Ready(cfg, out, InputsOf(b, date))
    ensures var after := SettledBooks(cfg, out, date, b);
      && date in after.epochs
      && after.epochs[date].totalReward == cfg.totalReward
      && after.epochs[date].totalScored == |TodaysQuestions(b.db, date)|
      && after.epochs[date].settled && !after.epochs[date].published
      && (forall d :: d in after.epochs && d != date ==> d in b.epochs && after.epochs[d] == b.epochs[d])
      && (forall d :: d in b.epochs ==> d in after.epochs)
  {
    InputsLaw(b, date);
    var inp := InputsOf(b, date);
    assert |inp.questions| == |inp.questions.Keys|;
  }

  lemma TodaysRootLaw(cfg: Config, out: Outside, inp: Inputs)
    requires Ready(cfg, out, inp)
    ensures TodaysEpoch(cfg, out, inp).root.Some? <==> TodaysProofs(cfg, out, inp) != map[]
  {
    if inp.questions != map[] {
      var amounts := AmountsOf(cfg, out, inp);
      assert ProofRows(out, amounts).Keys == amounts.Keys;
    }
  }

  /** It has a root exactly when the day has a proof row. */
  lemma RootLaw(cfg: Config, out: Outside, date: int, b: Books)
    requires Ready(cfg, out, InputsOf(b, date))
    ensures var after := SettledBooks(cfg, out, date, b);
      after.epochs[date].root.Some? <==> exists r :: (date, r) in after.proofs
  {
    var inp := InputsOf(b, date);
    TodaysRootLaw(cfg, out, inp);
    TablesLaw(cfg, out, date, b);
    SomeDayRow(b.proofs, date, TodaysProofs(cfg, out, inp));
  }

  lemma SomeDayRow<K(!new), V(!new)>(was: map<(int, K), V>, date: int, rows: map<K, V>)
    ensures rows != map[] <==> exists k :: (date, k) in Without(was, date) + Keyed(date, rows)
  {
    if rows != map[] {
      var k :| k in rows;
      DayRows(was, date, rows, date, k);
    }
    forall k | (date, k) in Without(was, date) + Keyed(date, rows) ensures rows != map[] {
      DayRows(was, date, rows, date, k);
    }
  }

  /// ## Flags and violations

  /** Of the question and answer tables only the day's benchmark flags change, and
      every worker's violations are forgiven on a day with questions. */
  lemma FlagsLaw(cfg: Config, out: Outside, date: int, b: Books, q: nat)
    requires Ready(cfg, out, InputsOf(b, date))
    ensures var after := SettledBooks(cfg, out, date, b);
      && after.db.rows == b.db.rows && (q in after.db.questions <==> q in b.db.questions)
      && (q in TodaysQuestions(b.db, date) ==>
            after.db.questions[q] == b.db.questions[q].(benchmark := q in DayMarks(cfg, InputsOf(b, date))))
      && (q in b.db.questions && q !in TodaysQuestions(b.db, date) ==> after.db.questions[q] == b.db.questions[q])
  {
  }

  lemma ViolationsLaw(cfg: Config, out: Outside, date: int, b: Books, w: Address)
    requires Ready(cfg, out, InputsOf(b, date))
    ensures var after := SettledBooks(cfg, out, date, b).violations;
      && (w in after <==> w in b.violations)
      && (w in after ==> after[w] == if TodaysQuestions(b.db, date) == {} then b.violations[w] else 0)
  {
    InputsLaw(b, date);
    assert InputsOf(b, date).questions == map[] <==> TodaysQuestions(b.db, date) == {};
  }

  /** Each known set's counter goes up by the number of its questions that qualify. */
  lemma CountersLaw(cfg: Config, date: int, b: Books, counters: map<string, int>, bsId: string)
    ensures var after, marks := CountersAfter(cfg, date, b, counters), DayMarks(cfg, InputsOf(b, date));
      && (bsId in after <==> bsId in counters)
      && (bsId in after ==>
            after[bsId] == counters[bsId]
                           + |set q | q in marks && q in b.db.questions && b.db.questions[q].bsId == bsId|)
  {
    var inp, marks := InputsOf(b, date), DayMarks(cfg, InputsOf(b, date));
    assert forall q :: q in marks ==> q in inp.questions && inp.questions[q].bsId == b.db.questions[q].bsId;
    assert (set q | q in marks && q in b.db.questions && b.db.questions[q].bsId == bsId) == MarkedIn(inp, marks, bsId);
  }
}
