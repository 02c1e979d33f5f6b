/** Settle from beginning to end (internal/service/settlement.go:59-245). */
module Settle {
  import opened Wrappers
  import opened Tables
  import opened Hashing
  import opened Settlement
  import opened Ledger
  import opened Restart
  import opened Aggregation
  import opened EpochStore
  import opened SettlementService

  /// ## Putting the pieces together

  /** After the flags are reset the queries return the inputs. */
  lemma ListedInputs(db: Db, date: int)
    ensures var inp := Window(db, date, date + DAY);
      && ScoredBetween(Flagged(db, date, {}), date, date + DAY) == inp.questions
      && FinishedFor(db, inp.questions.Keys) == inp.answers
  {
  }

  lemma QualifiedAreBenchmarks(cfg: Config, inp: Inputs, list: seq<(nat, Question)>)
    requires inp.questions != map[] && Enumerates(list, inp.questions)
    ensures Qualified(cfg, inp, Composites(AllStats(cfg, inp)), list, |list|) == Benchmarks(cfg, inp)
  {
    QuestionersAreWorkers(inp);
    var composites := Composites(AllStats(cfg, inp));
    forall q ensures q in Qualified(cfg, inp, composites, list, |list|) <==> q in Benchmarks(cfg, inp) {
      QualifiedMembers(cfg, inp, composites, list, |list|, q);
    }
  }

  /** Noting the looked-up recipients of the payable workers completes the rows. */
  lemma RowsAddressed(cfg: Config, out: Outside, stats: map<Address, Stats>)
    requires forall w :: w in Payable(Finals(cfg, stats)) ==> out.lookup(w).Some?
    ensures Addressed(Unaddressed(cfg, stats), Recipients(out, Payable(Finals(cfg, stats)))) == RowsFor(cfg, out, stats)
  {
    var rows := Addressed(Unaddressed(cfg, stats), Recipients(out, Payable(Finals(cfg, stats))));
    forall w | w in stats ensures rows[w] == RowFor(cfg, out, w, stats[w]) {
      assert w in Payable(Finals(cfg, stats)) <==> Final(cfg, stats[w]) > 0;
    }
  }

  /** The day's reward rows, with their recipients, and its proofs. */
  ghost predicate RowsStored(cfg: Config, out: Outside, date: int, start: Books,
                             rewards: map<(int, Address), RewardRow>, proofs: map<(int, string), ProofRow>, inp: Inputs)
    requires inp.questions != map[] && Resolved(cfg, out, inp) && AmountsFit(AmountsOf(cfg, out, inp))
  {
    && rewards == Without(start.rewards, date) + Keyed(date, TodaysRewards(cfg, out, inp))
    && proofs == Without(start.proofs, date) + Keyed(date, ProofRows(out, AmountsOf(cfg, out, inp)))
  }

  /** The whole state of a finished settlement with at least one question. */
  ghost predicate IsComplete(cfg: Config, out: Outside, date: int, start: Books, end: Books, inp: Inputs)
    requires inp.questions != map[] && Resolved(cfg, out, inp) && AmountsFit(AmountsOf(cfg, out, inp))
  {
    && end.db == Flagged(start.db, date, Benchmarks(cfg, inp))
    && end.epochs == start.epochs[date :=
         Epoch(cfg.totalReward, |inp.questions|, true, RootFor(out, AmountsOf(cfg, out, inp)), false)]
    && RowsStored(cfg, out, date, start, end.rewards, end.proofs, inp)
    && end.violations == Zeroed(start.violations)
  }

  lemma CompleteIsSettled(cfg: Config, out: Outside, date: int, start: Books, end: Books, inp: Inputs)
    requires inp == InputsOf(start, date)
    requires inp.questions != map[] && Resolved(cfg, out, inp) && AmountsFit(AmountsOf(cfg, out, inp))
    requires IsComplete(cfg, out, date, start, end, inp)
    ensures end == SettledBooks(cfg, out, date, start)
  {
  }

  ghost predicate IsCompleteEmpty(cfg: Config, date: int, start: Books, end: Books)
  {
    && end.db == Flagged(start.db, date, {}) && end.violations == start.violations
    && end.epochs == start.epochs[date := Epoch(cfg.totalReward, 0, true, None, false)]
    && end.rewards == Without(start.rewards, date) && end.proofs == Without(start.proofs, date)
  }

  lemma PlusNothing<K(!new), V>(date: int, m: map<(int, K), V>)
    ensures m + Keyed<K, V>(date, map[]) == m
  {
  }

  lemma EmptyIsSettled(cfg: Config, out: Outside, date: int, start: Books, end: Books)
    requires InputsOf(start, date).questions == map[] && IsCompleteEmpty(cfg, date, start, end)
    ensures end == SettledBooks(cfg, out, date, start)
  {
    PlusNothing<Address, RewardRow>(date, Without(start.rewards, date));
    PlusNothing<string, ProofRow>(date, Without(start.proofs, date));
  }

  /** No amount overflows an int64, if the recipients are known. */
  ghost predicate NoOverflow(cfg: Config, out: Outside, inp: Inputs)
  {
    inp.questions != map[] && Resolved(cfg, out, inp) ==> AmountsFit(AmountsOf(cfg, out, inp))
  }

  /// ## The calls

  /** The epoch reset, the earlier rows and flags removed. */
  ghost predicate CleanedUp(cfg: Config, date: int, start: Books, now: Books)
  {
    && now.db == Flagged(start.db, date, {}) && now.violations == start.violations
    && now.epochs == start.epochs[date := Epoch(cfg.totalReward, 0, false, None, false)]
    && now.rewards == Without(start.rewards, date) && now.proofs == Without(start.proofs, date)
  }

  /** Steps 1 and 2: the epoch is reset and what an earlier run left is removed. */
  method CleanUp(store: EpochStore, cfg: Config, date: int, ghost inp: Inputs, ghost reach: Books -> bool)
    requires Closed(date, inp, reach) && reach(store.Snapshot())
    modifies store
    ensures reach(store.Snapshot()) && CleanedUp(cfg, date, old(store.Snapshot()), store.Snapshot())
    ensures store.qualified == old(store.qualified)
  {
    store.CreateOrResetEpoch(date, cfg.totalReward, inp, reach);
    store.DeleteEpochMerkleProofs(date, inp, reach);
    store.DeleteEpochRewards(date, inp, reach);
    store.ResetBenchmarkFlags(date, inp, reach);
  }

  /** Steps 3 to 5: the records of all workers. */
  method Gather(store: EpochStore, cfg: Config, date: int, questions: seq<(nat, Question)>, ghost inp: Inputs)
    returns (stats: map<Address, Stats>)
    requires inp == Window(store.db, date, date + DAY) && inp.questions != map[]
    requires Enumerates(questions, inp.questions) && |questions| == |inp.questions|
    ensures stats == AllStats(cfg, inp)
  {
    var ids := set pair | pair in questions :: pair.0;
    IdsOf(questions, inp.questions);
    var assignments := store.ListScoredAssignmentsForQuestions(ids);
    ListedInputs(store.db, date);
    var aByQ := IndexAnswers(assignments, inp.answers);
    var baseReward := PerQuestion(cfg.totalReward, |questions|);
    stats := Aggregate(questions, aByQ, baseReward);
    WindowLinked(store.db, date, date + DAY);
    LoopComputesRecords(baseReward, questions, aByQ, inp);
  }

  lemma IdsOf(questions: seq<(nat, Question)>, m: map<nat, Question>)
    requires Enumerates(questions, m)
    ensures (set pair | pair in questions :: pair.0) == m.Keys
  {
    forall q | q in m ensures q in (set pair | pair in questions :: pair.0) {
      var i :| 0 <= i < |questions| && questions[i].0 == q;
      assert questions[i] in questions;
    }
  }

  lemma {:induction false} ListLength(questions: seq<(nat, Question)>, m: map<nat, Question>)
    requires Enumerates(questions, m)
    ensures |questions| == |m|
    decreases |questions|
  {
    if questions == [] {
      assert m == map[];
    } else {
      var front := questions[..|questions| - 1];
      var (q, question) := questions[|questions| - 1];
      EnumeratesMapOf(front);
      ListLength(front, MapOf(front));
      WholeList(questions, m);
      MapOfKeys(front);
      assert m == MapOf(front)[q := question] && q !in MapOf(front);
      assert m.Keys == MapOf(front).Keys + {q};
      assert |m| == |m.Keys| && |MapOf(front)| == |MapOf(front).Keys|;
    }
  }

  /** The rows before any recipient is noted are one per worker; none exists yet. */
  lemma NothingLeft(cfg: Config, was: Books, date: int, stats: map<Address, Stats>)
    ensures Fresh(date, Without(was.rewards, date), Unaddressed(cfg, stats))
    ensures forall r :: (date, r) !in Without(was.proofs, date)
    ensures Finals(cfg, stats).Keys <= Unaddressed(cfg, stats).Keys
  {
  }

  /** Step 6: one row per worker; no insert meets a row that exists. */
  method SaveRewards(store: EpochStore, cfg: Config, date: int, stats: map<Address, Stats>,
                     ghost start: Books, ghost inp: Inputs, ghost reach: Books -> bool)
    returns (composites: map<Address, real>, finals: map<Address, int>)
    requires Closed(date, inp, reach) && reach(store.Snapshot())
    requires store.rewards == Without(start.rewards, date)
    requires inp.questions != map[] && stats == AllStats(cfg, inp)
    modifies store`rewards
    ensures reach(store.Snapshot())
    ensures composites == Composites(AllStats(cfg, inp)) && finals == Finals(cfg, AllStats(cfg, inp))
    ensures store.rewards == Without(start.rewards, date) + Keyed(date, Unaddressed(cfg, AllStats(cfg, inp)))
  {
    var rows: seq<(Address, RewardRow)>;
    rows, composites, finals := ComputeRewards(cfg, stats);
    NothingLeft(cfg, start, date, stats);
    WholeList(rows, Unaddressed(cfg, stats));
    var saved := BatchSaveWorkerEpochRewards(store, date, rows, inp, reach);
    assert saved;
  }

  /** What the tree step leaves: the rows of the day with their recipients, the
      root and the proofs. */
  ghost predicate TreeStored(cfg: Config, out: Outside, date: int, start: Books, epochs: map<int, Epoch>, now: Books,
                             inp: Inputs)
    requires inp.questions != map[] && Resolved(cfg, out, inp) && AmountsFit(AmountsOf(cfg, out, inp)) && date in epochs
  {
    && now.epochs == epochs[date := epochs[date].(root := RootFor(out, AmountsOf(cfg, out, inp)))]
    && RowsStored(cfg, out, date, start, now.rewards, now.proofs, inp)
  }

  /** Step 8. Fails exactly when a recipient cannot be looked up. */
  method PayTree(store: EpochStore, cfg: Config, out: Outside, date: int, finals: map<Address, int>,
                 ghost start: Books, ghost inp: Inputs, ghost reach: Books -> bool)
    returns (ok: bool)
    requires Closed(date, inp, reach) && reach(store.Snapshot())
    requires inp.questions != map[] && NoOverflow(cfg, out, inp) && finals == Finals(cfg, AllStats(cfg, inp))
    requires date in store.epochs && store.epochs[date].root == None
    requires store.rewards == Without(start.rewards, date) + Keyed(date, Unaddressed(cfg, AllStats(cfg, inp)))
    requires store.proofs == Without(start.proofs, date)
    modifies store`rewards, store`epochs, store`proofs
    ensures reach(store.Snapshot())
    ensures ok <==> Resolved(cfg, out, inp)
    ensures ok ==> TreeStored(cfg, out, date, start, old(store.epochs), store.Snapshot(), inp)
  {
    ghost var stats := AllStats(cfg, inp);
    NothingLeft(cfg, start, date, stats);
    ok := BuildMerkleTree(store, out, date, finals, Without(start.rewards, date), Unaddressed(cfg, stats), inp, reach);
    if ok {
      RowsAddressed(cfg, out, stats);
    }
  }

  lemma QuestionersAreRated(cfg: Config, inp: Inputs)
    requires inp.questions != map[]
    ensures forall q :: q in inp.questions ==> inp.questions[q].questioner in Composites(AllStats(cfg, inp))
  {
    QuestionersAreWorkers(inp);
  }

  lemma ListedOnce(questions: seq<(nat, Question)>, inp: Inputs)
    requires Enumerates(questions, inp.questions)
    ensures ListsWindow(questions, inp)
  {
  }

  /** Step 7. */
  method MarkBenchmarks(store: EpochStore, cfg: Config, date: int, questions: seq<(nat, Question)>,
                        composites: map<Address, real>,
                        ghost start: Books, ghost inp: Inputs, ghost reach: Books -> bool)
    requires Closed(date, inp, reach) && reach(store.Snapshot())
    requires inp == InputsOf(start, date) && inp.questions != map[] && composites == Composites(AllStats(cfg, inp))
    requires Enumerates(questions, inp.questions) && store.db == Flagged(start.db, date, {})
    modifies store`db, store`qualified
    ensures reach(store.Snapshot()) && store.db == Flagged(start.db, date, Benchmarks(cfg, inp))
    ensures store.qualified == Raised(old(store.qualified), inp, Benchmarks(cfg, inp))
  {
    QuestionersAreRated(cfg, inp);
    ListedOnce(questions, inp);
    JudgeBenchmarks(store, cfg, date, questions, composites, start.db, inp, reach);
    QualifiedAreBenchmarks(cfg, inp, questions);
  }

  /** Steps 6 and 7: reward rows and benchmark flags. */
  method RewardAndMark(store: EpochStore, cfg: Config, date: int, questions: seq<(nat, Question)>,
                       stats: map<Address, Stats>, ghost start: Books, ghost inp: Inputs, ghost reach: Books -> bool)
    returns (finals: map<Address, int>)
    requires Closed(date, inp, reach) && reach(store.Snapshot())
    requires inp == InputsOf(start, date) && inp.questions != map[] && stats == AllStats(cfg, inp)
    requires Enumerates(questions, inp.questions) && store.db == Flagged(start.db, date, {})
    requires store.rewards == Without(start.rewards, date)
    modifies store`rewards, store`db, store`qualified
    ensures reach(store.Snapshot()) && finals == Finals(cfg, AllStats(cfg, inp))
    ensures store.rewards == Without(start.rewards, date) + Keyed(date, Unaddressed(cfg, AllStats(cfg, inp)))
    ensures store.db == Flagged(start.db, date, Benchmarks(cfg, inp))
    ensures store.qualified == Raised(old(store.qualified), inp, Benchmarks(cfg, inp))
  {
    var composites: map<Address, real>;
    composites, finals := SaveRewards(store, cfg, date, stats, start, inp, reach);
    MarkBenchmarks(store, cfg, date, questions, composites, start, inp, reach);
  }

  /** The books after steps 1 to 7, and the final rewards. */
  ghost predicate Rewarded(cfg: Config, date: int, start: Books, now: Books, finals: map<Address, int>, inp: Inputs)
    requires inp.questions != map[]
  {
    && finals == Finals(cfg, AllStats(cfg, inp))
    && now.db == Flagged(start.db, date, Benchmarks(cfg, inp)) && now.violations == start.violations
    && now.epochs == start.epochs[date := Epoch(cfg.totalReward, 0, false, None, false)]
    && now.rewards == Without(start.rewards, date) + Keyed(date, Unaddressed(cfg, AllStats(cfg, inp)))
    && now.proofs == Without(start.proofs, date)
  }

  /** Steps 3 to 7 for the listed questions. */
  method RewardDay(store: EpochStore, cfg: Config, date: int, questions: seq<(nat, Question)>,
                   ghost start: Books, ghost inp: Inputs, ghost reach: Books -> bool)
    returns (finals: map<Address, int>)
    requires Closed(date, inp, reach) && reach(store.Snapshot()) && CleanedUp(cfg, date, start, store.Snapshot())
    requires inp == InputsOf(start, date) && inp.questions != map[]
    requires Enumerates(questions, inp.questions) && |questions| == |inp.questions|
    modifies store
    ensures reach(store.Snapshot()) && Rewarded(cfg, date, start, store.Snapshot(), finals, inp)
    ensures store.qualified == Raised(old(store.qualified), inp, Benchmarks(cfg, inp))
  {
    FlaggedWindow(start.db, date, {});
    var stats := Gather(store, cfg, date, questions, inp);
    finals := RewardAndMark(store, cfg, date, questions, stats, start, inp, reach);
  }

  /** Steps 3 to 7: lists the day's questions and rewards them, if there are any. */
  method ListAndReward(store: EpochStore, cfg: Config, date: int,
                       ghost start: Books, ghost inp: Inputs, ghost reach: Books -> bool)
    returns (scored: nat, finals: map<Address, int>)
    requires Closed(date, inp, reach) && reach(store.Snapshot()) && CleanedUp(cfg, date, start, store.Snapshot())
    requires inp == InputsOf(start, date)
    modifies store
    ensures reach(store.Snapshot()) && scored == |inp.questions|
    ensures store.qualified == CountersAfter(cfg, date, start, old(store.qualified))
    ensures inp.questions == map[] ==> CleanedUp(cfg, date, start, store.Snapshot())
    ensures inp.questions != map[] ==> Rewarded(cfg, date, start, store.Snapshot(), finals, inp)
  {
    ListedInputs(start.db, date);
    var questions := store.ListScoredQuestionsInRange(date, date + DAY);
    ListLength(questions, inp.questions);
    scored, finals := |questions|, map[];
    if scored == 0 {
      NothingRaised(store.qualified, inp);
    } else {
      finals := RewardDay(store, cfg, date, questions, start, inp, reach);
    }
  }

  lemma EpochWrites(epochs: map<int, Epoch>, date: int, total: nat, root: Option<Hash>, scored: nat)
    ensures var reset := epochs[date := Epoch(total, 0, false, None, false)];
      var rooted := reset[date := reset[date].(root := root)];
      rooted[date := rooted[date].(totalScored := scored, settled := true)]
      == epochs[date := Epoch(total, scored, true, root, false)]
  {
  }

  /** Steps 8 to 10. Fails exactly when a recipient cannot be looked up. */
  method PayAndFinish(store: EpochStore, cfg: Config, out: Outside, date: int, finals: map<Address, int>,
                      totalQuestions: nat,
                      ghost start: Books, ghost inp: Inputs, ghost reach: Books -> bool)
    returns (ok: bool)
    requires Closed(date, inp, reach) && reach(store.Snapshot())
    requires inp.questions != map[] && NoOverflow(cfg, out, inp) && totalQuestions == |inp.questions|
    requires Rewarded(cfg, date, start, store.Snapshot(), finals, inp)
    modifies store`rewards, store`epochs, store`proofs, store`violations
    ensures reach(store.Snapshot())
    ensures ok <==> Resolved(cfg, out, inp)
    ensures ok ==> IsComplete(cfg, out, date, start, store.Snapshot(), inp)
  {
    ok := PayTree(store, cfg, out, date, finals, start, inp, reach);
    if !ok {
      return;
    }
    EpochWrites(start.epochs, date, cfg.totalReward, RootFor(out, AmountsOf(cfg, out, inp)), totalQuestions);
    store.FinishEpoch(date, totalQuestions, inp, reach);
    store.ResetAllEpochViolations(date, inp, reach);
  }

  /** Steps 3 to 10. */
  method SettleCleaned(store: EpochStore, cfg: Config, out: Outside, date: int,
                       ghost start: Books, ghost inp: Inputs, ghost reach: Books -> bool)
    returns (ok: bool)
    requires Closed(date, inp, reach) && reach(store.Snapshot()) && CleanedUp(cfg, date, start, store.Snapshot())
    requires inp == InputsOf(start, date) && NoOverflow(cfg, out, inp)
    modifies store
    ensures reach(store.Snapshot())
    ensures ok <==> Resolved(cfg, out, inp)
    ensures store.qualified == CountersAfter(cfg, date, start, old(store.qualified))
    ensures ok && inp.questions == map[] ==> IsCompleteEmpty(cfg, date, start, store.Snapshot())
    ensures ok && inp.questions != map[] ==> IsComplete(cfg, out, date, start, store.Snapshot(), inp)
  {
    var scored, finals := ListAndReward(store, cfg, date, start, inp, reach);
    if scored == 0 {
      store.FinishEpoch(date, 0, inp, reach);
      return true;
    }
    ok := PayAndFinish(store, cfg, out, date, finals, scored, start, inp, reach);
  }

  /** All calls of a settlement. */
  method SettleCalls(store: EpochStore, cfg: Config, out: Outside, date: int, ghost inp: Inputs,
                     ghost reach: Books -> bool)
    returns (ok: bool)
    requires Closed(date, inp, reach) && reach(store.Snapshot())
    requires inp == InputsOf(store.Snapshot(), date) && NoOverflow(cfg, out, inp)
    modifies store
    ensures reach(store.Snapshot())
    ensures ok <==> Resolved(cfg, out, inp)
    ensures store.qualified == CountersAfter(cfg, date, old(store.Snapshot()), old(store.qualified))
    ensures ok && inp.questions == map[] ==> IsCompleteEmpty(cfg, date, old(store.Snapshot()), store.Snapshot())
    ensures ok && inp.questions != map[] ==> IsComplete(cfg, out, date, old(store.Snapshot()), store.Snapshot(), inp)
  {
    ghost var start := store.Snapshot();
    CleanUp(store, cfg, date, inp, reach);
    ok := SettleCleaned(store, cfg, out, date, start, inp, reach);
  }

  lemma AlikeIsClosed(date: int, start: Books, inp: Inputs)
    requires inp == InputsOf(start, date)
    ensures Closed(date, inp, b => InputsOf(b, date) == inp && Alike(date, start, b))
    ensures Alike(date, start, start)
  {
    forall b: Books, op: Op |
      InputsOf(b, date) == inp && Alike(date, start, b) && OfSettlement(op, inp) && Exec(date, op, b).Some?
      ensures InputsOf(Exec(date, op, b).value, date) == inp && Alike(date, start, Exec(date, op, b).value)
    {
      ExecAlike(date, op, b);
      AlikeTransitive(date, start, b, Exec(date, op, b).value);
    }
  }

  /** Settles a day on any books, whatever an earlier run left there: it fails
      exactly when a recipient cannot be looked up, and otherwise leaves the books
      that its inputs determine. A failed run leaves books from which settling
      gives the same result. Either way the sets' counters of qualified questions
      go up once more. */
  method Settle(store: EpochStore, cfg: Config, out: Outside, date: int) returns (ok: bool)
    requires NoOverflow(cfg, out, InputsOf(store.Snapshot(), date))
    modifies store
    ensures ok <==> Resolved(cfg, out, InputsOf(old(store.Snapshot()), date))
    ensures ok ==> store.Snapshot() == SettledBooks(cfg, out, date, old(store.Snapshot()))
    ensures Alike(date, old(store.Snapshot()), store.Snapshot())
    ensures store.qualified == CountersAfter(cfg, date, old(store.Snapshot()), old(store.qualified))
  {
    ghost var start := store.Snapshot();
    ghost var inp := InputsOf(start, date);
    AlikeIsClosed(date, start, inp);
    ok := SettleCalls(store, cfg, out, date, inp, b => InputsOf(b, date) == inp && Alike(date, start, b));
    if ok {
      if inp.questions == map[] {
        EmptyIsSettled(cfg, out, date, start, store.Snapshot());
      } else {
        CompleteIsSettled(cfg, out, date, start, store.Snapshot(), inp);
      }
    }
  }
}
