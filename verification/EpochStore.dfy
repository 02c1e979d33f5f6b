/** The store calls of a settlement, updating the tables in place
    (internal/store/epoch.go, internal/store/merkle.go). */
module EpochStore {
  import opened Wrappers
  import opened Sets
  import opened Tables
  import opened Hashing
  import opened Settlement
  import opened Ledger
  import opened Restart
  import opened Aggregation

  function ScoredBetween(db: Db, start: int, end: int): map<nat, Question>
  {
    map q | q in db.questions && InWindow(db.questions[q], start, end) :: db.questions[q]
  }

  function FinishedFor(db: Db, ids: set<nat>): map<nat, Assignment>
  {
    map a | a in db.rows && db.rows[a].question in ids && IsFinished(db.rows[a]) :: db.rows[a]
  }

  function InvalidReportsIn(rows: Rows, q: nat): set<nat>
  {
    set a | a in rows && rows[a].question == q && rows[a].status == Scored && rows[a].reply.valid == Some(false)
  }

  /** A set of books that no call of a settlement of `inp` leads out of. */
  ghost predicate Closed(date: int, inp: Inputs, reach: Books -> bool)
  {
    forall b: Books, op: Op | reach(b) && OfSettlement(op, inp) && Exec(date, op, b).Some? ::
      reach(Exec(date, op, b).value)
  }

  /** Each call executes one Op, so it stays within every closed set of books. */
  class EpochStore {
    var db: Db
    var epochs: map<int, Epoch>
    var rewards: map<(int, Address), RewardRow>
    var proofs: map<(int, string), ProofRow>
    var violations: map<Address, nat>
    /** The sets' counters of qualified questions; no settlement reads or resets them. */
    var qualified: map<string, int>

    constructor (books: Books, counters: map<string, int>)
      ensures Snapshot() == books && qualified == counters
    {
      db, epochs, rewards, proofs, violations := books.db, books.epochs, books.rewards, books.proofs, books.violations;
      qualified := counters;
    }

    function Snapshot(): Books
      reads this
    {
      Books(db, epochs, rewards, proofs, violations)
    }

    /// ## Calls

    method CreateOrResetEpoch(date: int, total: nat, ghost inp: Inputs, ghost reach: Books -> bool)
      requires Closed(date, inp, reach) && reach(Snapshot())
      modifies `epochs
      ensures reach(Snapshot()) && epochs == old(epochs)[date := Epoch(total, 0, false, None, false)]
    {
      assert OfSettlement(ResetEpoch(total), inp) && Exec(date, ResetEpoch(total), Snapshot()).Some?;
      epochs := epochs[date := Epoch(total, 0, false, None, false)];
    }

    method DeleteEpochMerkleProofs(date: int, ghost inp: Inputs, ghost reach: Books -> bool)
      requires Closed(date, inp, reach) && reach(Snapshot())
      modifies `proofs
      ensures reach(Snapshot()) && proofs == Without(old(proofs), date)
    {
      assert OfSettlement(DeleteProofs, inp) && Exec(date, DeleteProofs, Snapshot()).Some?;
      proofs := Without(proofs, date);
    }

    method DeleteEpochRewards(date: int, ghost inp: Inputs, ghost reach: Books -> bool)
      requires Closed(date, inp, reach) && reach(Snapshot())
      modifies `rewards
      ensures reach(Snapshot()) && rewards == Without(old(rewards), date)
    {
      assert OfSettlement(DeleteRewards, inp) && Exec(date, DeleteRewards, Snapshot()).Some?;
      rewards := Without(rewards, date);
    }

    method ResetBenchmarkFlags(date: int, ghost inp: Inputs, ghost reach: Books -> bool)
      requires Closed(date, inp, reach) && reach(Snapshot())
      modifies `db
      ensures reach(Snapshot()) && db == Flagged(old(db), date, {})
    {
      assert OfSettlement(ResetFlags, inp) && Exec(date, ResetFlags, Snapshot()).Some?;
      db := Flagged(db, date, {});
    }

    /** Fails, changing nothing, when a row of the batch exists already. */
    method SaveRewardBatch(date: int, batch: map<Address, RewardRow>, ghost inp: Inputs, ghost reach: Books -> bool)
      returns (ok: bool)
      requires Closed(date, inp, reach) && reach(Snapshot())
      modifies `rewards
      ensures reach(Snapshot())
      ensures ok <==> forall w :: w in batch ==> (date, w) !in old(rewards)
      ensures rewards == if ok then old(rewards) + Keyed(date, batch) else old(rewards)
    {
      if exists w :: w in batch && (date, w) in rewards {
        return false;
      }
      assert OfSettlement(InsertRewards(batch), inp) && Exec(date, InsertRewards(batch), Snapshot()).Some?;
      rewards := rewards + Keyed(date, batch);
      return true;
    }

    /** Sets the flag and counts the question for its set. */
    method MarkBenchmark(ghost date: int, q: nat, bsId: string, ghost inp: Inputs, ghost reach: Books -> bool)
      requires Closed(date, inp, reach) && reach(Snapshot()) && q in inp.questions
      modifies `db, `qualified
      ensures reach(Snapshot()) && qualified == Incremented(old(qualified), bsId)
      ensures db == if q in old(db).questions
                    then old(db).(questions := old(db).questions[q := old(db).questions[q].(benchmark := true)])
                    else old(db)
    {
      assert OfSettlement(Op.MarkBenchmark(q), inp) && Exec(date, Op.MarkBenchmark(q), Snapshot()).Some?;
      if q in db.questions {
        db := db.(questions := db.questions[q := db.questions[q].(benchmark := true)]);
      }
      if bsId in qualified {
        qualified := qualified[bsId := qualified[bsId] + 1];
      }
    }

    method SetWorkerEpochRecipient(date: int, w: Address, r: string, ghost inp: Inputs, ghost reach: Books -> bool)
      requires Closed(date, inp, reach) && reach(Snapshot())
      modifies `rewards
      ensures reach(Snapshot())
      ensures rewards == if (date, w) in old(rewards)
                         then old(rewards)[(date, w) := old(rewards)[(date, w)].(recipient := Some(r))]
                         else old(rewards)
    {
      assert OfSettlement(SetRecipient(w, r), inp) && Exec(date, SetRecipient(w, r), Snapshot()).Some?;
      if (date, w) in rewards {
        rewards := rewards[(date, w) := rewards[(date, w)].(recipient := Some(r))];
      }
    }

    method SetEpochMerkleRoot(date: int, h: Hash, ghost inp: Inputs, ghost reach: Books -> bool)
      requires Closed(date, inp, reach) && reach(Snapshot())
      modifies `epochs
      ensures reach(Snapshot())
      ensures epochs == if date in old(epochs)
                        then old(epochs)[date := old(epochs)[date].(root := Some(h))]
                        else old(epochs)
    {
      assert OfSettlement(SetRoot(h), inp) && Exec(date, SetRoot(h), Snapshot()).Some?;
      if date in epochs {
        epochs := epochs[date := epochs[date].(root := Some(h))];
      }
    }

    /** Fails, changing nothing, when the recipient has a proof already. */
    method SaveMerkleProof(date: int, r: string, row: ProofRow, ghost inp: Inputs, ghost reach: Books -> bool)
      returns (ok: bool)
      requires Closed(date, inp, reach) && reach(Snapshot())
      modifies `proofs
      ensures reach(Snapshot()) && ok == ((date, r) !in old(proofs))
      ensures proofs == if ok then old(proofs)[(date, r) := row] else old(proofs)
    {
      if (date, r) in proofs {
        return false;
      }
      assert OfSettlement(InsertProof(r, row), inp) && Exec(date, InsertProof(r, row), Snapshot()).Some?;
      proofs := proofs[(date, r) := row];
      return true;
    }

    method FinishEpoch(date: int, total: nat, ghost inp: Inputs, ghost reach: Books -> bool)
      requires Closed(date, inp, reach) && reach(Snapshot())
      modifies `epochs
      ensures reach(Snapshot())
      ensures epochs == if date in old(epochs)
                        then old(epochs)[date := old(epochs)[date].(totalScored := total, settled := true)]
                        else old(epochs)
    {
      assert OfSettlement(Finish(total), inp) && Exec(date, Finish(total), Snapshot()).Some?;
      if date in epochs {
        epochs := epochs[date := epochs[date].(totalScored := total, settled := true)];
      }
    }

    method ResetAllEpochViolations(ghost date: int, ghost inp: Inputs, ghost reach: Books -> bool)
      requires Closed(date, inp, reach) && reach(Snapshot()) && inp.questions != map[]
      modifies `violations
      ensures reach(Snapshot()) && violations == Zeroed(old(violations))
    {
      assert OfSettlement(ResetViolations, inp) && Exec(date, ResetViolations, Snapshot()).Some?;
      violations := Zeroed(violations);
    }

    /// ## Queries

    /** In the order of scoring. */
    method ListScoredQuestionsInRange(start: int, end: int) returns (list: seq<(nat, Question)>)
      ensures Enumerates(list, ScoredBetween(db, start, end))
      ensures forall i, j :: 0 <= i < j < |list| ==> list[i].1.scoredAt <= list[j].1.scoredAt
    {
      var m := ScoredBetween(db, start, end);
      list := ListOrdered(m, q => if q in m then (m[q].scoredAt, 0) else (0, 0));
    }

    /** The scored and timed-out rows of the listed questions, question by question
        and the oldest first. */
    method ListScoredAssignmentsForQuestions(ids: set<nat>) returns (list: seq<(nat, Assignment)>)
      ensures Enumerates(list, FinishedFor(db, ids))
      ensures forall i, j :: 0 <= i < j < |list| ==>
        list[i].1.question < list[j].1.question || (list[i].1.question == list[j].1.question && list[i].0 < list[j].0)
    {
      var m := FinishedFor(db, ids);
      list := ListOrdered(m, a => if a in m then (m[a].question, a) else (0, 0));
    }

    /** Counts the scored answers that call the question invalid one by one. */
    method CountInvalidReports(q: nat) returns (count: nat)
      ensures count == |InvalidReportsIn(db.rows, q)|
    {
      count := 0;
      var todo := db.rows.Keys;
      while todo != {}
        invariant todo <= db.rows.Keys
        invariant count == |InvalidReportsIn(db.rows, q) - todo|
        decreases todo
      {
        var a :| a in todo;
        CountOne(InvalidReportsIn(db.rows, q), todo, a);
        var row := db.rows[a];
        if row.question == q && row.status == Scored && row.reply.valid == Some(false) {
          count := count + 1;
        }
        todo := todo - {a};
      }
      assert InvalidReportsIn(db.rows, q) - todo == InvalidReportsIn(db.rows, q);
    }
  }

  /** All entries of a map, in some order. */
  method ListRows<K(==, !new), V(!new)>(m: map<K, V>) returns (list: seq<(K, V)>)
    ensures Enumerates(list, m)
  {
    list := [];
    var todo := m.Keys;
    while todo != {}
      invariant todo <= m.Keys
      invariant Enumerates(list, m - todo)
      decreases todo
    {
      var k :| k in todo;
      EnumeratesAppend(list, m - todo, k, m[k]);
      assert m - (todo - {k}) == (m - todo)[k := m[k]];
      list := list + [(k, m[k])];
      todo := todo - {k};
    }
    assert m - todo == m;
  }

  predicate Ordered<K, V>(list: seq<(K, V)>, rank: K -> Rank)
  {
    forall i, j :: 0 <= i < j < |list| ==> AtMost(rank(list[i].0), rank(list[j].0))
  }

  predicate AllAtMost<K, V>(list: seq<(K, V)>, rank: K -> Rank, todo: set<K>)
  {
    forall i, k :: 0 <= i < |list| && k in todo ==> AtMost(rank(list[i].0), rank(k))
  }

  lemma OrderedNext<K(!new), V>(list: seq<(K, V)>, rank: K -> Rank, todo: set<K>, k: K, v: V)
    requires Ordered(list, rank) && AllAtMost(list, rank, todo) && IsLeast(todo, rank, k)
    ensures Ordered(list + [(k, v)], rank) && AllAtMost(list + [(k, v)], rank, todo - {k})
  {
  }

  /** All entries of a map, by rank. */
  method ListOrdered<K(==, !new), V(!new)>(m: map<K, V>, rank: K -> Rank) returns (list: seq<(K, V)>)
    ensures Enumerates(list, m) && Ordered(list, rank)
  {
    list := [];
    var todo := m.Keys;
    while todo != {}
      invariant todo <= m.Keys
      invariant Enumerates(list, m - todo)
      invariant Ordered(list, rank) && AllAtMost(list, rank, todo)
      decreases todo
    {
      ghost var least := LeastOf(todo, rank);
      var k :| k in todo && IsLeast(todo, rank, k);
      OrderedNext(list, rank, todo, k, m[k]);
      EnumeratesAppend(list, m - todo, k, m[k]);
      assert m - (todo - {k}) == (m - todo)[k := m[k]];
      list := list + [(k, m[k])];
      todo := todo - {k};
    }
    assert m - todo == m;
  }
}
