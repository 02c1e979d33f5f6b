/** Settle and buildMerkleTree, call by call (internal/service/settlement.go). */
module SettlementService {
  import opened Wrappers
  import opened Sums
  import opened Tables
  import opened Settlement
  import opened Ledger
  import opened Restart
  import opened Aggregation
  import opened EpochStore
  import opened MerkleRows

  /// ## Rewards

  /** The reward rows before any recipient is known. */
  function Unaddressed(cfg: Config, stats: map<Address, Stats>): map<Address, RewardRow>
  {
    map w | w in stats ::
      RewardRow(None, stats[w], StoredComposite(Composite(stats[w])), Final(cfg, stats[w]))
  }

  function Addressed(rows: map<Address, RewardRow>, known: map<Address, string>): map<Address, RewardRow>
  {
    map w | w in rows :: if w in known then rows[w].(recipient := Some(known[w])) else rows[w]
  }

  method CompositeScore(s: Stats) returns (composite: real)
    ensures composite == Composite(s)
  {
    var askAvg, ansAvg := 0.0, 0.0;
    var hasAsks, hasAnswers := s.scoredAsks > 0, s.scoredAnswers + s.timedOutAnswers > 0;
    if hasAsks {
      askAvg := s.askScoreSum as real / s.scoredAsks as real;
    }
    if hasAnswers {
      ansAvg := s.answerScoreSum as real / (s.scoredAnswers + s.timedOutAnswers) as real;
    }
    composite := 0.0;
    if hasAsks && hasAnswers {
      composite := (askAvg + ansAvg) / 10.0;
    } else if hasAsks {
      composite := askAvg / 10.0;
    } else if hasAnswers {
      composite := ansAvg / 10.0;
    }
  }

  method FinalReward(cfg: Config, s: Stats, composite: real) returns (finalReward: int)
    requires composite == Composite(s)
    ensures finalReward == Final(cfg, s)
  {
    var scoredTasks := s.scoredAsks + s.scoredAnswers;
    finalReward := 0;
    if scoredTasks >= cfg.minTasks {
      finalReward := (s.rawReward as real * composite).Floor;
    }
  }

  ghost predicate Computed(cfg: Config, stats: map<Address, Stats>, rows: seq<(Address, RewardRow)>,
                           composites: map<Address, real>, finals: map<Address, int>)
  {
    Enumerates(rows, Unaddressed(cfg, stats)) && composites == Composites(stats) && finals == Finals(cfg, stats)
  }

  lemma ComputedStep(cfg: Config, stats: map<Address, Stats>, rows: seq<(Address, RewardRow)>,
                     composites: map<Address, real>, finals: map<Address, int>,
                     w: Address, s: Stats, composite: real, final: int)
    requires Computed(cfg, stats, rows, composites, finals) && w !in stats
    requires composite == Composite(s) && final == Final(cfg, s)
    ensures Computed(cfg, stats[w := s], rows + [(w, RewardRow(None, s, StoredComposite(composite), final))],
                     composites[w := composite], finals[w := final])
  {
    var row := RewardRow(None, s, StoredComposite(composite), final);
    EnumeratesAppend(rows, Unaddressed(cfg, stats), w, row);
    UnaddressedInsert(cfg, stats, w, s);
    ScoresInsert(cfg, stats, w, s);
  }

  lemma ScoresInsert(cfg: Config, stats: map<Address, Stats>, w: Address, s: Stats)
    ensures Composites(stats[w := s]) == Composites(stats)[w := Composite(s)]
    ensures Finals(cfg, stats[w := s]) == Finals(cfg, stats)[w := Final(cfg, s)]
  {
  }

  lemma UnaddressedInsert(cfg: Config, stats: map<Address, Stats>, w: Address, s: Stats)
    ensures Unaddressed(cfg, stats[w := s])
         == Unaddressed(cfg, stats)[w := RewardRow(None, s, StoredComposite(Composite(s)), Final(cfg, s))]
  {
  }

  lemma NothingComputed(cfg: Config)
    ensures Computed(cfg, map[], [], map[], map[])
  {
  }

  /** One pass over the records, in any order. */
  method ComputeRewards(cfg: Config, stats: map<Address, Stats>)
    returns (rows: seq<(Address, RewardRow)>, composites: map<Address, real>, finals: map<Address, int>)
    ensures Computed(cfg, stats, rows, composites, finals)
  {
    rows, composites, finals := [], map[], map[];
    var todo := stats.Keys;
    ghost var done: map<Address, Stats> := map[];
    NothingComputed(cfg);
    while todo != {}
      invariant todo <= stats.Keys && done == stats - todo
      invariant Computed(cfg, done, rows, composites, finals)
      decreases todo
    {
      var w :| w in todo;
      var s := stats[w];
      var composite := CompositeScore(s);
      var finalReward := FinalReward(cfg, s, composite);
      ComputedStep(cfg, done, rows, composites, finals, w, s, composite, finalReward);
      rows := rows + [(w, RewardRow(None, s, StoredComposite(composite), finalReward))];
      composites, finals := composites[w := composite], finals[w := finalReward];
      done, todo := done[w := s], todo - {w};
    }
    assert done == stats;
  }

  lemma {:induction false} MapOfAppend<K(!new), V(!new)>(a: seq<(K, V)>, b: seq<(K, V)>)
    ensures MapOf(a + b) == MapOf(a) + MapOf(b)
    decreases |b|
  {
    if b == [] {
      assert a + b == a;
    } else {
      MapOfAppend(a, b[..|b| - 1]);
      assert (a + b)[..|a + b| - 1] == a + b[..|b| - 1];
    }
  }

  ghost predicate DistinctKeys<K(!new), V(!new)>(list: seq<(K, V)>)
  {
    forall i, j :: 0 <= i < j < |list| ==> list[i].0 != list[j].0
  }

  lemma NextBatch(list: seq<(Address, RewardRow)>, i: nat, end: nat)
    requires DistinctKeys(list) && i <= end <= |list|
    ensures MapOf(list[..end]) == MapOf(list[..i]) + MapOf(list[i..end])
    ensures MapOf(list[..i]).Keys !! MapOf(list[i..end]).Keys
  {
    assert list[..end] == list[..i] + list[i..end];
    MapOfAppend(list[..i], list[i..end]);
    MapOfKeys(list[..i]);
    MapOfKeys(list[i..end]);
    forall k | k in MapOf(list[i..end]) ensures k !in MapOf(list[..i]) {
      var b :| 0 <= b < end - i && list[i..end][b].0 == k;
      assert list[i + b].0 == k;
    }
  }

  lemma KeyedSum<K(!new), V>(date: int, base: map<(int, K), V>, m: map<K, V>, n: map<K, V>)
    ensures base + Keyed(date, m) + Keyed(date, n) == base + Keyed(date, m + n)
  {
  }

  lemma InsertedStep(date: int, was: map<(int, Address), RewardRow>, list: seq<(Address, RewardRow)>, i: nat, end: nat)
    requires DistinctKeys(list) && i <= end <= |list|
    ensures var done, batch := MapOf(list[..i]), MapOf(list[i..end]);
      && was + Keyed(date, done) + Keyed(date, batch) == was + Keyed(date, MapOf(list[..end]))
      && (Fresh(date, was, done) ==>
            (Fresh(date, was + Keyed(date, done), batch) <==> Fresh(date, was, MapOf(list[..end]))))
  {
    NextBatch(list, i, end);
    KeyedSum(date, was, MapOf(list[..i]), MapOf(list[i..end]));
  }

  lemma {:induction false} PrefixFresh(date: int, was: map<(int, Address), RewardRow>, list: seq<(Address, RewardRow)>,
                                       end: nat)
    requires end <= |list| && Fresh(date, was, MapOf(list))
    ensures Fresh(date, was, MapOf(list[..end]))
  {
    assert list == list[..end] + list[end..];
    MapOfAppend(list[..end], list[end..]);
  }

  /** None of the rows exists yet. */
  predicate Fresh(date: int, was: map<(int, Address), RewardRow>, rows: map<Address, RewardRow>)
  {
    forall w :: w in rows ==> (date, w) !in was
  }

  /** Inserts in batches of 100; stops at the first primary key that exists. */
  method BatchSaveWorkerEpochRewards(store: EpochStore, date: int, list: seq<(Address, RewardRow)>,
                                     ghost inp: Inputs, ghost reach: Books -> bool)
    returns (ok: bool)
    requires DistinctKeys(list) && Closed(date, inp, reach) && reach(store.Snapshot())
    modifies store`rewards
    ensures reach(store.Snapshot())
    ensures ok <==> Fresh(date, old(store.rewards), MapOf(list))
    ensures ok ==> store.rewards == old(store.rewards) + Keyed(date, MapOf(list))
  {
    ghost var was := store.rewards;
    var i := 0;
    while i < |list|
      invariant 0 <= i <= |list|
      invariant reach(store.Snapshot())
      invariant store.rewards == was + Keyed(date, MapOf(list[..i]))
      invariant Fresh(date, was, MapOf(list[..i]))
    {
      var end := if i + 100 > |list| then |list| else i + 100;
      InsertedStep(date, was, list, i, end);
      var saved := store.SaveRewardBatch(date, MapOf(list[i..end]), inp, reach);
      if !saved {
        assert !Fresh(date, was, MapOf(list[..end]));
        if Fresh(date, was, MapOf(list)) { PrefixFresh(date, was, list, end); }
        return false;
      }
      i := end;
    }
    assert list[..|list|] == list;
    return true;
  }

  /// ## Benchmarks

  lemma ReportsOfWindow(db: Db, date: int, q: nat)
    requires q in Window(db, date, date + DAY).questions
    ensures InvalidReportsIn(db.rows, q) == InvalidReports(Window(db, date, date + DAY), q)
  {
  }

  ghost predicate Qualifies(cfg: Config, inp: Inputs, composites: map<Address, real>, q: nat)
  {
    q in inp.questions && inp.questions[q].questioner in composites && IsBenchmark(cfg, inp, composites, q)
  }

  /** The questions among the first `i` of the list that qualify. */
  ghost function Qualified(cfg: Config, inp: Inputs, composites: map<Address, real>, list: seq<(nat, Question)>,
                           i: nat): set<nat>
    requires i <= |list|
  {
    if i == 0 then {}
    else
      Qualified(cfg, inp, composites, list, i - 1)
      + (if Qualifies(cfg, inp, composites, list[i - 1].0) then {list[i - 1].0} else {})
  }

  lemma {:induction false} QualifiedMembers(cfg: Config, inp: Inputs, composites: map<Address, real>,
                                            list: seq<(nat, Question)>, i: nat, q: nat)
    requires i <= |list|
    ensures q in Qualified(cfg, inp, composites, list, i) <==>
      Qualifies(cfg, inp, composites, q) && exists k :: 0 <= k < i && list[k].0 == q
    decreases i
  {
    if i > 0 {
      QualifiedMembers(cfg, inp, composites, list, i - 1, q);
    }
  }

  lemma FlagOneMore(db: Db, date: int, marks: set<nat>, q: nat)
    requires q in db.questions && InWindow(db.questions[q], date, date + DAY)
    ensures var flagged := Flagged(db, date, marks);
      && q in flagged.questions
      && flagged.(questions := flagged.questions[q := flagged.questions[q].(benchmark := true)])
         == Flagged(db, date, marks + {q})
  {
    var flagged := Flagged(db, date, marks);
    assert flagged.questions[q := flagged.questions[q].(benchmark := true)] == Flagged(db, date, marks + {q}).questions;
  }

  /** The three tests for one question. */
  method IsQualified(store: EpochStore, cfg: Config, date: int, q: nat, question: Question,
                     composites: map<Address, real>,
                     ghost inp: Inputs)
    returns (yes: bool)
    requires inp == Window(store.db, date, date + DAY) && q in inp.questions && inp.questions[q] == question
    requires question.questioner in composites
    ensures yes == Qualifies(cfg, inp, composites, q)
  {
    if question.score < 4 {
      return false;
    }
    var invalidCount := store.CountInvalidReports(q);
    ReportsOfWindow(store.db, date, q);
    if invalidCount > 1 {
      return false;
    }
    return composites[question.questioner] >= cfg.benchmarkMinScore;
  }

  lemma FlaggedWindow(db: Db, date: int, marks: set<nat>)
    ensures Window(Flagged(db, date, marks), date, date + DAY) == Window(db, date, date + DAY)
  {
    FlagsDoNotMatter(db, date, marks);
  }

  lemma InWindowNow(db: Db, date: int, q: nat)
    requires q in Window(db, date, date + DAY).questions
    ensures q in db.questions && InWindow(db.questions[q], date, date + DAY)
  {
  }

  lemma QualifiedStep(cfg: Config, inp: Inputs, composites: map<Address, real>, list: seq<(nat, Question)>, i: nat)
    requires i < |list|
    ensures var q := list[i].0;
      Qualified(cfg, inp, composites, list, i + 1)
      == if Qualifies(cfg, inp, composites, q) then Qualified(cfg, inp, composites, list, i) + {q}
         else Qualified(cfg, inp, composites, list, i)
  {
  }

  /** Marks one question if it qualifies. */
  method JudgeOne(store: EpochStore, cfg: Config, date: int, q: nat, question: Question, composites: map<Address, real>,
                  ghost db: Db, ghost marks: set<nat>, ghost inp: Inputs, ghost reach: Books -> bool)
    requires inp == Window(store.db, date, date + DAY) && store.db == Flagged(db, date, marks)
    requires Closed(date, inp, reach) && reach(store.Snapshot())
    requires q in inp.questions && inp.questions[q] == question && question.questioner in composites
    modifies store`db, store`qualified
    ensures reach(store.Snapshot())
    ensures store.db == Flagged(db, date, if Qualifies(cfg, inp, composites, q) then marks + {q} else marks)
    ensures store.qualified == if Qualifies(cfg, inp, composites, q)
                               then Incremented(old(store.qualified), question.bsId)
                               else old(store.qualified)
  {
    FlaggedWindow(db, date, marks);
    var yes := IsQualified(store, cfg, date, q, question, composites, inp);
    if yes {
      InWindowNow(db, date, q);
      FlagOneMore(db, date, marks, q);
      store.MarkBenchmark(date, q, question.bsId, inp, reach);
    }
  }

  /** The counters once the first `i` questions of the list are judged. */
  ghost function CountedUpTo(counters: map<string, int>, cfg: Config, inp: Inputs, composites: map<Address, real>,
                             list: seq<(nat, Question)>, i: nat): map<string, int>
    requires i <= |list|
  {
    Raised(counters, inp, Qualified(cfg, inp, composites, list, i))
  }

  lemma CountedStep(counters: map<string, int>, cfg: Config, inp: Inputs, composites: map<Address, real>,
                    list: seq<(nat, Question)>, i: nat)
    requires i < |list| && list[i].0 in inp.questions && forall k :: 0 <= k < i ==> list[k].0 != list[i].0
    ensures var q := list[i].0;
      CountedUpTo(counters, cfg, inp, composites, list, i + 1)
      == if Qualifies(cfg, inp, composites, q)
         then Incremented(CountedUpTo(counters, cfg, inp, composites, list, i), inp.questions[q].bsId)
         else CountedUpTo(counters, cfg, inp, composites, list, i)
  {
    QualifiedStep(cfg, inp, composites, list, i);
    QualifiedMembers(cfg, inp, composites, list, i, list[i].0);
    RaisedByOne(counters, inp, Qualified(cfg, inp, composites, list, i), list[i].0);
  }

  /** The list holds questions of the window, each once. */
  ghost predicate ListsWindow(list: seq<(nat, Question)>, inp: Inputs)
  {
    && (forall i, j :: 0 <= i < j < |list| ==> list[i].0 != list[j].0)
    && (forall i :: 0 <= i < |list| ==> list[i].0 in inp.questions && inp.questions[list[i].0] == list[i].1)
  }

  /** Judges question `i` of the list. */
  method JudgeNext(store: EpochStore, cfg: Config, date: int, list: seq<(nat, Question)>, i: nat,
                   composites: map<Address, real>,
                   ghost db: Db, ghost counters: map<string, int>, ghost inp: Inputs, ghost reach: Books -> bool)
    requires i < |list| && ListsWindow(list, inp) && inp.questions[list[i].0].questioner in composites
    requires inp == Window(db, date, date + DAY)
    requires store.db == Flagged(db, date, Qualified(cfg, inp, composites, list, i))
    requires store.qualified == CountedUpTo(counters, cfg, inp, composites, list, i)
    requires Closed(date, inp, reach) && reach(store.Snapshot())
    modifies store`db, store`qualified
    ensures reach(store.Snapshot())
    ensures store.db == Flagged(db, date, Qualified(cfg, inp, composites, list, i + 1))
    ensures store.qualified == CountedUpTo(counters, cfg, inp, composites, list, i + 1)
  {
    FlaggedWindow(db, date, Qualified(cfg, inp, composites, list, i));
    QualifiedStep(cfg, inp, composites, list, i);
    CountedStep(counters, cfg, inp, composites, list, i);
    JudgeOne(store, cfg, date, list[i].0, list[i].1, composites, db,
             Qualified(cfg, inp, composites, list, i), inp, reach);
  }

  /** Marks exactly the questions that qualify, and counts them. */
  method JudgeBenchmarks(store: EpochStore, cfg: Config, date: int, list: seq<(nat, Question)>,
                         composites: map<Address, real>,
                         ghost db: Db, ghost inp: Inputs, ghost reach: Books -> bool)
    requires inp == Window(db, date, date + DAY) && store.db == Flagged(db, date, {})
    requires Closed(date, inp, reach) && reach(store.Snapshot()) && ListsWindow(list, inp)
    requires forall q :: q in inp.questions ==> inp.questions[q].questioner in composites
    modifies store`db, store`qualified
    ensures reach(store.Snapshot())
    ensures store.db == Flagged(db, date, Qualified(cfg, inp, composites, list, |list|))
    ensures store.qualified == Raised(old(store.qualified), inp, Qualified(cfg, inp, composites, list, |list|))
  {
    NothingRaised(store.qualified, inp);
    for i := 0 to |list|
      invariant reach(store.Snapshot())
      invariant store.db == Flagged(db, date, Qualified(cfg, inp, composites, list, i))
      invariant store.qualified == CountedUpTo(old(store.qualified), cfg, inp, composites, list, i)
    {
      JudgeNext(store, cfg, date, list, i, composites, db, old(store.qualified), inp, reach);
    }
  }

  /// ## The Merkle tree

  /** Known recipients of the workers in `some`. */
  function KnownRecipients(out: Outside, some: map<Address, int>): map<Address, string>
  {
    map w | w in some && out.lookup(w).Some? :: out.lookup(w).value
  }

  function Plus(amounts: map<string, int>, r: string, v: int): map<string, int>
  {
    amounts[r := (if r in amounts then amounts[r] else 0) + v]
  }

  /** A group's total grows by the new worker's reward, if it joins the group. */
  lemma GroupInsert(payable: map<Address, int>, recipient: map<Address, string>, w: Address, v: int, g: string)
    requires w !in payable && w in recipient && payable.Keys <= recipient.Keys
    ensures Total(Part(payable[w := v], recipient, g))
         == Total(Part(payable, recipient, g)) + (if g == recipient[w] then v else 0)
    ensures (forall x :: x in payable ==> recipient[x] != g) ==> Total(Part(payable, recipient, g)) == 0
  {
    if g == recipient[w] {
      assert Part(payable[w := v], recipient, g) == Part(payable, recipient, g)[w := v];
      TotalInsert(Part(payable, recipient, g), w, v);
    } else {
      assert Part(payable[w := v], recipient, g) == Part(payable, recipient, g);
    }
    if forall x :: x in payable ==> recipient[x] != g {
      assert Part(payable, recipient, g) == map[];
    }
  }

  lemma GroupsInsert(payable: map<Address, int>, recipient: map<Address, string>, w: Address, v: int)
    requires w in recipient && payable.Keys <= recipient.Keys
    ensures LeafAmounts(payable[w := v], recipient).Keys == LeafAmounts(payable, recipient).Keys + {recipient[w]}
  {
    var more := payable[w := v];
    forall x | x in more ensures recipient[x] in LeafAmounts(payable, recipient).Keys + {recipient[w]} {
      if x in payable { assert recipient[x] in LeafAmounts(payable, recipient); }
    }
    assert w in more && recipient[w] in LeafAmounts(more, recipient);
    forall x | x in payable ensures recipient[x] in LeafAmounts(more, recipient) {
      assert x in more;
    }
  }

  lemma LeafAmountsInsert(payable: map<Address, int>, recipient: map<Address, string>, w: Address, v: int)
    requires w !in payable && w in recipient && payable.Keys <= recipient.Keys
    ensures LeafAmounts(payable[w := v], recipient) == Plus(LeafAmounts(payable, recipient), recipient[w], v)
  {
    var amounts, more := LeafAmounts(payable, recipient), LeafAmounts(payable[w := v], recipient);
    GroupsInsert(payable, recipient, w, v);
    forall g | g in more ensures more[g] == Plus(amounts, recipient[w], v)[g] {
      GroupInsert(payable, recipient, w, v, g);
    }
  }

  function Noted(now: map<(int, Address), RewardRow>, date: int, w: Address, r: string): map<(int, Address), RewardRow>
  {
    if (date, w) in now then now[(date, w) := now[(date, w)].(recipient := Some(r))] else now
  }

  lemma AddressedStep(date: int, base: map<(int, Address), RewardRow>, rows: map<Address, RewardRow>,
                      known: map<Address, string>, w: Address, r: string)
    requires w in rows && w !in known
    ensures Noted(base + Keyed(date, Addressed(rows, known)), date, w, r)
         == base + Keyed(date, Addressed(rows, known[w := r]))
  {
    var now := base + Keyed(date, Addressed(rows, known));
    assert Keyed(date, Addressed(rows, known[w := r]))
      == Keyed(date, Addressed(rows, known))[(date, w) := rows[w].(recipient := Some(r))];
  }

  ghost predicate RecipientsOf(out: Outside, eligible: seq<(Address, int)>, recipients: seq<string>)
  {
    |recipients| == |eligible| && forall i :: 0 <= i < |eligible| ==> out.lookup(eligible[i].0) == Some(recipients[i])
  }

  /** Looks up every payable worker; None when one lookup fails. */
  method ResolveRecipients(out: Outside, eligible: seq<(Address, int)>) returns (r: Option<seq<string>>)
    ensures r.Some? <==> forall i :: 0 <= i < |eligible| ==> out.lookup(eligible[i].0).Some?
    ensures r.Some? ==> RecipientsOf(out, eligible, r.value)
  {
    var found: seq<string> := [];
    for i := 0 to |eligible|
      invariant |found| == i
      invariant forall k :: 0 <= k < i ==> out.lookup(eligible[k].0) == Some(found[k])
    {
      var recipient := out.lookup(eligible[i].0);
      if recipient.None? {
        return None;
      }
      found := found + [recipient.value];
    }
    return Some(found);
  }

  function EligibleOf(list: seq<(Address, int)>): seq<(Address, int)>
  {
    if list == [] then []
    else
      EligibleOf(list[..|list| - 1]) + (if list[|list| - 1].1 <= 0 then [] else [list[|list| - 1]])
  }

  lemma {:induction false} EligibleEnumerates(list: seq<(Address, int)>)
    requires DistinctKeys(list)
    ensures Enumerates(EligibleOf(list), Payable(MapOf(list)))
    decreases |list|
  {
    if list != [] {
      var front := list[..|list| - 1];
      var (w, reward) := list[|list| - 1];
      EligibleEnumerates(front);
      MapOfKeys(front);
      forall i | 0 <= i < |front| ensures front[i].0 != w {
        assert front[i].0 == list[i].0;
      }
      if reward <= 0 {
        assert Payable(MapOf(list)) == Payable(MapOf(front));
        assert EligibleOf(list) == EligibleOf(front);
      } else {
        EnumeratesAppend(EligibleOf(front), Payable(MapOf(front)), w, reward);
        assert Payable(MapOf(list)) == Payable(MapOf(front))[w := reward];
        assert EligibleOf(list) == EligibleOf(front) + [(w, reward)];
      }
    }
  }

  /** The workers with a positive final reward, in any order. */
  method EligibleWorkers(finals: map<Address, int>) returns (eligible: seq<(Address, int)>)
    ensures Enumerates(eligible, Payable(finals))
  {
    var list := ListRows(finals);
    eligible := [];
    for i := 0 to |list|
      invariant eligible == EligibleOf(list[..i])
    {
      assert list[..i + 1][..i] == list[..i];
      if list[i].1 <= 0 {
        continue;
      }
      eligible := eligible + [list[i]];
    }
    WholeList(list, finals);
    EligibleEnumerates(list);
    assert list[..|list|] == list;
  }

  /** The running sums per recipient. */
  function AddedUp(eligible: seq<(Address, int)>, recipients: seq<string>): map<string, int>
    requires |recipients| == |eligible|
  {
    if eligible == [] then map[]
    else
      var last := |eligible| - 1;
      Plus(AddedUp(eligible[..last], recipients[..last]), recipients[last], eligible[last].1)
  }

  /** The reward rows as the recipients are noted one by one. */
  function NotedIn(was: map<(int, Address), RewardRow>, date: int, eligible: seq<(Address, int)>,
                   recipients: seq<string>):
    map<(int, Address), RewardRow>
    requires |recipients| == |eligible|
  {
    if eligible == [] then was
    else
      var last := |eligible| - 1;
      Noted(NotedIn(was, date, eligible[..last], recipients[..last]), date, eligible[last].0, recipients[last])
  }

  lemma PrefixSteps(was: map<(int, Address), RewardRow>, date: int, eligible: seq<(Address, int)>,
                    recipients: seq<string>, i: nat)
    requires |recipients| == |eligible| && i < |eligible|
    ensures AddedUp(eligible[..i + 1], recipients[..i + 1])
         == Plus(AddedUp(eligible[..i], recipients[..i]), recipients[i], eligible[i].1)
    ensures NotedIn(was, date, eligible[..i + 1], recipients[..i + 1])
         == Noted(NotedIn(was, date, eligible[..i], recipients[..i]), date, eligible[i].0, recipients[i])
  {
    assert eligible[..i + 1][..i] == eligible[..i] && recipients[..i + 1][..i] == recipients[..i];
  }

  lemma KnownStep(out: Outside, eligible: seq<(Address, int)>, payable: map<Address, int>, i: nat, r: string)
    requires Enumerates(eligible, payable) && i < |eligible| && out.lookup(eligible[i].0) == Some(r)
    ensures var done := MapOf(eligible[..i]);
      && eligible[i].0 !in done && eligible[i].0 in payable
      && MapOf(eligible[..i + 1]) == done[eligible[i].0 := eligible[i].1]
      && KnownRecipients(out, MapOf(eligible[..i + 1])) == KnownRecipients(out, done)[eligible[i].0 := r]
      && done.Keys <= payable.Keys
  {
    NextIsNew(eligible, payable, i);
    MapOfKeys(eligible[..i]);
  }

  lemma {:induction false} AddedUpIsLeafAmounts(out: Outside, eligible: seq<(Address, int)>, recipients: seq<string>,
                                                payable: map<Address, int>, i: nat)
    requires Enumerates(eligible, payable) && RecipientsOf(out, eligible, recipients) && i <= |eligible|
    requires forall w :: w in payable ==> out.lookup(w).Some?
    ensures MapOf(eligible[..i]).Keys <= payable.Keys
    ensures AddedUp(eligible[..i], recipients[..i]) == LeafAmounts(MapOf(eligible[..i]), Recipients(out, payable))
    decreases i
  {
    if i > 0 {
      AddedUpIsLeafAmounts(out, eligible, recipients, payable, i - 1);
      KnownStep(out, eligible, payable, i - 1, recipients[i - 1]);
      LeafAmountsInsert(MapOf(eligible[..i - 1]), Recipients(out, payable), eligible[i - 1].0, eligible[i - 1].1);
      PrefixSteps(map[], 0, eligible, recipients, i - 1);
    }
  }

  lemma {:induction false} NotedIsAddressed(out: Outside, eligible: seq<(Address, int)>, recipients: seq<string>,
                                            payable: map<Address, int>, i: nat, date: int,
                                            base: map<(int, Address), RewardRow>, rows: map<Address, RewardRow>)
    requires Enumerates(eligible, payable) && RecipientsOf(out, eligible, recipients) && i <= |eligible|
    requires payable.Keys <= rows.Keys
    ensures NotedIn(base + Keyed(date, rows), date, eligible[..i], recipients[..i])
         == base + Keyed(date, Addressed(rows, KnownRecipients(out, MapOf(eligible[..i]))))
    decreases i
  {
    if i == 0 {
      assert Addressed(rows, KnownRecipients(out, map[])) == rows;
    } else {
      NotedIsAddressed(out, eligible, recipients, payable, i - 1, date, base, rows);
      KnownStep(out, eligible, payable, i - 1, recipients[i - 1]);
      AddressedStep(date, base, rows, KnownRecipients(out, MapOf(eligible[..i - 1])),
                    eligible[i - 1].0, recipients[i - 1]);
      PrefixSteps(base + Keyed(date, rows), date, eligible, recipients, i - 1);
    }
  }

  lemma AllAggregated(out: Outside, eligible: seq<(Address, int)>, recipients: seq<string>, payable: map<Address, int>,
                      date: int, base: map<(int, Address), RewardRow>, rows: map<Address, RewardRow>)
    requires Enumerates(eligible, payable) && RecipientsOf(out, eligible, recipients)
    requires forall w :: w in payable ==> out.lookup(w).Some?
    requires payable.Keys <= rows.Keys
    ensures AddedUp(eligible, recipients) == LeafAmounts(payable, Recipients(out, payable))
    ensures NotedIn(base + Keyed(date, rows), date, eligible, recipients)
         == base + Keyed(date, Addressed(rows, Recipients(out, payable)))
  {
    AddedUpIsLeafAmounts(out, eligible, recipients, payable, |eligible|);
    NotedIsAddressed(out, eligible, recipients, payable, |eligible|, date, base, rows);
    WholeList(eligible, payable);
    assert eligible[..|eligible|] == eligible && recipients[..|eligible|] == recipients;
    assert KnownRecipients(out, payable) == Recipients(out, payable);
  }

  /** Adds up the rewards per recipient and notes each worker's recipient. */
  method AggregateRecipients(store: EpochStore, date: int, eligible: seq<(Address, int)>, recipients: seq<string>,
                             ghost inp: Inputs, ghost reach: Books -> bool)
    returns (amounts: map<string, int>)
    requires Closed(date, inp, reach) && reach(store.Snapshot()) && |recipients| == |eligible|
    modifies store`rewards
    ensures reach(store.Snapshot())
    ensures amounts == AddedUp(eligible, recipients)
    ensures store.rewards == NotedIn(old(store.rewards), date, eligible, recipients)
  {
    amounts := map[];
    for i := 0 to |eligible|
      invariant reach(store.Snapshot())
      invariant amounts == AddedUp(eligible[..i], recipients[..i])
      invariant store.rewards == NotedIn(old(store.rewards), date, eligible[..i], recipients[..i])
    {
      PrefixSteps(old(store.rewards), date, eligible, recipients, i);
      var w, reward, r := eligible[i].0, eligible[i].1, recipients[i];
      amounts := amounts[r := (if r in amounts then amounts[r] else 0) + reward];
      store.SetWorkerEpochRecipient(date, w, r, inp, reach);
    }
    assert eligible[..|eligible|] == eligible && recipients[..|eligible|] == recipients;
  }

  /** What buildMerkleTree needs of the books it starts from. */
  ghost predicate TreeReady(store: EpochStore, date: int, base: map<(int, Address), RewardRow>,
                            rows: map<Address, RewardRow>)
    reads store
  {
    && date in store.epochs && store.epochs[date].root == None
    && store.rewards == base + Keyed(date, rows)
    && forall r :: (date, r) !in store.proofs
  }

  lemma EligibleResolved(out: Outside, eligible: seq<(Address, int)>, payable: map<Address, int>)
    requires Enumerates(eligible, payable)
    ensures (forall i :: 0 <= i < |eligible| ==> out.lookup(eligible[i].0).Some?)
       <==> (forall w :: w in payable ==> out.lookup(w).Some?)
  {
    if forall i :: 0 <= i < |eligible| ==> out.lookup(eligible[i].0).Some? {
      forall w | w in payable ensures out.lookup(w).Some? {
        var i :| 0 <= i < |eligible| && eligible[i].0 == w;
      }
    }
  }

  /** Fails exactly when a recipient cannot be looked up. */
  method BuildMerkleTree(store: EpochStore, out: Outside, date: int, finals: map<Address, int>,
                         ghost base: map<(int, Address), RewardRow>, ghost rows: map<Address, RewardRow>,
                         ghost inp: Inputs, ghost reach: Books -> bool)
    returns (ok: bool)
    requires Closed(date, inp, reach) && reach(store.Snapshot())
    requires TreeReady(store, date, base, rows) && finals.Keys <= rows.Keys
    requires (forall w :: w in Payable(finals) ==> out.lookup(w).Some?) ==>
      AmountsFit(LeafAmounts(Payable(finals), Recipients(out, Payable(finals))))
    modifies store`rewards, store`epochs, store`proofs
    ensures reach(store.Snapshot())
    ensures ok <==> forall w :: w in Payable(finals) ==> out.lookup(w).Some?
    ensures ok ==>
      var known := Recipients(out, Payable(finals));
      var amounts := LeafAmounts(Payable(finals), known);
      && store.rewards == base + Keyed(date, Addressed(rows, known))
      && store.epochs == old(store.epochs)[date := old(store.epochs)[date].(root := RootFor(out, amounts))]
      && store.proofs == old(store.proofs) + Keyed(date, ProofRows(out, amounts))
  {
    var eligible := EligibleWorkers(finals);
    EligibleResolved(out, eligible, Payable(finals));
    var recipients := ResolveRecipients(out, eligible);
    if recipients.None? {
      return false;
    }
    AllAggregated(out, eligible, recipients.value, Payable(finals), date, base, rows);
    var amounts := AggregateRecipients(store, date, eligible, recipients.value, inp, reach);
    StoreTree(store, out, date, amounts, inp, reach);
    return true;
  }
}
