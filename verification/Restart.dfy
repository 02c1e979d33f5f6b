/** Settling again after a run that stopped anywhere gives the same books
    (internal/service/settlement.go, internal/store/epoch.go). */
module Restart {
  import opened Wrappers
  import opened Tables
  import opened Hashing
  import opened Settlement
  import opened Ledger

  /// ## The books after a complete settlement

  function Without<K(==), V>(m: map<(int, K), V>, date: int): map<(int, K), V>
  {
    map k | k in m && k.0 != date :: m[k]
  }

  /** Rows of one day, keyed as the table keys them. */
  function Keyed<K(==), V>(date: int, m: map<K, V>): map<(int, K), V>
  {
    map k | k in m :: (date, k) := m[k]
  }

  /** The window's benchmark flags are exactly `marks`. */
  function Flagged(db: Db, date: int, marks: set<nat>): Db
  {
    db.(questions := map q | q in db.questions ::
          if InWindow(db.questions[q], date, date + DAY) then db.questions[q].(benchmark := q in marks)
          else db.questions[q])
  }

  function Zeroed(violations: map<Address, nat>): map<Address, nat>
  {
    map w | w in violations :: 0
  }

  /** A worker's reward row; the recipient is noted when something is to be paid. */
  function RowFor(cfg: Config, out: Outside, w: Address, s: Stats): RewardRow
  {
    RewardRow(if Final(cfg, s) > 0 then out.lookup(w) else None, s, StoredComposite(Composite(s)), Final(cfg, s))
  }

  function RowsFor(cfg: Config, out: Outside, stats: map<Address, Stats>): map<Address, RewardRow>
  {
    map w | w in stats :: RowFor(cfg, out, w, stats[w])
  }

  lemma QuestionersAreWorkers(inp: Inputs)
    ensures forall q :: q in inp.questions ==> inp.questions[q].questioner in Workers(inp)
  {
    forall q | q in inp.questions ensures inp.questions[q].questioner in Questioners(inp).Values {
      assert Questioners(inp)[q] == inp.questions[q].questioner;
    }
  }

  ghost function Benchmarks(cfg: Config, inp: Inputs): set<nat>
    requires inp.questions != map[]
  {
    QuestionersAreWorkers(inp);
    set q | q in inp.questions && IsBenchmark(cfg, inp, Composites(AllStats(cfg, inp)), q)
  }

  /** The questions that a settlement of these inputs marks. */
  ghost function DayMarks(cfg: Config, inp: Inputs): set<nat>
  {
    if inp.questions == map[] then {} else Benchmarks(cfg, inp)
  }

  /** The settlement can finish: recipients are known and no amount overflows. */
  ghost predicate Ready(cfg: Config, out: Outside, inp: Inputs)
  {
    Resolved(cfg, out, inp) && (inp.questions != map[] ==> AmountsFit(AmountsOf(cfg, out, inp)))
  }

  ghost function TodaysEpoch(cfg: Config, out: Outside, inp: Inputs): Epoch
    requires Ready(cfg, out, inp)
  {
    Epoch(cfg.totalReward, |inp.questions|, true,
          if inp.questions == map[] then None else RootFor(out, AmountsOf(cfg, out, inp)), false)
  }

  ghost function TodaysRewards(cfg: Config, out: Outside, inp: Inputs): map<Address, RewardRow>
  {
    if inp.questions == map[] then map[]
    else RowsFor(cfg, out, AllStats(cfg, inp))
  }

  ghost function TodaysProofs(cfg: Config, out: Outside, inp: Inputs): map<string, ProofRow>
    requires Ready(cfg, out, inp)
  {
    if inp.questions == map[] then map[] else ProofRows(out, AmountsOf(cfg, out, inp))
  }

  function InputsOf(b: Books, date: int): Inputs
  {
    Window(b.db, date, date + DAY)
  }

  ghost function SettledBooks(cfg: Config, out: Outside, date: int, b: Books): Books
    requires Ready(cfg, out, InputsOf(b, date))
  {
    var inp := InputsOf(b, date);
    Books(Flagged(b.db, date, DayMarks(cfg, inp)),
          b.epochs[date := TodaysEpoch(cfg, out, inp)],
          Without(b.rewards, date) + Keyed(date, TodaysRewards(cfg, out, inp)),
          Without(b.proofs, date) + Keyed(date, TodaysProofs(cfg, out, inp)),
          if inp.questions == map[] then b.violations else Zeroed(b.violations))
  }

  /// ## Store calls

  datatype Op =
    | ResetEpoch(totalReward: nat)
    | DeleteProofs
    | DeleteRewards
    | ResetFlags
    | InsertRewards(batch: map<Address, RewardRow>)
    | MarkBenchmark(q: nat)
    | SetRecipient(worker: Address, recipient: string)
    | SetRoot(root: Hash)
    | InsertProof(recipient: string, row: ProofRow)
    | Finish(totalScored: nat)
    | ResetViolations

  /** One call for the epoch of `date`; None when a primary key is violated. */
  function Exec(date: int, op: Op, b: Books): Option<Books>
  {
    match op
    case ResetEpoch(total) => Some(b.(epochs := b.epochs[date := Epoch(total, 0, false, None, false)]))
    case DeleteProofs => Some(b.(proofs := Without(b.proofs, date)))
    case DeleteRewards => Some(b.(rewards := Without(b.rewards, date)))
    case ResetFlags => Some(b.(db := Flagged(b.db, date, {})))
    case InsertRewards(batch) =>
      if exists w :: w in batch && (date, w) in b.rewards then None
      else Some(b.(rewards := b.rewards + Keyed(date, batch)))
    case MarkBenchmark(q) =>
      Some(if q in b.db.questions
           then b.(db := b.db.(questions := b.db.questions[q := b.db.questions[q].(benchmark := true)])) else b)
    case SetRecipient(w, r) =>
      Some(if (date, w) in b.rewards
           then b.(rewards := b.rewards[(date, w) := b.rewards[(date, w)].(recipient := Some(r))]) else b)
    case SetRoot(h) =>
      Some(if date in b.epochs then b.(epochs := b.epochs[date := b.epochs[date].(root := Some(h))]) else b)
    case InsertProof(r, row) =>
      if (date, r) in b.proofs then None else Some(b.(proofs := b.proofs[(date, r) := row]))
    case Finish(n) =>
      Some(if date in b.epochs
           then b.(epochs := b.epochs[date := b.epochs[date].(totalScored := n, settled := true)]) else b)
    case ResetViolations => Some(b.(violations := Zeroed(b.violations)))
  }

  function ExecAll(date: int, ops: seq<Op>, b: Books): Option<Books>
  {
    if ops == [] then Some(b)
    else
      match ExecAll(date, ops[..|ops| - 1], b)
      case None => None
      case Some(m) => Exec(date, ops[|ops| - 1], m)
  }

  /** Calls that a settlement with these inputs makes: it marks questions of its
      window only, and resets violations only when there is a question. */
  predicate OfSettlement(op: Op, inp: Inputs)
  {
    match op
    case MarkBenchmark(q) => q in inp.questions
    case ResetViolations => inp.questions != map[]
    case _ => true
  }

  /// ## Books that a settlement cannot tell apart

  ghost predicate Alike(date: int, b: Books, c: Books)
  {
    && Flagged(b.db, date, {}) == Flagged(c.db, date, {})
    && b.epochs - {date} == c.epochs - {date}
    && Without(b.rewards, date) == Without(c.rewards, date)
    && Without(b.proofs, date) == Without(c.proofs, date)
    && Zeroed(b.violations) == Zeroed(c.violations)
    && (InputsOf(b, date).questions == map[] ==> b.violations == c.violations)
  }

  lemma FlagsDoNotMatter(db: Db, date: int, marks: set<nat>)
    ensures Window(Flagged(db, date, marks), date, date + DAY) == Window(db, date, date + DAY)
    ensures forall other :: Flagged(Flagged(db, date, marks), date, other) == Flagged(db, date, other)
  {
    var db' := Flagged(db, date, marks);
    forall q | q in db.questions
      ensures InWindow(db'.questions[q], date, date + DAY) <==> InWindow(db.questions[q], date, date + DAY)
    {
    }
    forall other: set<nat> ensures Flagged(db', date, other) == Flagged(db, date, other) {
      assert Flagged(db', date, other).questions == Flagged(db, date, other).questions;
    }
  }

  /** What a settlement computes and leaves is the same for alike books. */
  lemma AlikeSettlesAlike(cfg: Config, out: Outside, date: int, b: Books, c: Books)
    requires Alike(date, b, c) && Ready(cfg, out, InputsOf(b, date))
    ensures InputsOf(c, date) == InputsOf(b, date)
    ensures SettledBooks(cfg, out, date, c) == SettledBooks(cfg, out, date, b)
  {
    FlagsDoNotMatter(b.db, date, {});
    FlagsDoNotMatter(c.db, date, {});
    SameEpochs(b.epochs, c.epochs, date, TodaysEpoch(cfg, out, InputsOf(b, date)));
  }

  lemma SameEpochs(b: map<int, Epoch>, c: map<int, Epoch>, date: int, e: Epoch)
    requires b - {date} == c - {date}
    ensures b[date := e] == c[date := e]
  {
    assert b[date := e] == (b - {date})[date := e];
    assert c[date := e] == (c - {date})[date := e];
  }

  lemma MarkAlike(date: int, q: nat, b: Books)
    requires q in InputsOf(b, date).questions
    ensures var b' := b.(db := b.db.(questions := b.db.questions[q := b.db.questions[q].(benchmark := true)]));
      Alike(date, b, b') && InputsOf(b', date) == InputsOf(b, date)
  {
    var b' := b.(db := b.db.(questions := b.db.questions[q := b.db.questions[q].(benchmark := true)]));
    assert Flagged(b'.db, date, {}).questions == Flagged(b.db, date, {}).questions;
    FlagsDoNotMatter(b.db, date, {});
    FlagsDoNotMatter(b'.db, date, {});
  }

  lemma WithoutSum<K, V>(m: map<(int, K), V>, n: map<(int, K), V>, date: int)
    requires forall k :: k in n ==> k.0 == date
    ensures Without(m + n, date) == Without(m, date)
    ensures Without(Without(m, date) + n, date) == Without(m, date)
  {
  }

  /** Calls that touch only the day's rows of the epoch, reward and proof tables. */
  lemma RowCallAlike(date: int, op: Op, b: Books)
    requires !op.ResetFlags? && !op.MarkBenchmark? && !op.ResetViolations? && Exec(date, op, b).Some?
    ensures var b' := Exec(date, op, b).value;
      && b'.db == b.db && b'.violations == b.violations && b'.epochs - {date} == b.epochs - {date}
      && Without(b'.rewards, date) == Without(b.rewards, date) && Without(b'.proofs, date) == Without(b.proofs, date)
  {
    match op {
      case InsertRewards(batch) => WithoutSum(b.rewards, Keyed(date, batch), date);
      case _ =>
    }
  }

  lemma ExecAlike(date: int, op: Op, b: Books)
    requires OfSettlement(op, InputsOf(b, date)) && Exec(date, op, b).Some?
    ensures Alike(date, b, Exec(date, op, b).value)
    ensures InputsOf(Exec(date, op, b).value, date) == InputsOf(b, date)
  {
    match op {
      case ResetFlags => FlagsDoNotMatter(b.db, date, {});
      case MarkBenchmark(q) => MarkAlike(date, q, b);
      case ResetViolations => assert Zeroed(Zeroed(b.violations)) == Zeroed(b.violations);
      case _ => RowCallAlike(date, op, b);
    }
  }

  lemma AlikeTransitive(date: int, a: Books, b: Books, c: Books)
    requires Alike(date, a, b) && Alike(date, b, c) && InputsOf(b, date) == InputsOf(a, date)
    ensures Alike(date, a, c)
  {
  }

  lemma {:induction false} ExecAllAlike(date: int, ops: seq<Op>, b: Books)
    requires forall op :: op in ops ==> OfSettlement(op, InputsOf(b, date))
    requires ExecAll(date, ops, b).Some?
    ensures Alike(date, b, ExecAll(date, ops, b).value)
    ensures InputsOf(ExecAll(date, ops, b).value, date) == InputsOf(b, date)
    decreases |ops|
  {
    if ops != [] {
      var front, last := ops[..|ops| - 1], ops[|ops| - 1];
      ExecAllAlike(date, front, b);
      var m := ExecAll(date, front, b).value;
      ExecAlike(date, last, m);
      AlikeTransitive(date, b, m, Exec(date, last, m).value);
    }
  }

  /** Any part of a settlement's calls, in any order and any number of times, may
      already have run: settling then leaves the same books as settling at once. */
  lemma RestartAgrees(cfg: Config, out: Outside, date: int, crashed: seq<Op>, b: Books)
    requires forall op :: op in crashed ==> OfSettlement(op, InputsOf(b, date))
    requires ExecAll(date, crashed, b).Some? && Ready(cfg, out, InputsOf(b, date))
    ensures var b' := ExecAll(date, crashed, b).value;
      InputsOf(b', date) == InputsOf(b, date) && SettledBooks(cfg, out, date, b') == SettledBooks(cfg, out, date, b)
  {
    ExecAllAlike(date, crashed, b);
    AlikeSettlesAlike(cfg, out, date, b, ExecAll(date, crashed, b).value);
  }

  /** Rewriting the day's rows, flags and epoch leaves alike books. */
  lemma RewritingIsAlike(date: int, b: Books, c: Books, marks: set<nat>, e: Epoch,
                         rewards: map<(int, Address), RewardRow>, proofs: map<(int, string), ProofRow>)
    requires forall k :: k in rewards ==> k.0 == date
    requires forall k :: k in proofs ==> k.0 == date
    requires c.db == Flagged(b.db, date, marks) && c.epochs == b.epochs[date := e]
    requires c.rewards == Without(b.rewards, date) + rewards && c.proofs == Without(b.proofs, date) + proofs
    requires c.violations == b.violations
          || (c.violations == Zeroed(b.violations) && InputsOf(b, date).questions != map[])
    ensures Alike(date, b, c)
  {
    FlagsDoNotMatter(b.db, date, marks);
    WithoutSum(b.rewards, rewards, date);
    WithoutSum(b.proofs, proofs, date);
    assert Zeroed(Zeroed(b.violations)) == Zeroed(b.violations);
    assert b.epochs[date := e] - {date} == b.epochs - {date};
  }

  lemma SettledAlike(cfg: Config, out: Outside, date: int, b: Books)
    requires Ready(cfg, out, InputsOf(b, date))
    ensures Alike(date, b, SettledBooks(cfg, out, date, b))
  {
    var inp := InputsOf(b, date);
    RewritingIsAlike(date, b, SettledBooks(cfg, out, date, b),
                     DayMarks(cfg, inp), TodaysEpoch(cfg, out, inp),
                     Keyed(date, TodaysRewards(cfg, out, inp)), Keyed(date, TodaysProofs(cfg, out, inp)));
  }

  /** Settling twice is settling once. */
  lemma SettlingIsIdempotent(cfg: Config, out: Outside, date: int, b: Books)
    requires Ready(cfg, out, InputsOf(b, date))
    ensures var once := SettledBooks(cfg, out, date, b);
      Ready(cfg, out, InputsOf(once, date)) && SettledBooks(cfg, out, date, once) == once
  {
    SettledAlike(cfg, out, date, b);
    AlikeSettlesAlike(cfg, out, date, b, SettledBooks(cfg, out, date, b));
  }

  /// ## The counters of qualified questions, which no settlement resets

  function MarkedIn(inp: Inputs, marks: set<nat>, s: string): set<nat>
  {
    set q | q in marks && q in inp.questions && inp.questions[q].bsId == s
  }

  /** Every set's counter, raised by one for each of its marked questions. */
  function Raised(counters: map<string, int>, inp: Inputs, marks: set<nat>): map<string, int>
  {
    map s | s in counters :: counters[s] + |MarkedIn(inp, marks, s)|
  }

  lemma NothingRaised(counters: map<string, int>, inp: Inputs)
    ensures Raised(counters, inp, {}) == counters
  {
    assert forall s :: MarkedIn(inp, {}, s) == {};
  }

  function Incremented(counters: map<string, int>, s: string): map<string, int>
  {
    if s in counters then counters[s := counters[s] + 1] else counters
  }

  lemma RaisedByOne(counters: map<string, int>, inp: Inputs, marks: set<nat>, q: nat)
    requires q in inp.questions && q !in marks
    ensures Raised(counters, inp, marks + {q}) == Incremented(Raised(counters, inp, marks), inp.questions[q].bsId)
  {
    forall s | s in counters
      ensures |MarkedIn(inp, marks + {q}, s)| == |MarkedIn(inp, marks, s)| + if s == inp.questions[q].bsId then 1 else 0
    {
      assert MarkedIn(inp, marks + {q}, s)
          == if s == inp.questions[q].bsId then MarkedIn(inp, marks, s) + {q} else MarkedIn(inp, marks, s);
    }
  }

  /** The counters after settling the books `b`. */
  ghost function CountersAfter(cfg: Config, date: int, b: Books, counters: map<string, int>): map<string, int>
  {
    Raised(counters, InputsOf(b, date), DayMarks(cfg, InputsOf(b, date)))
  }

  lemma RaisedAgain(counters: map<string, int>, inp: Inputs, marks: set<nat>)
    ensures Raised(counters, inp, marks) == counters <==>
      forall q :: q in marks && q in inp.questions ==> inp.questions[q].bsId !in counters
  {
    if q :| q in marks && q in inp.questions && inp.questions[q].bsId in counters {
      assert q in MarkedIn(inp, marks, inp.questions[q].bsId);
      assert Raised(counters, inp, marks)[inp.questions[q].bsId] != counters[inp.questions[q].bsId];
    } else {
      forall s | s in counters ensures MarkedIn(inp, marks, s) == {} {}
    }
  }

  /** Settling twice raises the counters twice: they are as after settling once
      exactly when no question of a known set qualifies. */
  lemma CountersRepeatIff(cfg: Config, out: Outside, date: int, b: Books, counters: map<string, int>)
    requires Ready(cfg, out, InputsOf(b, date))
    ensures var once, counted := SettledBooks(cfg, out, date, b), CountersAfter(cfg, date, b, counters);
      CountersAfter(cfg, date, once, counted) == counted <==>
      forall q :: q in DayMarks(cfg, InputsOf(b, date)) ==> InputsOf(b, date).questions[q].bsId !in counters
  {
    var inp := InputsOf(b, date);
    SettledAlike(cfg, out, date, b);
    AlikeSettlesAlike(cfg, out, date, b, SettledBooks(cfg, out, date, b));
    RaisedAgain(CountersAfter(cfg, date, b, counters), inp, DayMarks(cfg, inp));
  }

  lemma CountedOnce(inp: Inputs, marks: set<nat>, q: nat, before: int)
    requires (forall r :: r in inp.questions <==> r == q) && q in marks
    ensures Raised(map[inp.questions[q].bsId := before], inp, marks) == map[inp.questions[q].bsId := before + 1]
  {
    assert MarkedIn(inp, marks, inp.questions[q].bsId) == {q};
  }

  lemma SettlingKeepsInputs(cfg: Config, out: Outside, date: int, b: Books)
    requires Ready(cfg, out, InputsOf(b, date))
    ensures InputsOf(SettledBooks(cfg, out, date, b), date) == InputsOf(b, date)
  {
    SettledAlike(cfg, out, date, b);
    AlikeSettlesAlike(cfg, out, date, b, SettledBooks(cfg, out, date, b));
  }

  /** A day whose only question qualifies counts it. */
  lemma OneCount(cfg: Config, date: int, b: Books, inp: Inputs, q: nat, s: string, before: int)
    requires InputsOf(b, date) == inp && q in DayMarks(cfg, inp)
    requires (forall r :: r in inp.questions <==> r == q) && inp.questions[q].bsId == s
    ensures CountersAfter(cfg, date, b, map[s := before]) == map[s := before + 1]
  {
    CountedOnce(inp, DayMarks(cfg, inp), q, before);
  }

  /** It counts it again at the next settlement; `c` are the books after the first. */
  lemma OneCountPerSettlement(cfg: Config, date: int, b: Books, c: Books, inp: Inputs, q: nat, s: string)
    requires InputsOf(b, date) == inp && InputsOf(c, date) == inp && q in DayMarks(cfg, inp)
    requires (forall r :: r in inp.questions <==> r == q) && inp.questions[q].bsId == s
    ensures CountersAfter(cfg, date, b, map[s := 0]) == map[s := 1]
    ensures CountersAfter(cfg, date, c, map[s := 1]) == map[s := 2]
  {
    OneCount(cfg, date, b, inp, q, s, 0);
    OneCount(cfg, date, c, inp, q, s, 1);
  }
}
