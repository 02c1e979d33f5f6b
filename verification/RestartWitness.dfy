/** A day of the system for which settling twice shows: the counters of qualified
    questions go up with every settlement (internal/store/epoch.go). */
module RestartWitness {
  import opened Sets
  import opened Tables
  import opened Protocol
  import opened ProtocolRuns
  import opened ProtocolWitnesses
  import opened Settlement
  import opened Ledger
  import opened Restart

  /** Nobody has done two tasks on a day with one question and one answer. */
  const TWO_TASKS := Config(1000, 2, 0.0)

  const ANSWERED_WELL := RepliedRow("42").(status := Scored, score := 5, share := 10000)

  /** One question by the asker, and one valid answer to it by the worker. */
  ghost predicate IsLoneDay(inp: Inputs)
  {
    && (forall q :: q in inp.questions <==> q == 0)
    && (forall a :: a in inp.answers <==> a == 0)
    && inp.questions[0] == ASKED_WELL && inp.answers[0] == ANSWERED_WELL
  }

  lemma LoneWindow(db: Db)
    requires db.questions == map[0 := ASKED_WELL] && db.rows == map[0 := ANSWERED_WELL]
    ensures IsLoneDay(Window(db, 0, DAY))
  {
  }

  /** Whoever asked one question and answered none, or the other way round, has not
      done two tasks. */
  lemma OneTaskEach(inp: Inputs, base: nat, w: Address)
    requires forall q :: q in inp.questions ==> q == 0
    requires forall a :: a in inp.answers ==> a == 0
    requires Asked(inp, w) == {} || Answered(inp, w, Scored) == {}
    ensures Final(TWO_TASKS, StatsOf(inp, base, w)) == 0
  {
    SubsetSize(Asked(inp, w), {0});
    SubsetSize(Answered(inp, w, Scored), {0});
  }

  lemma AskerDoesNotAnswer(inp: Inputs, w: Address)
    requires IsLoneDay(inp)
    ensures Asked(inp, w) == {} || Answered(inp, w, Scored) == {}
  {
    assert ASKED_WELL.questioner[0] != ANSWERED_WELL.worker[0];
  }

  lemma NobodyPaid(out: Outside, inp: Inputs)
    requires inp.questions != map[]
    requires forall w :: w in Workers(inp) ==> Final(TWO_TASKS, StatsOf(inp, BaseReward(TWO_TASKS, inp), w)) == 0
    ensures Ready(TWO_TASKS, out, inp)
  {
    assert PayableOf(TWO_TASKS, inp) == map[];
  }

  lemma WellAskedQualifies(inp: Inputs, q: nat)
    requires ScoresInRange(inp) && Linked(inp) && q in inp.questions && inp.questions[q].score >= 4
    requires InvalidReports(inp, q) == {}
    ensures q in DayMarks(TWO_TASKS, inp)
  {
    QuestionersAreWorkers(inp);
    CompositeInRange(inp, BaseReward(TWO_TASKS, inp), inp.questions[q].questioner);
  }

  /** The books of a day on which nothing has been settled yet. */
  function Unsettled(s: State): Books
  {
    Books(s.db, map[], map[], map[], map[])
  }

  lemma LoneDayIsReady(out: Outside, inp: Inputs)
    requires IsLoneDay(inp)
    ensures Ready(TWO_TASKS, out, inp)
  {
    assert 0 in inp.questions;
    forall w | w in Workers(inp) ensures Final(TWO_TASKS, StatsOf(inp, BaseReward(TWO_TASKS, inp), w)) == 0 {
      AskerDoesNotAnswer(inp, w);
      OneTaskEach(inp, BaseReward(TWO_TASKS, inp), w);
    }
    NobodyPaid(out, inp);
  }

  lemma LoneDayMarks(inp: Inputs)
    requires IsLoneDay(inp)
    ensures 0 in DayMarks(TWO_TASKS, inp)
  {
    assert InvalidReports(inp, 0) == {};
    WellAskedQualifies(inp, 0);
  }

  /** A reachable state whose day is ready to be settled, and whose set's counter is
      one after the first settlement and two after the second. */
  lemma RepeatCountsTwice(out: Outside) returns (s: State)
    ensures Reachable(SOLO, s) && Ready(TWO_TASKS, out, InputsOf(Unsettled(s), 0))
    ensures var b := Unsettled(s);
      var once, counted := SettledBooks(TWO_TASKS, out, 0, b), CountersAfter(TWO_TASKS, 0, b, map["set" := 0]);
      counted == map["set" := 1] && CountersAfter(TWO_TASKS, 0, once, counted) == map["set" := 2]
  {
    var states, events := AskedAndScored();
    s := states[|events|];
    ReachedByRun(SOLO, states, events, |events|);
    LoneWindow(s.db);
    LoneDayIsReady(out, InputsOf(Unsettled(s), 0));
    LoneDayMarks(InputsOf(Unsettled(s), 0));
    SettlingKeepsInputs(TWO_TASKS, out, 0, Unsettled(s));
    OneCountPerSettlement(TWO_TASKS, 0, Unsettled(s), SettledBooks(TWO_TASKS, out, 0, Unsettled(s)),
                          InputsOf(Unsettled(s), 0), 0, "set");
  }
}
