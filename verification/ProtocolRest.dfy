/** Handlers end: over any run the number of steps handlers take is bounded by the
    number of times one was started, and a handler that has not ended can take a
    step unless it is a timer that waits for its deadline. */
module ProtocolRest {
  import opened Sets
  import opened Sums
  import opened Tables
  import opened Scoring
  import opened Protocol
  import opened ProtocolInvariant
  import opened ProtocolSteps
  import opened ProtocolRuns
  import opened ProtocolDeadlines
  import opened ProtocolCompletion
  import opened ProtocolTimers
  import opened ProtocolEffort

  /// ## How many steps a handler has left, at most

  function Rank(p: Params, thread: Thread): nat
  {
    match thread
    case Writing(_, todo) => |todo| + 1
    case Judging(_, o) => |o.marks| + 2
    case Listing(_, _) => p.required + 3
    case Counted(_) => p.required + 4
    case Trying(_) => p.required + 5
    case Notifying(_, _) => p.required + 6
    case Submitting(_, _, _, _) => p.required + 7
    case Expiring(_) => 1
    case Checking(_, _, _, _, _, _, _) => p.required + 8
    case Answering(_, _, _, _, _) => p.required + 9
    case TimingOut(_, _) => p.required + 6
    case Looking(_, _) => p.required + 7
    case Firing(_, _) => p.required + 8
    case Armed(_, _, _) => p.required + 9
    case StartingTimer(_, _, _) => p.required + 10
  }

  function MostSteps(p: Params): nat { p.required + 10 }

  function Ranks(p: Params, threads: map<nat, Thread>): map<nat, int>
  {
    map t | t in threads :: Rank(p, threads[t])
  }

  ghost function StepsLeft(p: Params, threads: map<nat, Thread>): int
  {
    Total(Ranks(p, threads))
  }

  lemma FewMarks(p: Params, s: State, q: nat, reference: string)
    requires WithinRequired(p, s.db.rows)
    ensures |Judge(reference, RepliesNow(s.db.rows, q)).marks| <= p.required
  {
    var replied, marks := RepliedRows(s.db.rows, q), Judge(reference, RepliesNow(s.db.rows, q)).marks;
    MarksAreJudged(reference, RepliesNow(s.db.rows, q));
    SubsetSize(marks.Keys, replied);
    SubsetSize(replied, Active(s.db.rows, q));
    assert |marks| == |marks.Keys| && |Active(s.db.rows, q)| <= p.required;
  }

  lemma AnswerRankDrops(p: Params, s: State, t: nat, choice: nat)
    requires RunEnabled(s, t, choice) && IsAnswer(s.threads[t]) && t in AfterRun(p, s, t, choice).threads
    ensures Rank(p, AfterRun(p, s, t, choice).threads[t]) < Rank(p, s.threads[t])
  {
  }

  lemma TimerRankDrops(p: Params, s: State, t: nat, choice: nat)
    requires RunEnabled(s, t, choice) && IsTimer(s.threads[t]) && t in AfterRun(p, s, t, choice).threads
    ensures Rank(p, AfterRun(p, s, t, choice).threads[t]) < Rank(p, s.threads[t])
  {
  }

  lemma FewMarksLeft(p: Params, listed: Thread, q: nat, o: Outcome)
    requires listed.Listing? && |o.marks| <= p.required
    ensures Rank(p, Judging(q, o)) < Rank(p, listed)
  {
  }

  lemma ListingRankDrops(p: Params, s: State, t: nat, choice: nat)
    requires WithinRequired(p, s.db.rows) && t in s.threads && s.threads[t].Listing?
    requires t in AfterRun(p, s, t, choice).threads
    ensures Rank(p, AfterRun(p, s, t, choice).threads[t]) < Rank(p, s.threads[t])
  {
    var q, reference := s.threads[t].q, s.threads[t].reference;
    FewMarks(p, s, q, reference);
    FewMarksLeft(p, s.threads[t], q, Judge(reference, RepliesNow(s.db.rows, q)));
  }

  lemma OneFewerMark(todo: map<nat, Mark>, a: nat)
    requires a in todo
    ensures |todo - {a}| < |todo|
  {
    assert |todo| == |todo.Keys| && |todo - {a}| == |todo.Keys - {a}|;
  }

  lemma WritingRankDrops(p: Params, s: State, t: nat, choice: nat)
    requires RunEnabled(s, t, choice) && s.threads[t].Writing? && t in AfterRun(p, s, t, choice).threads
    ensures Rank(p, AfterRun(p, s, t, choice).threads[t]) < Rank(p, s.threads[t])
  {
    OneFewerMark(s.threads[t].todo, choice);
  }

  lemma ScorerRankDrops(p: Params, s: State, t: nat, choice: nat)
    requires RunEnabled(s, t, choice) && (s.threads[t].Trying? || s.threads[t].Counted? || s.threads[t].Judging?)
    requires t in AfterRun(p, s, t, choice).threads
    ensures Rank(p, AfterRun(p, s, t, choice).threads[t]) < Rank(p, s.threads[t])
  {
  }

  /** The thread that runs has fewer steps left. */
  lemma RankDrops(p: Params, s: State, t: nat, choice: nat)
    requires WithinRequired(p, s.db.rows) && RunEnabled(s, t, choice) && t in AfterRun(p, s, t, choice).threads
    ensures Rank(p, AfterRun(p, s, t, choice).threads[t]) < Rank(p, s.threads[t])
  {
    if IsAnswer(s.threads[t]) { AnswerRankDrops(p, s, t, choice); }
    else if IsTimer(s.threads[t]) { TimerRankDrops(p, s, t, choice); }
    else if s.threads[t].Listing? { ListingRankDrops(p, s, t, choice); }
    else if s.threads[t].Writing? { WritingRankDrops(p, s, t, choice); }
    else { ScorerRankDrops(p, s, t, choice); }
  }

  /** No other thread changes, and none starts; an armed timer may be stopped. */
  lemma RunStartsNothing(p: Params, s: State, t: nat, choice: nat, u: nat)
    requires RunEnabled(s, t, choice) && u != t && u in AfterRun(p, s, t, choice).threads
    ensures Kept(s, AfterRun(p, s, t, choice), u)
  {
    match s.threads[t] {
      case Notifying(a, _) => CancelStartsNothing(s, a, u);
      case _ =>
    }
  }

  lemma OthersLeft(p: Params, threads: map<nat, Thread>, threads': map<nat, Thread>, t: nat)
    requires forall u :: u in threads' && u != t ==> u in threads && threads'[u] == threads[u]
    ensures Total(Ranks(p, threads') - {t}) <= Total(Ranks(p, threads) - {t})
  {
    TotalMonotone(Ranks(p, threads') - {t}, Ranks(p, threads) - {t});
  }

  lemma FewerLeft(p: Params, threads: map<nat, Thread>, threads': map<nat, Thread>, t: nat)
    requires t in threads && forall u :: u in threads' && u != t ==> u in threads && threads'[u] == threads[u]
    requires t in threads' ==> Rank(p, threads'[t]) < Rank(p, threads[t])
    ensures StepsLeft(p, threads') < StepsLeft(p, threads)
  {
    var before, after := Ranks(p, threads), Ranks(p, threads');
    OthersLeft(p, threads, threads', t);
    TotalSplit(before, t);
    if t in after {
      TotalSplit(after, t);
    } else {
      assert after - {t} == after;
    }
  }

  lemma RunUsesUp(p: Params, s: State, t: nat, choice: nat)
    requires Inv(p, s) && RunEnabled(s, t, choice)
    ensures StepsLeft(p, AfterRun(p, s, t, choice).threads) < StepsLeft(p, s.threads)
  {
    var s' := AfterRun(p, s, t, choice);
    forall u | u in s'.threads && u != t ensures Kept(s, s', u) {
      RunStartsNothing(p, s, t, choice, u);
    }
    if t in s'.threads { RankDrops(p, s, t, choice); }
    FewerLeft(p, s.threads, s'.threads, t);
  }

  /// ## Over a run

  /** The event starts a handler. */
  predicate Starts(e: Event)
  {
    e.Poll? || e.Submit? || e.RecoverTimer? || e.RecoverScore?
  }

  function StartsIn(events: seq<Event>, n: nat): nat
    requires n <= |events|
  {
    if n == 0 then 0 else StartsIn(events, n - 1) + if Starts(events[n - 1]) then 1 else 0
  }

  function StepsIn(events: seq<Event>, n: nat): nat
    requires n <= |events|
  {
    if n == 0 then 0 else StepsIn(events, n - 1) + if events[n - 1].Run? then 1 else 0
  }

  lemma SpawnAdds(p: Params, s: State, thread: Thread)
    requires s.nextThread !in s.threads && !thread.Writing? && !thread.Judging?
    ensures StepsLeft(p, Spawn(s, thread).threads) <= StepsLeft(p, s.threads) + MostSteps(p)
  {
    TotalInsert(Ranks(p, s.threads), s.nextThread, Rank(p, thread));
    assert Ranks(p, Spawn(s, thread).threads) == Ranks(p, s.threads)[s.nextThread := Rank(p, thread)];
  }

  /** The threads of the state after an event that is no step of one. */
  lemma StartAdds(p: Params, s: State, e: Event)
    requires ThreadsFine(p, s) && Enabled(p, s, e) && !e.Run?
    ensures StepsLeft(p, After(p, s, e).threads) <= StepsLeft(p, s.threads) + if Starts(e) then MostSteps(p) else 0
  {
    assert s.nextThread !in s.threads;
    TotalNonNegative(Ranks(p, s.threads));
    match e {
      case Poll(w, held, pick, ddl) =>
        var s' := AfterPoll(s, w, held, pick, ddl);
        if s'.threads != s.threads { SpawnAdds(p, s, s'.threads[s.nextThread]); }
      case Submit(q, w, valid, answer, fits) => SpawnAdds(p, s, Answering(q, w, valid, answer, fits));
      case RecoverTimer(a) => SpawnAdds(p, s, StartingTimer(a, s.db.rows[a].question, s.db.rows[a].ddl));
      case RecoverScore(q) => SpawnAdds(p, s, Trying(q));
      case Crash => assert Ranks(p, map[]) == map[];
      case _ =>
    }
  }

  lemma StepOrStart(p: Params, s: State, e: Event)
    requires Inv(p, s) && Enabled(p, s, e)
    ensures StepsLeft(p, After(p, s, e).threads) + (if e.Run? then 1 else 0)
         <= StepsLeft(p, s.threads) + if Starts(e) then MostSteps(p) else 0
  {
    if e.Run? { RunUsesUp(p, s, e.t, e.choice); } else { StartAdds(p, s, e); }
  }

  /** Handlers take at most `required` + 10 steps per start, the steps still to come
      included: no interleaving keeps them busy for ever. */
  lemma {:induction false} StepsAreBounded(p: Params, states: seq<State>, events: seq<Event>, n: nat)
    requires IsRun(p, states, events) && n <= |events|
    ensures StepsIn(events, n) + StepsLeft(p, states[n].threads) <= Allowance(MostSteps(p), StartsIn(events, n))
    decreases n
  {
    if n == 0 {
      assert Ranks(p, states[0].threads) == map[];
    } else {
      StepsAreBounded(p, states, events, n - 1);
      InvAt(p, states, events, n - 1);
      StepOrStart(p, states[n - 1], events[n - 1]);
    }
  }

  /// ## Nothing is stuck

  /** A handler can take its next step, unless it waits for a deadline to come. */
  lemma NothingStuck(s: State, t: nat)
    requires t in s.threads
    ensures (forall choice :: !RunEnabled(s, t, choice)) <==> s.threads[t].Armed? && s.now < s.threads[t].ddl
  {
    match s.threads[t] {
      case Answering(q, w, _, _, _) =>
        if Attempts(s.db.rows, w, q) != {} {
          var a :| a in Attempts(s.db.rows, w, q);
          assert RunEnabled(s, t, a);
        } else {
          assert RunEnabled(s, t, 0);
        }
      case Writing(_, todo) =>
        if todo != map[] {
          var a :| a in todo;
          assert RunEnabled(s, t, a);
        } else {
          assert RunEnabled(s, t, 0);
        }
      case Armed(_, _, ddl) => assert RunEnabled(s, t, 0) <==> s.now >= ddl;
      case _ => assert RunEnabled(s, t, 0);
    }
  }

  /// ## Coming to rest

  /** No timer waits any more. */
  ghost predicate AllDue(s: State)
  {
    forall t :: t in s.threads && (s.threads[t].Armed? || s.threads[t].StartingTimer?) ==> s.threads[t].ddl <= s.now
  }

  /** The clock and the handlers, nothing from outside and no crash. */
  predicate IsInternal(e: Event) { e.Tick? || e.Run? }

  ghost predicate Continues(states: seq<State>, events: seq<Event>, states': seq<State>, events': seq<Event>)
  {
    && |events| <= |events'| && events'[..|events|] == events
    && |states| <= |states'| && states'[..|states|] == states
    && forall k :: |events| <= k < |events'| ==> IsInternal(events'[k])
  }

  lemma {:induction false} LatestDeadline(threads: map<nat, Thread>) returns (latest: int)
    ensures forall t :: t in threads && (threads[t].Armed? || threads[t].StartingTimer?) ==> threads[t].ddl <= latest
    decreases |threads|
  {
    latest := 0;
    if threads != map[] {
      var t :| t in threads;
      latest := LatestDeadline(threads - {t});
      if (threads[t].Armed? || threads[t].StartingTimer?) && latest < threads[t].ddl {
        latest := threads[t].ddl;
      }
      assert forall u :: u in threads ==> u == t || (u in threads - {t} && (threads - {t})[u] == threads[u]);
    }
  }

  lemma RunStaysDue(p: Params, s: State, t: nat, choice: nat)
    requires RunEnabled(s, t, choice) && AllDue(s)
    ensures AllDue(AfterRun(p, s, t, choice))
  {
    var s' := AfterRun(p, s, t, choice);
    RunKeepsClock(p, s, t, choice);
    forall u | u in s'.threads && (s'.threads[u].Armed? || s'.threads[u].StartingTimer?)
      ensures s'.threads[u].ddl <= s'.now
    {
      if u != t { RunStartsNothing(p, s, t, choice, u); }
    }
  }

  lemma StepsLeftPositive(p: Params, threads: map<nat, Thread>)
    ensures StepsLeft(p, threads) >= 0
  {
    TotalNonNegative(Ranks(p, threads));
  }

  /** Some handler takes a step. */
  lemma OneMoreStep(p: Params, states: seq<State>, events: seq<Event>)
    returns (states': seq<State>, events': seq<Event>)
    requires IsRun(p, states, events) && AllDue(states[|events|]) && states[|events|].threads != map[]
    ensures IsRun(p, states', events') && Continues(states, events, states', events')
    ensures AllDue(states'[|events'|])
    ensures 0 <= StepsLeft(p, states'[|events'|].threads) < StepsLeft(p, states[|events|].threads)
  {
    var s := states[|events|];
    var t :| t in s.threads;
    NothingStuck(s, t);
    var choice :| RunEnabled(s, t, choice);
    states', events' := Extend(p, states, events, Run(t, choice));
    InvAt(p, states, events, |events|);
    RunUsesUp(p, s, t, choice);
    RunStaysDue(p, s, t, choice);
    StepsLeftPositive(p, AfterRun(p, s, t, choice).threads);
  }

  lemma ContinuesFurther(states: seq<State>, events: seq<Event>, more: seq<State>, moreEvents: seq<Event>,
                         most: seq<State>, mostEvents: seq<Event>)
    requires Continues(states, events, more, moreEvents) && Continues(more, moreEvents, most, mostEvents)
    ensures Continues(states, events, most, mostEvents)
  {
    assert mostEvents[..|events|] == moreEvents[..|events|] && most[..|states|] == more[..|states|];
    forall k | |events| <= k < |mostEvents| ensures IsInternal(mostEvents[k]) {
      if k < |moreEvents| { assert mostEvents[k] == moreEvents[k]; }
    }
  }

  lemma {:induction false} RunToRest(p: Params, states: seq<State>, events: seq<Event>)
    returns (states': seq<State>, events': seq<Event>)
    requires IsRun(p, states, events) && AllDue(states[|events|])
    ensures IsRun(p, states', events') && Continues(states, events, states', events')
    ensures states'[|events'|].threads == map[]
    decreases StepsLeft(p, states[|events|].threads)
  {
    states', events' := states, events;
    if states[|events|].threads != map[] {
      var more, moreEvents := OneMoreStep(p, states, events);
      states', events' := RunToRest(p, more, moreEvents);
      ContinuesFurther(states, events, more, moreEvents, states', events');
    }
  }

  /** Whatever has happened so far, the clock and the handlers alone bring every
      handler to its end. */
  lemma ComesToRest(p: Params, states: seq<State>, events: seq<Event>)
    returns (states': seq<State>, events': seq<Event>)
    requires IsRun(p, states, events)
    ensures IsRun(p, states', events') && Continues(states, events, states', events')
    ensures states'[|events'|].threads == map[]
  {
    var s := states[|events|];
    var latest := LatestDeadline(s.threads);
    var more, moreEvents := Extend(p, states, events, Tick(if s.now < latest then latest else s.now));
    states', events' := RunToRest(p, more, moreEvents);
    ContinuesFurther(states, events, more, moreEvents, states', events');
  }

  /** After any crash-free run, letting the clock and the handlers go on without a
      new poll, answer or question leaves no claim, and every question with enough
      answers has all its marks. */
  lemma EverythingGetsDecided(p: Params, states: seq<State>, events: seq<Event>)
    returns (states': seq<State>, events': seq<Event>)
    requires IsRun(p, states, events) && NoCrash(events, 0, |events|)
    ensures IsRun(p, states', events') && Continues(states, events, states', events')
    ensures var db := states'[|events'|].db;
      && (forall a :: !StillClaimed(db, a))
      && forall q :: q in db.questions ==>
           if |AnsweredRows(db.rows, q)| < p.required then IsOpen(db, q) else Settled(db, q)
  {
    states', events' := ComesToRest(p, states, events);
    forall k | 0 <= k < |events'| ensures !events'[k].Crash? {
      if k < |events| { assert events'[k] == events[k]; }
    }
    RestAfterNoCrash(p, states', events', |events'|);
  }
}
