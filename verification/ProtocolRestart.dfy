/** A restart after any run, crashes included: RecoverOnStartup starts a timer for
    every claimed row and tries every question with enough replies, and from there
    everything gets decided (internal/service/timer.go). */
module ProtocolRestart {
  import opened Tables
  import opened Protocol
  import opened ProtocolInvariant
  import opened ProtocolRuns
  import opened ProtocolCompletion
  import opened ProtocolTimers
  import opened ProtocolRest

  /** What RecoverOnStartup starts again. */
  predicate IsRecovery(e: Event) { e.RecoverTimer? || e.RecoverScore? }

  /** The run goes on with restarts of timers and scorers only. */
  ghost predicate Recovers(states: seq<State>, events: seq<Event>, states': seq<State>, events': seq<Event>)
  {
    && |events| <= |events'| && events'[..|events|] == events
    && |states| <= |states'| && states'[..|states|] == states
    && forall k :: |events| <= k < |events'| ==> IsRecovery(events'[k])
  }

  lemma RecoversFurther(states: seq<State>, events: seq<Event>, more: seq<State>, moreEvents: seq<Event>,
                        most: seq<State>, mostEvents: seq<Event>)
    requires Recovers(states, events, more, moreEvents) && Recovers(more, moreEvents, most, mostEvents)
    ensures Recovers(states, events, most, mostEvents)
  {
    assert mostEvents[..|events|] == moreEvents[..|events|] && most[..|states|] == more[..|states|];
    forall k | |events| <= k < |mostEvents| ensures IsRecovery(mostEvents[k]) {
      if k < |moreEvents| { assert mostEvents[k] == moreEvents[k]; }
    }
  }

  ghost predicate TimedSince(events: seq<Event>, c: nat, a: nat)
  {
    exists i :: c < i <= |events| && TimedAgain(events, i, a)
  }

  ghost predicate TriedSince(events: seq<Event>, c: nat, q: nat)
  {
    exists i :: c < i <= |events| && TriedAgain(events, i, q)
  }

  lemma StillTimed(events: seq<Event>, more: seq<Event>, c: nat, a: nat)
    requires |events| <= |more| && more[..|events|] == events && TimedSince(events, c, a)
    ensures TimedSince(more, c, a)
  {
    var i :| c < i <= |events| && TimedAgain(events, i, a);
    assert more[i - 1] == events[i - 1];
    assert TimedAgain(more, i, a);
  }

  lemma StillTried(events: seq<Event>, more: seq<Event>, c: nat, q: nat)
    requires |events| <= |more| && more[..|events|] == events && TriedSince(events, c, q)
    ensures TriedSince(more, c, q)
  {
    var i :| c < i <= |events| && TriedAgain(events, i, q);
    assert more[i - 1] == events[i - 1];
    assert TriedAgain(more, i, q);
  }

  /** Phase 1: a timer for each of the claimed rows in `todo`. */
  lemma {:induction false} RecoverTimers(p: Params, states: seq<State>, events: seq<Event>, todo: set<nat>)
    returns (states': seq<State>, events': seq<Event>)
    requires IsRun(p, states, events) && forall a :: a in todo ==> StillClaimed(states[|events|].db, a)
    ensures IsRun(p, states', events') && Recovers(states, events, states', events')
    ensures states'[|events'|].db == states[|events|].db
    ensures forall a :: a in todo ==> TimedSince(events', |events|, a)
    decreases |todo|
  {
    states', events' := states, events;
    if todo != {} {
      var a :| a in todo;
      var more, moreEvents := Extend(p, states, events, RecoverTimer(a));
      assert TimedAgain(moreEvents, |moreEvents|, a);
      states', events' := RecoverTimers(p, more, moreEvents, todo - {a});
      RecoversFurther(states, events, more, moreEvents, states', events');
      StillTimed(moreEvents, events', |events|, a);
      forall b | b in todo ensures TimedSince(events', |events|, b) {
        if b != a { assert b in todo - {a} && TimedSince(events', |moreEvents|, b); }
      }
    }
  }

  /** Phase 2: a try at each of the questions in `todo`. */
  lemma {:induction false} RecoverScores(p: Params, states: seq<State>, events: seq<Event>, todo: set<nat>)
    returns (states': seq<State>, events': seq<Event>)
    requires IsRun(p, states, events)
    ensures IsRun(p, states', events') && Recovers(states, events, states', events')
    ensures states'[|events'|].db == states[|events|].db
    ensures forall q :: q in todo ==> TriedSince(events', |events|, q)
    decreases |todo|
  {
    states', events' := states, events;
    if todo != {} {
      var q :| q in todo;
      var more, moreEvents := Extend(p, states, events, RecoverScore(q));
      assert TriedAgain(moreEvents, |moreEvents|, q);
      states', events' := RecoverScores(p, more, moreEvents, todo - {q});
      RecoversFurther(states, events, more, moreEvents, states', events');
      StillTried(moreEvents, events', |events|, q);
      forall r | r in todo ensures TriedSince(events', |events|, r) {
        if r != q { assert r in todo - {q} && TriedSince(events', |moreEvents|, r); }
      }
    }
  }

  /** Timers and tries for everything that stands at point `c` make a restart complete. */
  lemma AllRecovered(p: Params, states: seq<State>, events: seq<Event>, c: nat)
    requires IsRun(p, states, events) && c <= |events|
    requires forall a :: StillClaimed(states[c].db, a) ==> TimedSince(events, c, a)
    requires forall q :: Scorable(p, states[c].db, q) ==> TriedSince(events, c, q)
    ensures Restarted(p, states, events, c, |events|)
  {
    forall a ensures WatchedSince(states, events, c, |events|, a) {
      if StillClaimed(states[c].db, a) {
        var i :| c < i <= |events| && TimedAgain(events, i, a);
        assert Watched(states, events, i, a);
      } else {
        assert Watched(states, events, c, a);
      }
    }
    forall q ensures AttendedSince(p, states, events, c, |events|, q) {
      if Scorable(p, states[c].db, q) {
        var i :| c < i <= |events| && TriedAgain(events, i, q);
        assert Attended(p, states, events, i, q);
      } else {
        assert Attended(p, states, events, c, q);
      }
    }
  }

  /** RecoverOnStartup after any run, crashes included: a timer for every claimed row
      and a try at every question with enough replies make the restart complete and
      leave the tables alone. */
  lemma RestartCompletes(p: Params, states: seq<State>, events: seq<Event>)
    returns (states': seq<State>, events': seq<Event>)
    requires IsRun(p, states, events)
    ensures IsRun(p, states', events') && Recovers(states, events, states', events')
    ensures states'[|events'|].db == states[|events|].db
    ensures Restarted(p, states', events', |events|, |events'|)
  {
    var db := states[|events|].db;
    var claimed := set a | a in db.rows && StillClaimed(db, a);
    var scorable := set q | q in db.questions && Scorable(p, db, q);
    var more, moreEvents := RecoverTimers(p, states, events, claimed);
    states', events' := RecoverScores(p, more, moreEvents, scorable);
    RecoversFurther(states, events, more, moreEvents, states', events');
    assert states'[|events|] == states[|events|];
    forall a | StillClaimed(db, a) ensures TimedSince(events', |events|, a) {
      StillTimed(moreEvents, events', |events|, a);
    }
    forall q | Scorable(p, db, q) ensures TriedSince(events', |events|, q) {
      assert TriedSince(events', |moreEvents|, q);
    }
    AllRecovered(p, states', events', |events|);
  }

  lemma StaysRestarted(p: Params, states: seq<State>, events: seq<Event>, more: seq<State>, moreEvents: seq<Event>,
                       c: nat)
    requires IsRun(p, states, events) && IsRun(p, more, moreEvents) && Continues(states, events, more, moreEvents)
    requires c <= |events| && Restarted(p, states, events, c, |events|)
    ensures Restarted(p, more, moreEvents, c, |moreEvents|)
  {
    forall a ensures WatchedSince(more, moreEvents, c, |moreEvents|, a) {
      assert WatchedSince(states, events, c, |events|, a);
      var i :| c <= i <= |events| && Watched(states, events, i, a);
      SameSoFar(states, events, more, moreEvents, i);
      assert Watched(more, moreEvents, i, a);
    }
    forall q ensures AttendedSince(p, more, moreEvents, c, |moreEvents|, q) {
      assert AttendedSince(p, states, events, c, |events|, q);
      var i :| c <= i <= |events| && Attended(p, states, events, i, q);
      SameSoFar(states, events, more, moreEvents, i);
      assert Attended(p, more, moreEvents, i, q);
    }
  }

  lemma SameSoFar(states: seq<State>, events: seq<Event>, more: seq<State>, moreEvents: seq<Event>, i: nat)
    requires Continues(states, events, more, moreEvents) && i <= |events| < |states|
    ensures more[i] == states[i] && (i > 0 ==> moreEvents[i - 1] == events[i - 1])
  {
    assert more[i] == more[..|states|][i];
    assert i > 0 ==> moreEvents[i - 1] == moreEvents[..|events|][i - 1];
  }

  /** The run goes on with a restart, the clock and the handlers only. */
  ghost predicate Resumes(states: seq<State>, events: seq<Event>, states': seq<State>, events': seq<Event>)
  {
    && |events| <= |events'| && events'[..|events|] == events
    && |states| <= |states'| && states'[..|states|] == states
    && forall k :: |events| <= k < |events'| ==> IsRecovery(events'[k]) || IsInternal(events'[k])
  }

  lemma RecoversThenContinues(states: seq<State>, events: seq<Event>, more: seq<State>, moreEvents: seq<Event>,
                              most: seq<State>, mostEvents: seq<Event>)
    requires Recovers(states, events, more, moreEvents) && Continues(more, moreEvents, most, mostEvents)
    ensures Resumes(states, events, most, mostEvents)
  {
    assert mostEvents[..|events|] == moreEvents[..|events|] && most[..|states|] == more[..|states|];
    forall k | |events| <= k < |mostEvents| ensures IsRecovery(mostEvents[k]) || IsInternal(mostEvents[k]) {
      if k < |moreEvents| { assert mostEvents[k] == moreEvents[k]; }
    }
  }

  lemma SameCuts(states: seq<State>, events: seq<Event>, more: seq<State>, moreEvents: seq<Event>, k: nat, q: nat)
    requires Resumes(states, events, more, moreEvents) && k < |events| < |states| && |moreEvents| < |more|
    ensures CutsAt(more, moreEvents, k, q) == CutsAt(states, events, k, q)
  {
    assert more[k] == more[..|states|][k] && moreEvents[k] == moreEvents[..|events|][k];
  }

  /** Any run, crashes included, can be continued by one restart, the clock and the
      handlers alone until nothing runs: then no claim is left, and every question is
      open with too few answers or was won by exactly one scorer and is fully scored,
      unless a crash cut that scorer off before the restart. */
  lemma EveryRunGetsDecided(p: Params, states: seq<State>, events: seq<Event>)
    returns (states': seq<State>, events': seq<Event>)
    requires IsRun(p, states, events)
    ensures IsRun(p, states', events') && Resumes(states, events, states', events')
    ensures forall a :: !StillClaimed(states'[|events'|].db, a)
    ensures forall q :: q in states'[|events'|].db.questions ==> Decided(p, states, events, states', events', q)
  {
    var more, moreEvents := RestartCompletes(p, states, events);
    states', events' := ComesToRest(p, more, moreEvents);
    RecoversThenContinues(states, events, more, moreEvents, states', events');
    StaysRestarted(p, more, moreEvents, states', events', |events|);
    var c, n := |events|, |events'|;
    forall k | c <= k < n ensures !events'[k].Crash? {}
    forall a ensures !StillClaimed(states'[n].db, a) {
      NoClaimLeft(p, states', events', c, n, a);
    }
    forall q | q in states'[n].db.questions ensures Decided(p, states, events, states', events', q) {
      DecidedAtRest(p, states, events, states', events', q);
    }
  }

  /** How question `q` stands at the end of the continued run. */
  ghost predicate Decided(p: Params, states: seq<State>, events: seq<Event>, states': seq<State>, events': seq<Event>,
                          q: nat)
    requires |states| == |events| + 1 && |states'| == |events'| + 1 && q in states'[|events'|].db.questions
  {
    var db := states'[|events'|].db;
    && (IsOpen(db, q) <==> |AnsweredRows(db.rows, q)| < p.required)
    && (IsScored(db, q) <==> OneWin(states', events', |events'|, q))
    && (IsScored(db, q) ==> (Settled(db, q) <==> forall k :: 0 <= k < |events| ==> !CutsAt(states, events, k, q)))
  }

  lemma DecidedAtRest(p: Params, states: seq<State>, events: seq<Event>, states': seq<State>, events': seq<Event>,
                      q: nat)
    requires IsRun(p, states, events) && IsRun(p, states', events') && Resumes(states, events, states', events')
    requires NoCrash(events', |events|, |events'|) && Restarted(p, states', events', |events|, |events'|)
    requires states'[|events'|].threads == map[] && q in states'[|events'|].db.questions
    ensures Decided(p, states, events, states', events', q)
  {
    EveryQuestionDecided(p, states', events', |events|, |events'|, q);
    forall k | 0 <= k < |events| ensures CutsAt(states', events', k, q) == CutsAt(states, events, k, q) {
      SameCuts(states, events, states', events', k, q);
    }
  }
}
