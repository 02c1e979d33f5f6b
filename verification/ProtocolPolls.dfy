/** A poll is a transaction of several statements: the guard that looks for a claim
    of the worker, the pick that locks a question and counts its active rows, and the
    insert. Other handlers run in between. This module says what the insert then
    finds, and so when the whole is one step (internal/service/poll.go). */
module ProtocolPolls {
  import opened Wrappers
  import opened Sets
  import opened Scoring
  import opened Tables
  import opened OfferLaws
  import opened Protocol
  import opened ProtocolInvariant
  import opened ProtocolSteps
  import opened ProtocolRuns
  import opened ProtocolTimers

  /// ## The guard may be out of date

  /** In step `j` worker `w` gets the new row `a`. */
  predicate ClaimsAt(states: seq<State>, events: seq<Event>, j: nat, w: Address, a: nat)
    requires j < |events| < |states|
  {
    && events[j].Poll? && events[j].w == w
    && a !in states[j].db.rows && a in states[j + 1].db.rows && states[j + 1].db.rows[a].worker == w
  }

  lemma NewRowsArePolled(p: Params, s: State, e: Event, a: nat)
    requires Enabled(p, s, e) && a !in s.db.rows && a in After(p, s, e).db.rows
    ensures e.Poll? && After(p, s, e).db.rows[a].worker == e.w
  {
    match e {
      case Run(t, choice) => RunAddsNoRow(p, s, t, choice, a);
      case _ =>
    }
  }

  /** The step in which a row appeared. */
  lemma {:induction false} Appears(states: seq<State>, i: nat, k: nat, a: nat) returns (j: nat)
    requires i <= k < |states|
    requires a !in states[i].db.rows && a in states[k].db.rows
    ensures i <= j < k && a !in states[j].db.rows && a in states[j + 1].db.rows
    decreases k
  {
    if a in states[k - 1].db.rows {
      j := Appears(states, i, k - 1, a);
    } else {
      j := k - 1;
    }
  }

  /** A claimed row of a worker that had none is from a poll in between. */
  lemma ClaimedMeanwhile(p: Params, states: seq<State>, events: seq<Event>, i: nat, k: nat, w: Address, a: nat)
    returns (j: nat)
    requires IsRun(p, states, events) && i <= k <= |events| && MayClaim(states[i].db, w)
    requires StillClaimed(states[k].db, a) && states[k].db.rows[a].worker == w
    ensures i <= j < k && ClaimsAt(states, events, j, w, a)
  {
    if a in states[i].db.rows {
      RowHistory(p, states, events, i, k, a);
      assert false;
    } else {
      j := Appears(states, i, k, a);
      NewRowsArePolled(p, states[j], events[j], a);
      RowHistory(p, states, events, j + 1, k, a);
    }
  }

  /** The worker got a row between `i` and `k` and still holds it. */
  ghost predicate GotClaim(states: seq<State>, events: seq<Event>, i: nat, k: nat, w: Address)
    requires k <= |events| < |states|
  {
    exists j, a :: i <= j < k && ClaimsAt(states, events, j, w, a) && StillClaimed(states[k].db, a)
  }

  /** The unique index rejects the insert of a worker whose guard found no claim
      exactly when another poll of the same worker has claimed a row since, and that
      claim still stands. */
  lemma RejectedIffClaimedMeanwhile(p: Params, states: seq<State>, events: seq<Event>, i: nat, k: nat, w: Address,
                                    q: nat, ddl: int)
    requires IsRun(p, states, events) && i <= k <= |events| && MayClaim(states[i].db, w)
    ensures Insert(states[k].db, q, w, ddl).None? <==> GotClaim(states, events, i, k, w)
  {
    if !MayClaim(states[k].db, w) {
      var a :| a in states[k].db.rows && states[k].db.rows[a].worker == w && states[k].db.rows[a].status == Claimed;
      var j := ClaimedMeanwhile(p, states, events, i, k, w, a);
    }
    forall j, a | i <= j < k && ClaimsAt(states, events, j, w, a) && StillClaimed(states[k].db, a)
      ensures !MayClaim(states[k].db, w)
    {
      RowHistory(p, states, events, j + 1, k, a);
    }
  }

  /// ## The pick stays good under the row lock

  /** The event neither adds a row of `q` nor scores it: both need its row lock. */
  ghost predicate RespectsLock(p: Params, s: State, e: Event, q: nat)
    requires Enabled(p, s, e)
  {
    && (forall a :: a in After(p, s, e).db.rows && After(p, s, e).db.rows[a].question == q ==> a in s.db.rows)
    && !IsWin(s, e, q)
  }

  lemma SameAttempts(db: Db, db': Db, w: Address, q: nat)
    requires forall a :: a in db.rows ==> a in db'.rows && Later(db.rows[a], db'.rows[a])
    requires forall a :: a in db'.rows && db'.rows[a].question == q ==> a in db.rows
    requires forall a :: a in Attempts(db.rows, w, q) ==> db.rows[a].status == TimedOut
    ensures Attempts(db'.rows, w, q) == Attempts(db.rows, w, q)
    ensures TimedOutAttempts(db'.rows, w, q) == TimedOutAttempts(db.rows, w, q)
    ensures forall a :: a in Attempts(db'.rows, w, q) ==> db'.rows[a].status == TimedOut
  {
    forall a | a in db.rows && a in db'.rows ensures SameIdentity(db.rows[a], db'.rows[a]) {
      assert Later(db.rows[a], db'.rows[a]);
    }
    assert Attempts(db'.rows, w, q) == Attempts(db.rows, w, q);
    assert TimedOutAttempts(db'.rows, w, q) == TimedOutAttempts(db.rows, w, q);
  }

  lemma FewerActive(db: Db, db': Db, q: nat)
    requires forall a :: a in db.rows ==> a in db'.rows && Later(db.rows[a], db'.rows[a])
    requires forall a :: a in db'.rows && db'.rows[a].question == q ==> a in db.rows
    ensures |Active(db'.rows, q)| <= |Active(db.rows, q)|
  {
    forall a | a in Active(db'.rows, q) ensures a in Active(db.rows, q) {
      assert Later(db.rows[a], db'.rows[a]);
    }
    SubsetSize(Active(db'.rows, q), Active(db.rows, q));
  }

  lemma StaysEligible(p: Params, s: State, e: Event, w: Address, q: nat)
    requires Inv(p, s) && Enabled(p, s, e) && RespectsLock(p, s, e, q) && Eligible(s.db, w, q, p.required)
    ensures Eligible(After(p, s, e).db, w, q, p.required)
  {
    var db' := After(p, s, e).db;
    StepKeeps(p, s, e);
    SameAttempts(s.db, db', w, q);
    FewerActive(s.db, db', q);
    OnlyWinsScore(p, s, e, q);
    assert LaterQuestion(s.db.questions[q], db'.questions[q]);
  }

  ghost predicate Locked(p: Params, states: seq<State>, events: seq<Event>, j: nat, k: nat, q: nat)
    requires IsRun(p, states, events) && k <= |events|
  {
    forall m :: j <= m < k ==> RespectsLock(p, states[m], events[m], q)
  }

  lemma {:induction false} LockedStaysEligible(p: Params, states: seq<State>, events: seq<Event>, j: nat, k: nat,
                                               w: Address, q: nat)
    requires IsRun(p, states, events) && j <= k <= |events| && Locked(p, states, events, j, k, q)
    requires Eligible(states[j].db, w, q, p.required)
    ensures Eligible(states[k].db, w, q, p.required)
    decreases k
  {
    if j < k {
      LockedStaysEligible(p, states, events, j, k - 1, w, q);
      InvAt(p, states, events, k - 1);
      StaysEligible(p, states[k - 1], events[k - 1], w, q);
    }
  }

  /// ## One step after all

  /** A poll whose guard found no claim at point `i`, which picked, locked and counted
      `q` at point `j` and inserts at point `k`, does exactly what one atomic poll does
      at point `k`, or is rejected; it is rejected exactly when the worker got another
      claim in between that still stands. */
  lemma SplitPollIsAtomic(p: Params, states: seq<State>, events: seq<Event>, i: nat, j: nat, k: nat,
                          w: Address, q: nat, ddl: int)
    requires IsRun(p, states, events) && i <= j <= k <= |events| && w in p.workers
    requires MayClaim(states[i].db, w) && Eligible(states[j].db, w, q, p.required) && Locked(p, states, events, j, k, q)
    ensures var s, poll, inserted := states[k], Poll(w, None, Some(q), ddl), Insert(states[k].db, q, w, ddl);
      if GotClaim(states, events, i, k, w) then inserted.None? && !Enabled(p, s, poll)
      else inserted.Some? && Enabled(p, s, poll) && After(p, s, poll).db == inserted.value
  {
    RejectedIffClaimedMeanwhile(p, states, events, i, k, w, q, ddl);
    LockedStaysEligible(p, states, events, j, k, w, q);
  }

  /// ## What a poll does and whom it serves

  /** A claim whose deadline has not passed is handed out again with one more timer and
      nothing else changes; a claim whose deadline has passed times out. */
  lemma HeldClaimLaw(p: Params, s: State, w: Address, held: nat, ddl: int)
    requires Reachable(p, s) && PollEnabled(p, s, w, Some(held), None)
    ensures var row, s' := s.db.rows[held], AfterPoll(s, w, Some(held), None, ddl);
      && (s.now <= row.ddl ==>
            s'.db == s.db && s'.threads == s.threads[s.nextThread := StartingTimer(held, row.question, row.ddl)])
      && (row.ddl < s.now ==>
            s'.db.rows == s.db.rows[held := row.(status := TimedOut)] && s'.threads == s.threads)
  {
    ReachableInv(p, s);
    assert RowFine(p, s.db, s.now, held);
  }

  /** Worker `w` may be given question `q`: it is open and somebody else's, the worker
      has at most one row on it, which has timed out, and it has a free slot. */
  predicate MayServe(p: Params, db: Db, w: Address, q: nat)
  {
    && q in db.questions && db.questions[q].status == Submitted && db.questions[q].questioner != w
    && (forall a :: a in db.rows && db.rows[a].worker == w && db.rows[a].question == q ==>
                      db.rows[a].status == TimedOut)
    && |set a | a in db.rows && db.rows[a].worker == w && db.rows[a].question == q| <= 1
    && |set a | a in db.rows && db.rows[a].question == q && db.rows[a].status in {Claimed, Replied}| < p.required
  }

  lemma EligibleLaw(p: Params, db: Db, w: Address, q: nat)
    ensures Eligible(db, w, q, p.required) <==> MayServe(p, db, w, q)
  {
    assert Eligible(db, w, q, p.required) <==> q in Candidates(db, db.rows, w, p.required);
    CandidatesLaw(db, db.rows, w, p.required, q);
  }

  /** Exactly the workers without a claim are given exactly such questions, and get a
      claimed row with the poll's deadline and no reply. */
  lemma ServedLaw(p: Params, s: State, w: Address, q: nat, ddl: int)
    requires Reachable(p, s) && w in p.workers
    ensures Enabled(p, s, Poll(w, None, Some(q), ddl)) <==>
      (MayServe(p, s.db, w, q) &&
       forall a :: a in s.db.rows && s.db.rows[a].worker == w ==> s.db.rows[a].status != Claimed)
    ensures Enabled(p, s, Poll(w, None, Some(q), ddl)) ==>
      After(p, s, Poll(w, None, Some(q), ddl)).db.rows
      == s.db.rows[s.db.nextRow := Assignment(q, w, Claimed, ddl, Reply(None, None), 0, 0)]
  {
    EligibleLaw(p, s.db, w, q);
    if Enabled(p, s, Poll(w, None, Some(q), ddl)) {
      PollNeverRejected(p, s, w, None, Some(q), ddl);
    }
  }
}
