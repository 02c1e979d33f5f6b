/** The handlers as the source runs them, over the store and the timer manager
    (internal/service/poll.go, answer.go, timer.go, scoring.go). Each one is shown
    to do, when nothing else runs meanwhile, exactly what its protocol thread does;
    the interleaved runs are the subject of the protocol modules. */
module Services {
  import opened Wrappers
  import opened Scoring
  import opened ScoreQuestion
  import opened Tables
  import opened Protocol
  import opened Handlers
  import opened Text
  import S = Store

  /** The replied rows of a listing, as ScoreQuestion and TryScore collect them. */
  function RepliedOf(list: seq<S.Row>): seq<Ballot>
  {
    if list == [] then []
    else
      var last := list[|list| - 1];
      RepliedOf(list[..|list| - 1])
      + (if last.columns.status == Replied then [Ballot(last.id, last.columns.reply)] else [])
  }

  lemma {:induction false} RepliedOfMembers(list: seq<S.Row>, id: nat)
    ensures id in Ids(RepliedOf(list)) <==>
      exists i :: 0 <= i < |list| && list[i].id == id && list[i].columns.status == Replied
    decreases |list|
  {
    if list != [] {
      var front, last := list[..|list| - 1], list[|list| - 1];
      RepliedOfMembers(front, id);
      IdsAppend(RepliedOf(front), Ballot(last.id, last.columns.reply), id);
    }
  }

  lemma IdsAppend(bs: seq<Ballot>, b: Ballot, id: nat)
    ensures id in Ids(bs + [b]) <==> id in Ids(bs) || id == b.id
  {
    if id in Ids(bs) {
      var i :| 0 <= i < |bs| && bs[i].id == id;
      assert (bs + [b])[i].id == id;
    }
    assert (bs + [b])[|bs|].id == b.id;
  }

  /** Listing entry `i` is the replied row behind ballot `b`. */
  predicate IsSource(list: seq<S.Row>, i: int, b: Ballot)
  {
    0 <= i < |list| && list[i].id == b.id && list[i].columns.status == Replied && list[i].columns.reply == b.reply
  }

  ghost predicate Sourced(list: seq<S.Row>, bs: seq<Ballot>)
  {
    forall b :: b in bs ==> HasSource(list, b)
  }

  ghost predicate HasSource(list: seq<S.Row>, b: Ballot)
  {
    exists i :: IsSource(list, i, b)
  }

  lemma {:induction false} RepliedOfDistinct(list: seq<S.Row>)
    requires forall i, j :: 0 <= i < j < |list| ==> list[i].id != list[j].id
    ensures Distinct(RepliedOf(list)) && Sourced(list, RepliedOf(list))
    decreases |list|
  {
    if list != [] {
      var front, last := list[..|list| - 1], list[|list| - 1];
      RepliedOfDistinct(front);
      var before, whole := RepliedOf(front), RepliedOf(list);
      forall b | b in before ensures b.id != last.id && HasSource(list, b) {
        assert HasSource(front, b);
        var i :| IsSource(front, i, b);
        assert IsSource(list, i, b);
      }
      if last.columns.status == Replied {
        var b := Ballot(last.id, last.columns.reply);
        assert whole == before + [b] && IsSource(list, |list| - 1, b);
      } else {
        assert whole == before;
      }
    }
  }

  lemma RepliedOfIds(list: seq<S.Row>, rows: Rows, q: nat)
    requires S.Lists(list, rows, q)
    ensures Ids(RepliedOf(list)) == RepliedRows(rows, q)
  {
    forall id ensures id in Ids(RepliedOf(list)) <==> id in RepliedRows(rows, q) {
      RepliedOfMembers(list, id);
      if id in RepliedRows(rows, q) {
        var i :| 0 <= i < |list| && list[i].id == id;
        assert list[i].columns.status == Replied;
      }
    }
  }

  lemma SourcedReply(list: seq<S.Row>, rows: Rows, q: nat, b: Ballot)
    requires S.Lists(list, rows, q) && HasSource(list, b)
    ensures b.id in RepliedRows(rows, q) && b.reply == rows[b.id].reply
  {
    var i :| IsSource(list, i, b);
  }

  /** The collected replies are the replies of the table. */
  lemma RepliedOfTable(list: seq<S.Row>, rows: Rows, q: nat)
    requires S.Lists(list, rows, q)
    ensures Distinct(RepliedOf(list))
    ensures AsReplies(RepliedOf(list)) == RepliesNow(rows, q)
    ensures |RepliedOf(list)| == |RepliedRows(rows, q)|
  {
    var replied := RepliedOf(list);
    RepliedOfDistinct(list);
    RepliedOfIds(list, rows, q);
    DistinctCount(replied);
    SameReplies(list, rows, q, replied);
  }

  lemma SameReplies(list: seq<S.Row>, rows: Rows, q: nat, replied: seq<Ballot>)
    requires S.Lists(list, rows, q) && Sourced(list, replied)
    requires Distinct(replied) && Ids(replied) == RepliedRows(rows, q)
    ensures AsReplies(replied) == RepliesNow(rows, q)
  {
    var collected := AsReplies(replied);
    forall id | id in collected ensures collected[id] == rows[id].reply {
      var k :| 0 <= k < |replied| && replied[k].id == id;
      SourcedReply(list, rows, q, replied[k]);
    }
  }

  /** What an answer to this row gets: it is recorded exactly when the row is claimed,
      its deadline has not passed and the answer is short enough. */
  function VerdictOn(row: Assignment, now: int, fits: bool): (verdict: Verdict)
    ensures verdict == Recorded <==> row.status == Claimed && now <= row.ddl && fits
    ensures verdict == TooLong <==> row.status == Claimed && now <= row.ddl && !fits
    ensures verdict == DeadlinePassed <==> row.status == Claimed && row.ddl < now
    ensures verdict == NoAssignment <==> row.status != Claimed
  {
    match row.status
    case Claimed => if row.ddl < now then DeadlinePassed else if fits then Recorded else TooLong
    case _ => NoAssignment
  }

  class TimerManager {
    const store: S.Store
    const required: Positive
    /** From assignment to the timer armed for it. */
    var timers: map<nat, nat>
    /** Armed timers, and started goroutines that have not run yet. */
    var pending: map<nat, Thread>
    var nextThread: nat

    constructor (store: S.Store, required: Positive)
      ensures this.store == store && this.required == required
      ensures timers == map[] && pending == map[] && nextThread == 0
    {
      this.store, this.required := store, required;
      timers, pending, nextThread := map[], map[], 0;
    }

    ghost predicate Valid()
      reads this
    {
      forall t :: t in pending ==> t < nextThread
    }

    /** The protocol state while no handler is half-way. */
    ghost function View(now: int): State
      reads this, store
    {
      State(store.Snapshot(), now, pending, nextThread, timers, {})
    }

    /// ## Scoring

    /** Collects the replied rows of a question in a loop. */
    method CollectReplied(q: nat) returns (replied: seq<Ballot>)
      ensures Distinct(replied) && AsReplies(replied) == RepliesNow(store.rows, q)
      ensures |replied| == |RepliedRows(store.rows, q)|
    {
      var list := store.ListAssignmentsByQuestion(q);
      replied := [];
      for i := 0 to |list|
        invariant replied == RepliedOf(list[..i])
      {
        assert list[..i + 1][..i] == list[..i];
        if list[i].columns.status == Replied {
          replied := replied + [Ballot(list[i].id, list[i].columns.reply)];
        }
      }
      assert list[..|list|] == list;
      RepliedOfTable(list, store.rows, q);
    }

    /** Writes the scores one by one, in the order of the list. */
    method WriteScores(scores: seq<Entry>, ghost marks: map<nat, Mark>)
      requires Agrees(scores, marks)
      modifies store
      ensures store.Snapshot() == WriteAll(old(store.Snapshot()), marks)
    {
      ghost var todo := marks;
      for i := 0 to |scores|
        invariant Remaining(scores, i, marks, todo)
        invariant WriteAll(store.Snapshot(), todo) == WriteAll(old(store.Snapshot()), marks)
      {
        var e := scores[i];
        RemainingStep(scores, i, marks, todo);
        WriteAllOne(store.Snapshot(), todo, e.id);
        store.SetAssignmentScore(e.id, e.mark.score, e.mark.share);
        todo := todo - {e.id};
      }
      assert todo == map[];
      WriteAllNone(store.Snapshot());
    }

    /** Reads, judges, runs the compare-and-set and writes every mark; an error when
        the question is open and has no reply. */
    method ScoreQuestion(q: nat, now: int) returns (err: bool)
      modifies store
      ensures store.Snapshot() == ScoreAlone(old(store.Snapshot()), q, now)
      ensures err <==> (q in old(store.questions) && old(store.questions)[q].status == Submitted
                        && RepliedRows(old(store.rows), q) == {})
    {
      if q !in store.questions || store.questions[q].status != Submitted {
        return false;
      }
      var reference := store.questions[q].answer;
      var replied := CollectReplied(q);
      var r := ScoreReplies(reference, replied);
      if r.Err? {
        return true;
      }
      ghost var marks := Judge(reference, AsReplies(replied)).marks;
      var updated := store.ScoreQuestion(q, r.value.0, r.value.1, r.value.2, now);
      if !updated {
        return false;
      }
      WriteScores(r.value.3, marks);
      return false;
    }

    /** Counts the replies in a loop and scores when there are enough. */
    method TryScore(q: nat, now: int)
      modifies store
      ensures store.Snapshot() == TryScoreAlone(required, old(store.Snapshot()), q, now)
    {
      var list := store.ListAssignmentsByQuestion(q);
      var repliedCount := 0;
      for i := 0 to |list|
        invariant repliedCount == |RepliedOf(list[..i])|
      {
        assert list[..i + 1][..i] == list[..i];
        if list[i].columns.status == Replied {
          repliedCount := repliedCount + 1;
        }
      }
      assert list[..|list|] == list;
      RepliedOfTable(list, store.rows, q);
      if repliedCount >= required {
        var err := ScoreQuestion(q, now);
      }
    }

    /// ## Timers

    method StartReplyTimer(a: nat, q: nat, ddl: int, now: int)
      requires Valid()
      modifies this
      ensures Valid() && View(now) == StartAlone(old(View(now)), a, q, ddl)
    {
      var t := nextThread;
      nextThread := nextThread + 1;
      if ddl <= now {
        pending := pending[t := Firing(a, q)];
        return;
      }
      pending := pending[t := Armed(a, q, ddl)];
      timers := timers[a := t];
    }

    /** Forgets the entry and stops the timer unless it has fired already. */
    method CancelTimer(a: nat, ghost now: int)
      requires Valid()
      modifies this
      ensures Valid() && View(now) == Cancelled(old(View(now)), a)
    {
      if a in timers {
        var timer := timers[a];
        timers := timers - {a};
        if timer in pending && pending[timer].Armed? {
          pending := pending - {timer};
        }
      }
    }

    /** The goroutine `t` of a timer that fired. */
    method HandleTimeout(t: nat, now: int)
      requires Valid() && t in pending && pending[t].Firing?
      modifies this, store
      ensures Valid()
      ensures var s, firing := old(View(now)), old(pending)[t];
        View(now) == End(s.(timers := s.timers - {firing.a},
                            db := TimeoutAlone(required, s.db, firing.a, firing.q, now)), t)
    {
      var a, q := pending[t].a, pending[t].q;
      pending := pending - {t};
      timers := timers - {a};
      if a !in store.rows || store.rows[a].status != Claimed {
        return;
      }
      var updated := store.TimeoutAssignment(a);
      if !updated {
        return;
      }
      TryScore(q, now);
    }

    /// ## Answers

    /** The callback after a recorded reply. Its TryScore runs at once here; in the
        source it is a goroutine. */
    method AnswerSubmitted(a: nat, q: nat, now: int)
      requires Valid()
      modifies this, store
      ensures Valid()
      ensures var told := Cancelled(old(View(now)), a);
        View(now) == told.(db := TryScoreAlone(required, told.db, q, now))
    {
      CancelTimer(a, now);
      TryScore(q, now);
    }

    /** Writes the reply of a claimed row and calls back. */
    method RecordReply(a: nat, q: nat, valid: bool, answer: string, now: int)
      requires Valid() && StillClaimed(store.Snapshot(), a)
      modifies this, store
      ensures Valid()
      ensures View(now) == RecordAlone(required, old(View(now)), q, valid, answer, a)
      ensures HasReply(store.rows, a, old(store.rows)[a].question, old(store.rows)[a].worker, valid, answer)
    {
      RecordHolds(required, View(now), q, valid, answer, a);
      var ok := store.SetAssignmentReply(a, valid, answer);
      AnswerSubmitted(a, q, now);
    }

    /** The checks and the write for the row that was found. */
    method AnswerRow(a: nat, q: nat, w: Address, valid: bool, answer: string, answerMaxLen: nat, now: int)
      returns (verdict: Verdict)
      requires Valid() && a in Attempts(store.rows, w, q)
      modifies this, store
      ensures Valid()
      ensures var s, fits := old(View(now)), ByteLength(answer) <= answerMaxLen;
        && verdict == SubmitVerdict(s, q, w, fits, a)
        && View(now) == SubmitAlone(required, s, q, w, valid, answer, fits, a)
      ensures verdict == VerdictOn(old(store.rows)[a], now, ByteLength(answer) <= answerMaxLen)
      ensures verdict == Recorded ==> HasReply(store.rows, a, q, w, valid, answer)
      ensures verdict == DeadlinePassed ==>
        store.rows == old(store.rows)[a := old(store.rows)[a].(status := TimedOut, score := 0, share := 0)]
      ensures verdict in {NoAssignment, TooLong} ==> store.Snapshot() == old(store.Snapshot())
    {
      if store.rows[a].status != Claimed {
        return NoAssignment;
      }
      if now > store.rows[a].ddl {
        var updated := store.TimeoutAssignment(a);
        return DeadlinePassed;
      }
      if ByteLength(answer) > answerMaxLen {
        return TooLong;
      }
      RecordReply(a, q, valid, answer, now);
      return Recorded;
    }

    method SubmitAnswer(q: nat, w: Address, valid: bool, answer: string, answerMaxLen: nat, now: int)
      returns (verdict: Verdict, ghost read: nat)
      requires Valid()
      modifies this, store
      ensures Valid()
      ensures read in Attempts(old(store.rows), w, q) || Attempts(old(store.rows), w, q) == {}
      ensures var s, fits := old(View(now)), ByteLength(answer) <= answerMaxLen;
        && verdict == SubmitVerdict(s, q, w, fits, read)
        && View(now) == SubmitAlone(required, s.(nextThread := s.nextThread + 1), q, w, valid, answer, fits, read)
      ensures verdict == if Attempts(old(store.rows), w, q) == {} then NoAssignment
                         else VerdictOn(old(store.rows)[read], now, ByteLength(answer) <= answerMaxLen)
      ensures verdict == Recorded ==> HasReply(store.rows, read, q, w, valid, answer)
      ensures verdict == DeadlinePassed ==>
        store.rows == old(store.rows)[read := old(store.rows)[read].(status := TimedOut, score := 0, share := 0)]
      ensures verdict in {NoAssignment, TooLong} ==> store.Snapshot() == old(store.Snapshot())
    {
      ghost var s, fits := View(now), ByteLength(answer) <= answerMaxLen;
      nextThread := nextThread + 1;
      ghost var started := View(now);
      assert started == s.(nextThread := s.nextThread + 1);
      var found := store.GetAssignmentByWorker(q, w);
      if found.None? {
        NoRowNoAnswer(required, started, q, w, valid, answer, fits, 0);
        VerdictIgnoresThreads(s, s.nextThread + 1, q, w, fits, 0);
        return NoAssignment, 0;
      }
      read := found.value;
      VerdictIgnoresThreads(s, s.nextThread + 1, q, w, fits, read);
      verdict := AnswerRow(found.value, q, w, valid, answer, answerMaxLen, now);
    }

    /// ## Polling

    /** Claims a question, or hands out the live claim again. The candidates come from
        the snapshot `seen` and without the `locked` ones; the active rows are counted
        again once a question is picked, and a rejected insert rolls back. */
    method PollOnline(w: Address, ddl: int, now: int, seen: Rows, locked: set<nat>, ghost p: Params)
      returns (handed: Result<Option<nat>, string>, ghost held: Option<nat>, ghost pick: Option<nat>)
      requires Valid() && p.required == required && w in p.workers
      modifies this, store
      ensures Valid() && PollEnabled(p, old(View(now)), w, held, pick)
      ensures View(now) == PollAlone(old(View(now)), w, held, pick, ddl)
      ensures handed.Err? <==> pick.Some? && !MayClaim(Cleaned(old(store.Snapshot()), now, held), w)
      ensures handed.Ok? && handed.value.Some? ==>
        var a := handed.value.value; StillClaimed(store.Snapshot(), a) && store.rows[a].worker == w
      ensures handed == Ok(None) ==> NothingToOffer(store.Snapshot(), seen, locked, w, required)
    {
      pick := None;
      var before := store.Snapshot();
      var existing := store.FindClaimedAssignment(w);
      held := existing;
      if existing.Some? {
        var row := store.rows[existing.value];
        if now > row.ddl {
          var updated := store.TimeoutAssignment(existing.value);
        } else {
          StartReplyTimer(existing.value, row.question, row.ddl, now);
          return Ok(existing), held, pick;
        }
      }
      var picked := store.PickQuestionForWorker(w, required, seen, locked);
      if picked.None? {
        return Ok(None), held, pick;
      }
      var count := store.CountActiveAssignments(picked.value);
      if count >= required {
        return Ok(None), held, pick;
      }
      pick := picked;
      var created := store.CreateAssignment(picked.value, w, ddl);
      if created.None? {
        store.Rollback(before);
        return Err("create assignment"), held, pick;
      }
      StartReplyTimer(created.value, picked.value, ddl, now);
      return Ok(created), held, pick;
    }
  }

  /** Why a worker goes away empty-handed: other transactions hold every question on
      offer, or the one picked had its slots taken since the snapshot. */
  predicate NothingToOffer(db: Db, seen: Rows, locked: set<nat>, w: Address, required: nat)
  {
    var offered := Offered(db, seen, w, required);
    offered <= locked || exists q :: q in offered - locked && |Active(db.rows, q)| >= required
  }

  /** `todo` holds the marks of the entries from `i` on. */
  ghost predicate Remaining(scores: seq<Entry>, i: nat, marks: map<nat, Mark>, todo: map<nat, Mark>)
  {
    && i <= |scores|
    && todo.Keys <= marks.Keys
    && (forall id :: id in todo ==> todo[id] == marks[id])
    && (forall id :: id in marks ==> (id in todo <==> exists k :: i <= k < |scores| && scores[k].id == id))
  }

  lemma RemainingStep(scores: seq<Entry>, i: nat, marks: map<nat, Mark>, todo: map<nat, Mark>)
    requires Agrees(scores, marks) && Remaining(scores, i, marks, todo) && i < |scores|
    ensures scores[i].id in todo && todo[scores[i].id] == scores[i].mark
    ensures Remaining(scores, i + 1, marks, todo - {scores[i].id})
  {
    var id := scores[i].id;
    assert id in marks && id in todo;
    forall other | other in marks
      ensures other in todo - {id} <==> exists k :: i + 1 <= k < |scores| && scores[k].id == other
    {
      if other in todo && other != id {
        var k :| i <= k < |scores| && scores[k].id == other;
        assert k != i;
      }
    }
  }
}
