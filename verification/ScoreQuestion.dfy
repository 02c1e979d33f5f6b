/** The computation inside ScoreQuestion, as the source runs it: lists filled in
    a loop, a map of answer groups visited in no particular order, and a list of
    scores (internal/service/scoring.go:71-177). */
module ScoreQuestion {
  import opened Wrappers
  import opened Scoring
  import opened Sets

  /** A replied assignment: its id and its reply columns. */
  datatype Ballot = Ballot(id: nat, reply: Reply)

  /** One entry of the list of scores to write. */
  datatype Entry = Entry(id: nat, mark: Mark)

  predicate Distinct(bs: seq<Ballot>)
  {
    forall i, j :: 0 <= i < j < |bs| ==> bs[i].id != bs[j].id
  }

  function Ids(bs: seq<Ballot>): set<nat>
  {
    set i | 0 <= i < |bs| :: bs[i].id
  }

  function AsReplies(bs: seq<Ballot>): (replies: Replies)
    requires Distinct(bs)
    ensures replies.Keys == Ids(bs)
    ensures forall i :: 0 <= i < |bs| ==> bs[i].id in replies && replies[bs[i].id] == bs[i].reply
  {
    map i | 0 <= i < |bs| :: bs[i].id := bs[i].reply
  }

  lemma {:induction false} DistinctCount(bs: seq<Ballot>)
    requires Distinct(bs)
    ensures |Ids(bs)| == |bs|
    decreases |bs|
  {
    if bs != [] {
      var front := bs[..|bs| - 1];
      DistinctCount(front);
      assert Ids(bs) == Ids(front) + {bs[|bs| - 1].id};
    }
  }

  /// ## Lists of replies selected by a test

  function CorrectTest(reference: string): Reply -> bool { r => IsCorrect(reference, r) }

  function WrongTest(reference: string): Reply -> bool { r => IsWrong(reference, r) }

  function VerdictTest(key: string): Reply -> bool { r => Judged(r) && Verdict(r) == key }

  /** `list` holds each ballot of `from` that passes `test`, once. */
  ghost predicate Collects(list: seq<Ballot>, from: seq<Ballot>, test: Reply -> bool)
  {
    Distinct(list) && forall b :: b in list <==> b in from && test(b.reply)
  }

  lemma CollectsStep(list: seq<Ballot>, from: seq<Ballot>, test: Reply -> bool, b: Ballot)
    requires Distinct(from + [b]) && Collects(list, from, test)
    ensures Collects(if test(b.reply) then list + [b] else list, from + [b], test)
  {
    forall i | 0 <= i < |list| ensures list[i].id != b.id {
      assert list[i] in list;
      var j :| 0 <= j < |from| && from[j] == list[i];
      assert (from + [b])[j] == list[i] && (from + [b])[|from|] == b;
    }
    forall c ensures c in from + [b] <==> c in from || c == b {}
    if test(b.reply) {
      forall c ensures c in list + [b] <==> c in list || c == b {}
    }
  }

  lemma CollectsIds(list: seq<Ballot>, from: seq<Ballot>, test: Reply -> bool)
    requires Distinct(from) && Collects(list, from, test)
    ensures Ids(list) == set id | id in AsReplies(from) && test(AsReplies(from)[id])
    ensures |Ids(list)| == |list|
  {
    DistinctCount(list);
    var selected := set id | id in AsReplies(from) && test(AsReplies(from)[id]);
    forall id | id in Ids(list) ensures id in selected {
      var i :| 0 <= i < |list| && list[i].id == id;
      assert list[i] in list;
      var j :| 0 <= j < |from| && from[j] == list[i];
    }
    forall id | id in selected ensures id in Ids(list) {
      var j :| 0 <= j < |from| && from[j].id == id;
      assert from[j] in list;
    }
  }

  /// ## The list of scores

  function Entries(list: seq<Ballot>, mark: Mark): seq<Entry>
  {
    seq(|list|, i requires 0 <= i < |list| => Entry(list[i].id, mark))
  }

  method AppendEntries(scores: seq<Entry>, list: seq<Ballot>, mark: Mark) returns (more: seq<Entry>)
    ensures more == scores + Entries(list, mark)
  {
    more := scores;
    for i := 0 to |list|
      invariant more == scores + Entries(list[..i], mark)
    {
      more := more + [Entry(list[i].id, mark)];
      assert list[..i + 1] == list[..i] + [list[i]];
    }
    assert list[..|list|] == list;
  }

  /** The list writes every mark once and nothing else. */
  ghost predicate Agrees(scores: seq<Entry>, marks: map<nat, Mark>)
  {
    && (forall i, j :: 0 <= i < j < |scores| ==> scores[i].id != scores[j].id)
    && (forall i :: 0 <= i < |scores| ==> scores[i].id in marks && marks[scores[i].id] == scores[i].mark)
    && (forall id :: id in marks ==> exists i :: 0 <= i < |scores| && scores[i].id == id)
  }

  lemma AgreesAppend(scores: seq<Entry>, marks: map<nat, Mark>, list: seq<Ballot>, mark: Mark, all: map<nat, Mark>)
    requires Agrees(scores, marks) && Distinct(list)
    requires all.Keys == marks.Keys + Ids(list) && marks.Keys !! Ids(list)
    requires forall id :: id in all ==> all[id] == if id in marks then marks[id] else mark
    ensures Agrees(scores + Entries(list, mark), all)
  {
    var more := scores + Entries(list, mark);
    forall i | 0 <= i < |list| ensures list[i].id in Ids(list) {}
    forall id | id in all ensures exists i :: 0 <= i < |more| && more[i].id == id {
      if id in marks {
        var i :| 0 <= i < |scores| && scores[i].id == id;
        assert more[i].id == id;
      } else {
        var i :| 0 <= i < |list| && list[i].id == id;
        assert more[|scores| + i].id == id;
      }
    }
  }

  /// ## Classification

  method Classify(reference: string, replied: seq<Ballot>)
    returns (correct: seq<Ballot>, wrong: seq<Ballot>, invalid: seq<Ballot>)
    requires Distinct(replied)
    ensures Collects(correct, replied, CorrectTest(reference))
    ensures Collects(wrong, replied, WrongTest(reference))
    ensures Collects(invalid, replied, VerdictTest("invalid"))
  {
    correct, wrong, invalid := [], [], [];
    for i := 0 to |replied|
      invariant Collects(correct, replied[..i], CorrectTest(reference))
      invariant Collects(wrong, replied[..i], WrongTest(reference))
      invariant Collects(invalid, replied[..i], VerdictTest("invalid"))
    {
      var a := replied[i];
      assert replied[..i + 1] == replied[..i] + [a];
      CollectsStep(correct, replied[..i], CorrectTest(reference), a);
      CollectsStep(wrong, replied[..i], WrongTest(reference), a);
      CollectsStep(invalid, replied[..i], VerdictTest("invalid"), a);
      assert a.reply.valid == Some(true) ==> Verdict(a.reply)[0] != "invalid"[0];
      if a.reply.valid == None {
      } else if !a.reply.valid.value {
        invalid := invalid + [a];
      } else if CheckAnswer(reference, Deref(a.reply.answer)) {
        correct := correct + [a];
      } else {
        wrong := wrong + [a];
      }
    }
    assert replied[..|replied|] == replied;
  }

  /// ## Plurality

  /** The groups that actually occur, each with its members. */
  ghost predicate GroupsOf(groups: map<string, seq<Ballot>>, replied: seq<Ballot>)
  {
    && (forall key :: key in groups ==> groups[key] != [] && Collects(groups[key], replied, VerdictTest(key)))
    && (forall b :: b in replied && Judged(b.reply) ==> Verdict(b.reply) in groups)
  }

  ghost predicate AnswerGroupsOf(groups: map<string, seq<Ballot>>, replied: seq<Ballot>)
  {
    && "invalid" !in groups
    && (forall key :: key in groups ==> groups[key] != [] && Collects(groups[key], replied, VerdictTest(key)))
    && (forall b :: b in replied && b.reply.valid == Some(true) ==> Verdict(b.reply) in groups)
  }

  /** A reply that is not a valid answer leaves the answer groups alone. */
  lemma AnswerGroupsSkip(groups: map<string, seq<Ballot>>, replied: seq<Ballot>, a: Ballot)
    requires Distinct(replied + [a]) && AnswerGroupsOf(groups, replied)
    requires a.reply.valid != Some(true)
    ensures AnswerGroupsOf(groups, replied + [a])
  {
    forall key | key in groups ensures Collects(groups[key], replied + [a], VerdictTest(key)) {
      CollectsStep(groups[key], replied, VerdictTest(key), a);
      assert !VerdictTest(key)(a.reply);
    }
    forall b | b in replied + [a] ensures b in replied || b == a {}
  }

  /** A valid answer joins its own group and no other. */
  lemma AnswerGroupsJoin(groups: map<string, seq<Ballot>>, replied: seq<Ballot>, a: Ballot)
    requires Distinct(replied + [a]) && AnswerGroupsOf(groups, replied)
    requires a.reply.valid == Some(true)
    ensures var key := Verdict(a.reply);
      AnswerGroupsOf(groups[key := (if key in groups then groups[key] else []) + [a]], replied + [a])
  {
    var key := Verdict(a.reply);
    assert key[0] == 'a' && "invalid"[0] == 'i';
    var was := if key in groups then groups[key] else [];
    assert Collects(was, replied, VerdictTest(key));
    CollectsStep(was, replied, VerdictTest(key), a);
    assert VerdictTest(key)(a.reply);
    forall k | k in groups && k != key ensures Collects(groups[k], replied + [a], VerdictTest(k)) {
      CollectsStep(groups[k], replied, VerdictTest(k), a);
      assert !VerdictTest(k)(a.reply);
    }
    forall b | b in replied + [a] ensures b in replied || b == a {}
  }

  method GroupReplies(replied: seq<Ballot>) returns (groups: map<string, seq<Ballot>>)
    requires Distinct(replied)
    ensures GroupsOf(groups, replied)
  {
    groups := map[];
    var invalidGroup: seq<Ballot> := [];
    for i := 0 to |replied|
      invariant AnswerGroupsOf(groups, replied[..i])
      invariant Collects(invalidGroup, replied[..i], VerdictTest("invalid"))
    {
      var a := replied[i];
      assert replied[..i + 1] == replied[..i] + [a];
      CollectsStep(invalidGroup, replied[..i], VerdictTest("invalid"), a);
      assert a.reply.valid == Some(true) ==> Verdict(a.reply)[0] != "invalid"[0];
      if a.reply.valid != Some(true) {
        AnswerGroupsSkip(groups, replied[..i], a);
      } else {
        AnswerGroupsJoin(groups, replied[..i], a);
      }
      if a.reply.valid == None {
      } else if !a.reply.valid.value {
        invalidGroup := invalidGroup + [a];
      } else {
        var key := "answer:" + Deref(a.reply.answer);
        groups := groups[key := (if key in groups then groups[key] else []) + [a]];
      }
    }
    assert replied[..|replied|] == replied;
    if |invalidGroup| > 0 {
      groups := groups["invalid" := invalidGroup];
    } else {
      forall b | b in replied ensures b.reply.valid != Some(false) {
        assert b in invalidGroup <==> VerdictTest("invalid")(b.reply);
      }
    }
  }

  method LargestSize(groups: map<string, seq<Ballot>>) returns (maxSize: nat)
    ensures forall key :: key in groups ==> |groups[key]| <= maxSize
    ensures groups != map[] ==> exists key :: key in groups && |groups[key]| == maxSize
  {
    maxSize := 0;
    var todo := groups.Keys;
    while todo != {}
      invariant todo <= groups.Keys
      invariant forall key :: key in groups && key !in todo ==> |groups[key]| <= maxSize
      invariant maxSize == 0 || exists key :: key in groups && |groups[key]| == maxSize
      decreases todo
    {
      var key :| key in todo;
      if |groups[key]| > maxSize {
        maxSize := |groups[key]|;
      }
      todo := todo - {key};
    }
    if maxSize == 0 && groups != map[] {
      var key :| key in groups;
      assert |groups[key]| == 0;
    }
  }

  /** Visits the groups in an arbitrary order; the winners come out as the same set. */
  method SplitWinners(replied: seq<Ballot>, groups: map<string, seq<Ballot>>, maxSize: nat)
    returns (winners: seq<Ballot>, losers: set<nat>)
    requires Distinct(replied) && GroupsOf(groups, replied)
    ensures Distinct(winners)
    ensures forall b :: b in winners <==>
      (InGroups(b, replied, groups, groups.Keys) && |groups[Verdict(b.reply)]| == maxSize)
    ensures forall b :: b in replied ==>
      (b.id in losers <==> Judged(b.reply) && |groups[Verdict(b.reply)]| != maxSize)
  {
    winners, losers := [], {};
    var todo := groups.Keys;
    while todo != {}
      invariant todo <= groups.Keys
      invariant Distinct(winners)
      invariant forall b :: b in winners <==>
        InGroups(b, replied, groups, groups.Keys - todo) && |groups[Verdict(b.reply)]| == maxSize
      invariant forall b :: b in replied ==>
        (b.id in losers <==> InGroups(b, replied, groups, groups.Keys - todo) && |groups[Verdict(b.reply)]| != maxSize)
      decreases todo
    {
      var key :| key in todo;
      var g := groups[key];
      ghost var done := groups.Keys - todo;
      GroupVisited(replied, groups, done, key);
      assert groups.Keys - (todo - {key}) == done + {key};
      if |g| == maxSize {
        JoinDistinct(winners, g, replied);
        winners := winners + g;
      } else {
        losers := losers + Ids(g);
      }
      todo := todo - {key};
    }
    assert groups.Keys - todo == groups.Keys;
  }

  /** `b` is a reply that belongs to one of the visited groups. */
  ghost predicate InGroups(b: Ballot, replied: seq<Ballot>, groups: map<string, seq<Ballot>>, visited: set<string>)
  {
    b in replied && Judged(b.reply) && Verdict(b.reply) in visited && Verdict(b.reply) in groups
  }

  lemma SameIdSameBallot(replied: seq<Ballot>, b: Ballot, c: Ballot)
    requires Distinct(replied) && b in replied && c in replied && b.id == c.id
    ensures b == c
  {
  }

  lemma GroupVisited(replied: seq<Ballot>, groups: map<string, seq<Ballot>>, done: set<string>, key: string)
    requires Distinct(replied) && GroupsOf(groups, replied) && key in groups && key !in done
    ensures forall b :: InGroups(b, replied, groups, done + {key}) <==>
      (InGroups(b, replied, groups, done) || b in groups[key])
    ensures forall b :: b in groups[key] ==> b in replied && !InGroups(b, replied, groups, done)
    ensures forall b :: b in replied ==> (b.id in Ids(groups[key]) <==> b in groups[key])
  {
    var g := groups[key];
    forall b ensures b in g <==> b in replied && Judged(b.reply) && Verdict(b.reply) == key {
      assert b in g <==> b in replied && VerdictTest(key)(b.reply);
    }
    forall b | b in replied && b.id in Ids(g) ensures b in g {
      var i :| 0 <= i < |g| && g[i].id == b.id;
      assert g[i] in g;
      SameIdSameBallot(replied, b, g[i]);
    }
  }

  lemma JoinDistinct(a: seq<Ballot>, b: seq<Ballot>, replied: seq<Ballot>)
    requires Distinct(replied) && Distinct(a) && Distinct(b)
    requires forall x :: x in a ==> x in replied
    requires forall x :: x in b ==> x in replied && x !in a
    ensures Distinct(a + b)
  {
    forall i, j | 0 <= i < |a| && 0 <= j < |b| ensures a[i].id != b[j].id {
      assert a[i] in a && b[j] in b;
      if a[i].id == b[j].id {
        SameIdSameBallot(replied, a[i], b[j]);
      }
    }
  }

  /** The method's winners are the reference's winners. */
  lemma WinnersMatch(replied: seq<Ballot>, groups: map<string, seq<Ballot>>, maxSize: nat, winners: seq<Ballot>)
    requires Distinct(replied) && GroupsOf(groups, replied)
    requires forall key :: key in groups ==> |groups[key]| <= maxSize
    requires groups != map[] ==> exists key :: key in groups && |groups[key]| == maxSize
    requires Distinct(winners)
    requires forall b :: b in winners <==>
      (InGroups(b, replied, groups, groups.Keys) && |groups[Verdict(b.reply)]| == maxSize)
    ensures Ids(winners) == Winners(AsReplies(replied))
    ensures |Ids(winners)| == |winners|
  {
    var replies := AsReplies(replied);
    DistinctCount(winners);
    forall key | key in groups ensures |Group(replies, key)| == |groups[key]| {
      CollectsIds(groups[key], replied, VerdictTest(key));
      assert Group(replies, key) == Ids(groups[key]);
    }
    forall b | b in replied && Judged(b.reply)
      ensures Unbeaten(replies, Verdict(b.reply)) <==> |groups[Verdict(b.reply)]| == maxSize
    {
      UnbeatenIsLargest(replied, groups, maxSize, Verdict(b.reply));
    }
    forall b ensures b in winners <==> b in replied && Judged(b.reply) && Unbeaten(replies, Verdict(b.reply)) {}
    SelectedIds(replied, winners, Winners(replies));
  }

  /** A list selecting the ballots of a set of ids has those ids. */
  lemma SelectedIds(replied: seq<Ballot>, list: seq<Ballot>, ids: set<nat>)
    requires Distinct(replied) && ids <= AsReplies(replied).Keys
    requires forall b :: b in list <==> b in replied && b.id in ids
    ensures Ids(list) == ids
  {
    forall id ensures id in Ids(list) <==> id in ids {
      if id in Ids(list) {
        var i :| 0 <= i < |list| && list[i].id == id;
        assert list[i] in list;
      }
      if id in ids {
        var j :| 0 <= j < |replied| && replied[j].id == id;
        assert replied[j] in list;
      }
    }
  }

  lemma UnbeatenIsLargest(replied: seq<Ballot>, groups: map<string, seq<Ballot>>, maxSize: nat, key: string)
    requires Distinct(replied) && GroupsOf(groups, replied) && key in groups
    requires forall k :: k in groups ==> |groups[k]| <= maxSize
    requires exists k :: k in groups && |groups[k]| == maxSize
    requires forall k :: k in groups ==> |Group(AsReplies(replied), k)| == |groups[k]|
    ensures Unbeaten(AsReplies(replied), key) <==> |groups[key]| == maxSize
  {
    var replies := AsReplies(replied);
    var k :| k in groups && |groups[k]| == maxSize;
    var b := groups[k][0];
    assert b in groups[k];
    assert b in replied && VerdictTest(k)(b.reply);
    var j :| 0 <= j < |replied| && replied[j] == b;
    assert b.id in replies && Verdict(replies[b.id]) == k;
    if |groups[key]| == maxSize {
      forall id | id in replies && Judged(replies[id])
        ensures |Group(replies, Verdict(replies[id]))| <= |Group(replies, key)|
      {
        var i :| 0 <= i < |replied| && replied[i].id == id;
        assert replied[i] in replied && Verdict(replied[i].reply) in groups;
      }
    }
  }

  /// ## The whole computation

  /** Either the error for an empty reply list, or exactly the reference outcome:
      the question's columns, and every mark written once. */
  method ScoreReplies(reference: string, replied: seq<Ballot>)
    returns (r: Result<(nat, Fraction, Fraction, seq<Entry>), string>)
    requires Distinct(replied)
    ensures r.Err? <==> replied == []
    ensures r.Ok? ==> IsOutcome(Judge(reference, AsReplies(replied)), r.value.0, r.value.1, r.value.2, r.value.3)
  {
    if |replied| == 0 {
      return Err("no replied assignments");
    }
    var correct, wrong, invalid := Classify(reference, replied);
    var nCorrect, nTotal := |correct|, |replied|;
    var qScore: nat, qShare: Fraction, scores: seq<Entry>;
    if nCorrect > 0 {
      var q := QuestionerCase3Score(nCorrect);
      qScore, qShare := q.0, q.1;
      scores := AppendEntries([], correct, Mark(5, Fraction(1, nCorrect)));
      scores := AppendEntries(scores, wrong, Mark(3, NO_SHARE));
      scores := AppendEntries(scores, invalid, Mark(2, NO_SHARE));
      Case3Agrees(reference, replied, correct, wrong, invalid);
    } else if |invalid| == nTotal {
      qScore, qShare := 0, NO_SHARE;
      scores := AppendEntries([], invalid, Mark(5, Fraction(1, nTotal)));
      Case1Agrees(reference, replied, correct, invalid);
    } else {
      qScore, qShare := 1, Fraction(1, 10);
      var winners, lost := Plurality(replied);
      scores := AppendEntries([], winners, Mark(5, Fraction(1, |winners|)));
      scores := AppendEntries(scores, lost, Mark(2, NO_SHARE));
      Case2Agrees(reference, replied, correct, invalid, winners, lost);
    }
    r := Ok((qScore, qShare, Fraction(nCorrect, nTotal), scores));
  }

  ghost predicate IsOutcome(o: Outcome, score: nat, share: Fraction, passRate: Fraction, scores: seq<Entry>)
  {
    o.score == score && o.share == share && o.passRate == passRate && Agrees(scores, o.marks)
  }

  /** Case 2: the largest groups win, everyone else with a validity flag loses. */
  method Plurality(replied: seq<Ballot>) returns (winners: seq<Ballot>, lost: seq<Ballot>)
    requires Distinct(replied)
    ensures IsPlurality(replied, winners, lost)
  {
    var groups := GroupReplies(replied);
    var maxSize := LargestSize(groups);
    var losers: set<nat>;
    winners, losers := SplitWinners(replied, groups, maxSize);
    WinnersMatch(replied, groups, maxSize, winners);
    lost := Lost(replied, losers);
    LostAreTheRest(replied, groups, maxSize, winners, losers, lost);
  }

  ghost predicate IsPlurality(replied: seq<Ballot>, winners: seq<Ballot>, lost: seq<Ballot>)
    requires Distinct(replied)
  {
    && Distinct(winners) && Distinct(lost)
    && Ids(winners) == Winners(AsReplies(replied)) && |Ids(winners)| == |winners|
    && Ids(lost) == Losing(AsReplies(replied))
  }

  /** The judged replies outside every largest group. */
  function Losing(replies: Replies): set<nat>
  {
    set id | id in replies && Judged(replies[id]) && id !in Winners(replies)
  }

  /** The replies recorded as losers, in reply order. */
  method Lost(replied: seq<Ballot>, losers: set<nat>) returns (lost: seq<Ballot>)
    requires Distinct(replied)
    ensures Distinct(lost)
    ensures forall b :: b in lost <==> b in replied && b.id in losers
  {
    lost := [];
    for i := 0 to |replied|
      invariant Distinct(lost)
      invariant forall b :: b in lost <==> b in replied[..i] && b.id in losers
    {
      assert replied[..i + 1] == replied[..i] + [replied[i]];
      if replied[i].id in losers {
        forall j | 0 <= j < |lost| ensures lost[j].id != replied[i].id {
          assert lost[j] in lost;
        }
        lost := lost + [replied[i]];
      }
    }
    assert replied[..|replied|] == replied;
  }

  lemma LostAreTheRest(replied: seq<Ballot>, groups: map<string, seq<Ballot>>, maxSize: nat,
                       winners: seq<Ballot>, losers: set<nat>, lost: seq<Ballot>)
    requires Distinct(replied)
    requires forall c :: c in winners <==>
      (InGroups(c, replied, groups, groups.Keys) && |groups[Verdict(c.reply)]| == maxSize)
    requires GroupsOf(groups, replied)
    requires forall c :: c in replied ==> (c.id in losers <==> Judged(c.reply) && |groups[Verdict(c.reply)]| != maxSize)
    requires Ids(winners) == Winners(AsReplies(replied))
    requires forall b :: b in lost <==> b in replied && b.id in losers
    ensures Ids(lost) == Losing(AsReplies(replied))
  {
    forall b ensures b in lost <==> b in replied && b.id in Losing(AsReplies(replied)) {
      if b in replied {
        WonOrLost(replied, groups, maxSize, winners, losers, b);
      }
    }
    SelectedIds(replied, lost, Losing(AsReplies(replied)));
  }

  lemma WonOrLost(replied: seq<Ballot>, groups: map<string, seq<Ballot>>, maxSize: nat,
                  winners: seq<Ballot>, losers: set<nat>, b: Ballot)
    requires Distinct(replied) && b in replied && GroupsOf(groups, replied)
    requires forall c :: c in winners <==>
      (InGroups(c, replied, groups, groups.Keys) && |groups[Verdict(c.reply)]| == maxSize)
    requires forall c :: c in replied ==> (c.id in losers <==> Judged(c.reply) && |groups[Verdict(c.reply)]| != maxSize)
    requires Ids(winners) == Winners(AsReplies(replied))
    ensures b.id in losers <==> b.id in Losing(AsReplies(replied))
  {
    assert b.id in Ids(winners) <==> b in winners by {
      if b.id in Ids(winners) {
        var i :| 0 <= i < |winners| && winners[i].id == b.id;
        assert winners[i] in winners;
        SameIdSameBallot(replied, b, winners[i]);
      }
    }
  }

  lemma EntriesAgree(list: seq<Ballot>, mark: Mark, marks: map<nat, Mark>)
    requires Distinct(list) && marks.Keys == Ids(list)
    requires forall id :: id in marks ==> marks[id] == mark
    ensures Agrees([] + Entries(list, mark), marks)
  {
    AgreesAppend([], map[], list, mark, marks);
  }

  /** Two disjoint lists, each with its own mark, cover the marks. */
  lemma AgreesTwo(a: seq<Ballot>, ma: Mark, b: seq<Ballot>, mb: Mark, marks: map<nat, Mark>)
    requires Distinct(a) && Distinct(b) && Ids(a) !! Ids(b)
    requires marks.Keys == Ids(a) + Ids(b)
    requires forall id :: id in marks ==> marks[id] == if id in Ids(a) then ma else mb
    ensures Agrees([] + Entries(a, ma) + Entries(b, mb), marks)
  {
    var first := map id | id in Ids(a) :: ma;
    assert first.Keys == Ids(a);
    EntriesAgree(a, ma, first);
    AgreesAppend([] + Entries(a, ma), first, b, mb, marks);
  }

  lemma AgreesThree(a: seq<Ballot>, ma: Mark, b: seq<Ballot>, mb: Mark, c: seq<Ballot>, mc: Mark, marks: map<nat, Mark>)
    requires Distinct(a) && Distinct(b) && Distinct(c)
    requires Ids(a) !! Ids(b) && Ids(a) !! Ids(c) && Ids(b) !! Ids(c)
    requires marks.Keys == Ids(a) + Ids(b) + Ids(c)
    requires forall id :: id in marks ==> marks[id] == if id in Ids(a) then ma else if id in Ids(b) then mb else mc
    ensures Agrees([] + Entries(a, ma) + Entries(b, mb) + Entries(c, mc), marks)
  {
    var two := map id | id in Ids(a) + Ids(b) :: marks[id];
    assert two.Keys == Ids(a) + Ids(b);
    AgreesTwo(a, ma, b, mb, two);
    AgreesAppend([] + Entries(a, ma) + Entries(b, mb), two, c, mc, marks);
  }

  /** The lists hold the reference's sets. */
  lemma SetsFromLists(reference: string, replied: seq<Ballot>, correct: seq<Ballot>, invalid: seq<Ballot>)
    requires Distinct(replied)
    requires Collects(correct, replied, CorrectTest(reference))
    requires Collects(invalid, replied, VerdictTest("invalid"))
    ensures Correct(reference, AsReplies(replied)) == Ids(correct) && |Ids(correct)| == |correct|
    ensures Group(AsReplies(replied), "invalid") == Ids(invalid) && |Ids(invalid)| == |invalid|
    ensures |AsReplies(replied)| == |replied| && |AsReplies(replied).Keys| == |replied|
  {
    CollectsIds(correct, replied, CorrectTest(reference));
    CollectsIds(invalid, replied, VerdictTest("invalid"));
    DistinctCount(replied);
    assert Correct(reference, AsReplies(replied)) == Ids(correct);
    assert Group(AsReplies(replied), "invalid") == Ids(invalid);
  }

  lemma SomeIds(list: seq<Ballot>)
    ensures Ids(list) != {} <==> |list| > 0
  {
    if |list| > 0 {
      assert list[0].id in Ids(list);
    }
  }

  /** The lists give the case away. */
  lemma CaseFromLists(reference: string, replied: seq<Ballot>, correct: seq<Ballot>, invalid: seq<Ballot>)
    requires Distinct(replied) && replied != []
    requires Collects(correct, replied, CorrectTest(reference))
    requires Collects(invalid, replied, VerdictTest("invalid"))
    ensures Correct(reference, AsReplies(replied)) == Ids(correct) && |Ids(correct)| == |correct|
    ensures Group(AsReplies(replied), "invalid") == Ids(invalid)
    ensures |AsReplies(replied)| == |replied|
    ensures CaseOf(reference, AsReplies(replied)) ==
      if |correct| > 0 then SomeCorrect else if |invalid| == |replied| then AllInvalid else NoneCorrect
  {
    SetsFromLists(reference, replied, correct, invalid);
    SomeIds(correct);
    SubsetSize(Ids(invalid), AsReplies(replied).Keys);
  }

  lemma Case3Agrees(reference: string, replied: seq<Ballot>, correct: seq<Ballot>, wrong: seq<Ballot>,
                    invalid: seq<Ballot>)
    requires Distinct(replied)
    requires Collects(correct, replied, CorrectTest(reference)) && correct != []
    requires Collects(wrong, replied, WrongTest(reference))
    requires Collects(invalid, replied, VerdictTest("invalid"))
    ensures var q := QuestionerCase3Score(|correct|);
      IsOutcome(Judge(reference, AsReplies(replied)), q.0, q.1, Fraction(|correct|, |replied|),
                [] + Entries(correct, Mark(5, Fraction(1, |correct|))) + Entries(wrong, Mark(3, NO_SHARE))
                   + Entries(invalid, Mark(2, NO_SHARE)))
  {
    assert correct[0] in correct;
    CaseFromLists(reference, replied, correct, invalid);
    CollectsIds(wrong, replied, WrongTest(reference));
    Case3Marks(reference, AsReplies(replied), Ids(correct), Ids(wrong), Ids(invalid));
    AgreesThree(correct, Mark(5, Fraction(1, |correct|)), wrong, Mark(3, NO_SHARE), invalid, Mark(2, NO_SHARE),
                Judge(reference, AsReplies(replied)).marks);
  }

  lemma Case3Marks(reference: string, replies: Replies, correct: set<nat>, wrong: set<nat>, invalid: set<nat>)
    requires correct == Correct(reference, replies) && correct != {}
    requires wrong == set id | id in replies && WrongTest(reference)(replies[id])
    requires invalid == Group(replies, "invalid")
    ensures correct !! wrong && correct !! invalid && wrong !! invalid
    ensures Judge(reference, replies).marks.Keys == correct + wrong + invalid
    ensures forall id :: id in Judge(reference, replies).marks ==>
      (Judge(reference, replies).marks[id] ==
         if id in correct then Mark(5, Fraction(1, |correct|))
         else if id in wrong then Mark(3, NO_SHARE) else Mark(2, NO_SHARE))
  {
    InvalidGroup(replies);
    Case3Partition(reference, replies, correct, wrong, invalid);
    assert Paid(reference, replies) == correct;
  }

  /** A judged reply is correct, wrong or invalid, and only one of them. */
  lemma Case3Partition(reference: string, replies: Replies, correct: set<nat>, wrong: set<nat>, invalid: set<nat>)
    requires correct == Correct(reference, replies)
    requires wrong == set id | id in replies && WrongTest(reference)(replies[id])
    requires forall id :: id in replies ==> (id in invalid <==> IsInvalid(replies[id]))
    requires invalid <= replies.Keys
    ensures correct !! wrong && correct !! invalid && wrong !! invalid
    ensures correct + wrong + invalid <= replies.Keys
    ensures forall id :: id in replies ==> (Judged(replies[id]) <==> id in correct + wrong + invalid)
    ensures forall id :: id in wrong ==> !IsInvalid(replies[id])
  {
    forall id ensures id in wrong <==> id in replies && IsWrong(reference, replies[id]) {}
    forall id ensures id in correct <==> id in replies && IsCorrect(reference, replies[id]) {}
    forall id | id in replies
      ensures Judged(replies[id]) <==>
        IsCorrect(reference, replies[id]) || IsWrong(reference, replies[id]) || IsInvalid(replies[id])
    {
      if Judged(replies[id]) {
        assert replies[id].valid == Some(true) || replies[id].valid == Some(false) by {
          assert replies[id].valid.value || !replies[id].valid.value;
        }
      }
    }
  }

  lemma InvalidGroup(replies: Replies)
    ensures forall id :: id in replies ==> (id in Group(replies, "invalid") <==> IsInvalid(replies[id]))
  {
    forall id | id in replies && Judged(replies[id])
      ensures id in Group(replies, "invalid") <==> IsInvalid(replies[id])
    {
      VerdictSeparates(replies[id], Reply(Some(false), None));
    }
  }

  lemma Case1Agrees(reference: string, replied: seq<Ballot>, correct: seq<Ballot>, invalid: seq<Ballot>)
    requires Distinct(replied) && replied != []
    requires Collects(correct, replied, CorrectTest(reference)) && correct == []
    requires Collects(invalid, replied, VerdictTest("invalid")) && |invalid| == |replied|
    ensures IsOutcome(Judge(reference, AsReplies(replied)), 0, NO_SHARE, Fraction(|correct|, |replied|),
                      [] + Entries(invalid, Mark(5, Fraction(1, |replied|))))
  {
    var replies := AsReplies(replied);
    CaseFromLists(reference, replied, correct, invalid);
    InvalidGroup(replies);
    EntriesAgree(invalid, Mark(5, Fraction(1, |replied|)), Judge(reference, replies).marks);
  }

  lemma Case2Agrees(reference: string, replied: seq<Ballot>, correct: seq<Ballot>, invalid: seq<Ballot>,
                    winners: seq<Ballot>, lost: seq<Ballot>)
    requires Distinct(replied) && replied != []
    requires Collects(correct, replied, CorrectTest(reference)) && correct == []
    requires Collects(invalid, replied, VerdictTest("invalid")) && |invalid| != |replied|
    requires IsPlurality(replied, winners, lost)
    ensures IsOutcome(Judge(reference, AsReplies(replied)), 1, Fraction(1, 10), Fraction(|correct|, |replied|),
                      [] + Entries(winners, Mark(5, Fraction(1, |winners|))) + Entries(lost, Mark(2, NO_SHARE)))
  {
    CaseFromLists(reference, replied, correct, invalid);
    PluralityEntries(reference, replied, winners, lost);
  }

  lemma PluralityEntries(reference: string, replied: seq<Ballot>, winners: seq<Ballot>, lost: seq<Ballot>)
    requires Distinct(replied) && CaseOf(reference, AsReplies(replied)).NoneCorrect?
    requires IsPlurality(replied, winners, lost)
    ensures Agrees([] + Entries(winners, Mark(5, Fraction(1, |winners|))) + Entries(lost, Mark(2, NO_SHARE)),
                   Judge(reference, AsReplies(replied)).marks)
  {
    var marks := Judge(reference, AsReplies(replied)).marks;
    Case2Marks(reference, AsReplies(replied));
    AgreesTwo(winners, Mark(5, Fraction(1, |winners|)), lost, Mark(2, NO_SHARE), marks);
  }

  lemma Case2Marks(reference: string, replies: Replies)
    requires CaseOf(reference, replies).NoneCorrect?
    ensures Winners(replies) !! Losing(replies)
    ensures Judge(reference, replies).marks.Keys == Winners(replies) + Losing(replies)
    ensures forall id :: id in Judge(reference, replies).marks ==>
      (Judge(reference, replies).marks[id] ==
         if id in Winners(replies) then Mark(5, Fraction(1, |Winners(replies)|)) else Mark(2, NO_SHARE))
  {
  }
}
