/** What scoring decides, said about the replies themselves and with the numbers of
    the source written out (internal/service/scoring.go:71-172, 230-243). */
module ScoringLaws {
  import opened Wrappers
  import opened Scoring

  /// ## The replies in plain terms

  /** A missing answer reads as the empty text. */
  predicate Says(r: Reply, text: string)
  {
    r.answer == Some(text) || (r.answer == None && text == "")
  }

  /** The valid replies whose answer is the reference. */
  function Right(reference: string, replies: Replies): set<nat>
  {
    set id | id in replies && replies[id].valid == Some(true) && Says(replies[id], reference)
  }

  predicate AllCallInvalid(replies: Replies)
  {
    forall id :: id in replies ==> replies[id].valid == Some(false)
  }

  /** Both replies call the question invalid, or both give the same answer. */
  predicate Agree(r: Reply, s: Reply)
  {
    && r.valid.Some? && r.valid == s.valid
    && (r.valid == Some(true) ==> exists text :: text in Texts(r, s) && Says(r, text) && Says(s, text))
  }

  function Texts(r: Reply, s: Reply): set<string>
  {
    {""} + (if r.answer.Some? then {r.answer.value} else {}) + (if s.answer.Some? then {s.answer.value} else {})
  }

  function Allies(replies: Replies, id: nat): set<nat>
    requires id in replies
  {
    set other | other in replies && Agree(replies[id], replies[other])
  }

  /** Nobody has more allies. */
  predicate InLargestCamp(replies: Replies, id: nat)
    requires id in replies
  {
    && replies[id].valid.Some?
    && forall other :: other in replies && replies[other].valid.Some? ==>
                         |Allies(replies, other)| <= |Allies(replies, id)|
  }

  lemma RightIsCorrect(reference: string, replies: Replies)
    ensures Right(reference, replies) == Correct(reference, replies)
  {
  }

  lemma AgreeIsSameVerdict(r: Reply, s: Reply)
    requires r.valid.Some? && s.valid.Some?
    ensures Agree(r, s) <==> Verdict(r) == Verdict(s)
  {
    VerdictSeparates(r, s);
    if r.valid == s.valid == Some(true) && Deref(r.answer) == Deref(s.answer) {
      assert Deref(r.answer) in Texts(r, s) && Says(r, Deref(r.answer)) && Says(s, Deref(r.answer));
    }
  }

  lemma AlliesAreGroup(replies: Replies, id: nat)
    requires id in replies && replies[id].valid.Some?
    ensures Allies(replies, id) == Group(replies, Verdict(replies[id]))
  {
    forall other | other in replies
      ensures Agree(replies[id], replies[other]) <==>
        (Judged(replies[other]) && Verdict(replies[other]) == Verdict(replies[id]))
    {
      if replies[other].valid.Some? { AgreeIsSameVerdict(replies[id], replies[other]); }
    }
  }

  lemma LargestCampWins(replies: Replies, id: nat)
    requires id in replies
    ensures InLargestCamp(replies, id) <==> id in Winners(replies)
  {
    if replies[id].valid.Some? {
      AlliesAreGroup(replies, id);
      forall other | other in replies && replies[other].valid.Some?
        ensures Allies(replies, other) == Group(replies, Verdict(replies[other]))
      {
        AlliesAreGroup(replies, other);
      }
    }
  }

  lemma AllInvalidCase(reference: string, replies: Replies)
    requires replies != map[] && Right(reference, replies) == {}
    ensures AllCallInvalid(replies) <==> CaseOf(reference, replies).AllInvalid?
    ensures !AllCallInvalid(replies) <==> CaseOf(reference, replies).NoneCorrect?
  {
    RightIsCorrect(reference, replies);
    CasesAreExact(reference, replies);
  }

  /// ## The question's columns

  /** Score and share of a question by the number of its correct replies, and by
      whether everybody called it invalid when there is none. */
  lemma QuestionColumns(reference: string, replies: Replies)
    requires replies != map[]
    ensures var o, k := Judge(reference, replies), |Right(reference, replies)|;
      && (k == 1 ==> o.score == 5 && o.share == Fraction(1, 1))
      && (k == 2 ==> o.score == 5 && o.share == Fraction(9, 10))
      && (k == 3 ==> o.score == 4 && o.share == Fraction(7, 10))
      && (k == 4 ==> o.score == 3 && o.share == Fraction(5, 10))
      && (k >= 5 ==> o.score == 2 && o.share == Fraction(1, 10))
      && (k == 0 && AllCallInvalid(replies) ==> o.score == 0 && o.share == Fraction(0, 1))
      && (k == 0 && !AllCallInvalid(replies) ==> o.score == 1 && o.share == Fraction(1, 10))
      && o.passRate == Fraction(k, |replies|)
  {
    RightIsCorrect(reference, replies);
    if Right(reference, replies) == {} { AllInvalidCase(reference, replies); }
  }

  predicate PaysAtMost(f: Fraction, g: Fraction)
  {
    f.num * g.den <= g.num * f.den
  }

  /** Another correct reply makes the question easier: its score and its share never
      rise. */
  lemma EasierNeverPaysMore(reference: string, replies: Replies, id: nat, r: Reply)
    requires id !in replies && Right(reference, replies) != {}
    requires r.valid == Some(true) && Says(r, reference)
    ensures var before, after := Judge(reference, replies), Judge(reference, replies[id := r]);
      after.score <= before.score && PaysAtMost(after.share, before.share)
  {
    var more := replies[id := r];
    assert Right(reference, more) == Right(reference, replies) + {id};
    var first :| first in Right(reference, replies);
    assert first in replies && id in more;
    QuestionColumns(reference, replies);
    QuestionColumns(reference, more);
  }

  /// ## The marks

  /** With a correct reply: 5 and an equal part of the pool for the correct ones, 3 for
      the other answers, 2 for calling the question invalid. */
  lemma MarksBesideCorrect(reference: string, replies: Replies, id: nat)
    requires id in replies && replies[id].valid.Some? && Right(reference, replies) != {}
    ensures var o, right := Judge(reference, replies), Right(reference, replies);
      && id in o.marks
      && o.marks[id] == (if id in right then Mark(5, Fraction(1, |right|))
                         else if replies[id].valid == Some(true) then Mark(3, Fraction(0, 1))
                         else Mark(2, Fraction(0, 1)))
  {
    RightIsCorrect(reference, replies);
    if !replies[id].valid.value {
      assert replies[id].valid == Some(false);
    }
  }

  /** Everybody calls the question invalid: 5 and equal parts. */
  lemma MarksOfInvalid(reference: string, replies: Replies, id: nat)
    requires id in replies && AllCallInvalid(replies)
    ensures var o := Judge(reference, replies); id in o.marks && o.marks[id] == Mark(5, Fraction(1, |replies|))
  {
    assert Right(reference, replies) == {};
    AllInvalidCase(reference, replies);
    assert |replies| == |replies.Keys|;
  }

  /** Otherwise the largest camps split the pool, and the others get 2. */
  lemma MarksOfCamps(reference: string, replies: Replies, id: nat)
    requires id in replies && replies[id].valid.Some?
    requires Right(reference, replies) == {} && !AllCallInvalid(replies)
    ensures var o := Judge(reference, replies);
      var camp := set w | w in replies && InLargestCamp(replies, w);
      && id in o.marks
      && o.marks[id] == (if id in camp then Mark(5, Fraction(1, |camp|)) else Mark(2, Fraction(0, 1)))
  {
    AllInvalidCase(reference, replies);
    var camp := set w | w in replies && InLargestCamp(replies, w);
    forall w | w in replies ensures w in camp <==> w in Winners(replies) {
      LargestCampWins(replies, w);
    }
    assert camp == Winners(replies);
  }

  /** A reply without its validity flag gets no mark. */
  lemma NoMarkWithoutFlag(reference: string, replies: Replies, id: nat)
    ensures id in Judge(reference, replies).marks <==> id in replies && replies[id].valid.Some?
  {
  }
}
