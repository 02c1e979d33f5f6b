/** Scoring one question from its replies (internal/service/scoring.go). */
module Scoring {
  import opened Wrappers
  import opened Sums

  /// ## Shares

  /** An exact fraction; the source computes 1.0 / n and decimal constants. */
  datatype Fraction = Fraction(num: nat, den: nat)

  const NO_SHARE := Fraction(0, 1)

  /** NUMERIC(5,4) storage: ten-thousandths, rounded half up; 0 for the rate over
      no replies, which the source leaves at 0.0. */
  function Stored(f: Fraction): (units: nat)
  {
    if f.den == 0 then 0 else (20000 * f.num + f.den) / (2 * f.den)
  }

  /** The stored value is within half a unit of the exact one, ties going up. */
  lemma StoredRoundsHalfUp(f: Fraction)
    requires f.den > 0
    ensures 2 * f.den * Stored(f) <= 20000 * f.num + f.den < 2 * f.den * (Stored(f) + 1)
  {
    var a, d := 20000 * f.num + f.den, 2 * f.den;
    assert a == d * (a / d) + a % d;
  }

  /// ## Replies

  /** The two reply columns; both are null until an answer is accepted. */
  datatype Reply = Reply(valid: Option<bool>, answer: Option<string>)

  function Deref(s: Option<string>): string
  {
    if s == None then "" else s.value
  }

  predicate CheckAnswer(reference: string, submitted: string)
  {
    reference == submitted
  }

  predicate Judged(r: Reply) { r.valid.Some? }

  predicate IsInvalid(r: Reply) { r.valid == Some(false) }

  predicate IsCorrect(reference: string, r: Reply)
  {
    r.valid == Some(true) && CheckAnswer(reference, Deref(r.answer))
  }

  predicate IsWrong(reference: string, r: Reply)
  {
    r.valid == Some(true) && !CheckAnswer(reference, Deref(r.answer))
  }

  /** The grouping key of Case 2. */
  function Verdict(r: Reply): string
    requires Judged(r)
  {
    if r.valid.value then "answer:" + Deref(r.answer) else "invalid"
  }

  /** "invalid" is never the key of an answer group, and answer keys keep answers apart. */
  lemma VerdictSeparates(a: Reply, b: Reply)
    requires Judged(a) && Judged(b)
    ensures Verdict(a) == Verdict(b) <==>
      a.valid == b.valid && (a.valid == Some(true) ==> Deref(a.answer) == Deref(b.answer))
  {
    if a.valid == Some(true) {
      assert Verdict(a)[0] == 'a' && Verdict(a)[7..] == Deref(a.answer);
    }
    if b.valid == Some(true) {
      assert Verdict(b)[0] == 'a' && Verdict(b)[7..] == Deref(b.answer);
    }
    assert "invalid"[0] == 'i';
  }

  /// ## Reference scoring of a set of replies

  datatype Mark = Mark(score: nat, share: Fraction)

  /** What scoring writes: the question's columns and one mark per scored reply. */
  datatype Outcome = Outcome(score: nat, share: Fraction, passRate: Fraction, marks: map<nat, Mark>)

  type Replies = map<nat, Reply>

  function Correct(reference: string, replies: Replies): set<nat>
  {
    set id | id in replies && IsCorrect(reference, replies[id])
  }

  function Group(replies: Replies, key: string): set<nat>
  {
    set id | id in replies && Judged(replies[id]) && Verdict(replies[id]) == key
  }

  /** The members of all groups that no other group outnumbers. */
  function Winners(replies: Replies): set<nat>
  {
    set id | id in replies && Judged(replies[id]) && Unbeaten(replies, Verdict(replies[id]))
  }

  predicate Unbeaten(replies: Replies, key: string)
  {
    forall id :: id in replies && Judged(replies[id]) ==>
      |Group(replies, Verdict(replies[id]))| <= |Group(replies, key)|
  }

  function QuestionerCase3Score(nCorrect: nat): (nat, Fraction)
  {
    if nCorrect == 1 then (5, Fraction(1, 1))
    else if nCorrect == 2 then (5, Fraction(9, 10))
    else if nCorrect == 3 then (4, Fraction(7, 10))
    else if nCorrect == 4 then (3, Fraction(5, 10))
    else (2, Fraction(1, 10))
  }

  datatype Case = SomeCorrect | AllInvalid | NoneCorrect

  function CaseOf(reference: string, replies: Replies): Case
  {
    if Correct(reference, replies) != {} then SomeCorrect
    else if Group(replies, "invalid") == replies.Keys then AllInvalid
    else NoneCorrect
  }

  /** Who splits the answer pool. */
  function Paid(reference: string, replies: Replies): set<nat>
  {
    match CaseOf(reference, replies)
    case SomeCorrect => Correct(reference, replies)
    case AllInvalid => replies.Keys
    case NoneCorrect => Winners(replies)
  }

  function LoserScore(c: Case, r: Reply): nat
  {
    if c.SomeCorrect? && !IsInvalid(r) then 3 else 2
  }

  function QuestionMark(reference: string, replies: Replies): (nat, Fraction)
  {
    match CaseOf(reference, replies)
    case SomeCorrect => QuestionerCase3Score(|Correct(reference, replies)|)
    case AllInvalid => (0, NO_SHARE)
    case NoneCorrect => (1, Fraction(1, 10))
  }

  function Judge(reference: string, replies: Replies): Outcome
  {
    var c := CaseOf(reference, replies);
    var paid := Paid(reference, replies);
    var q := QuestionMark(reference, replies);
    Outcome(q.0, q.1, Fraction(|Correct(reference, replies)|, |replies|),
            map id | id in replies && Judged(replies[id]) ::
              if id in paid then Mark(5, Fraction(1, |paid|)) else Mark(LoserScore(c, replies[id]), NO_SHARE))
  }

  /// ## What the reference guarantees

  /** Some group is unbeaten, so Case 2 never divides by zero winners. */
  lemma {:induction false} SomeGroupUnbeaten(replies: Replies, ids: set<nat>) returns (best: nat)
    requires ids != {} && forall id :: id in ids ==> id in replies && Judged(replies[id])
    ensures best in ids
    ensures forall id :: id in ids ==>
      |Group(replies, Verdict(replies[id]))| <= |Group(replies, Verdict(replies[best]))|
    decreases |ids|
  {
    var id :| id in ids;
    if ids == {id} {
      best := id;
    } else {
      var rest := ids - {id};
      assert ids == rest + {id};
      best := SomeGroupUnbeaten(replies, rest);
      if |Group(replies, Verdict(replies[best]))| < |Group(replies, Verdict(replies[id]))| {
        best := id;
      }
    }
  }

  /** Someone is paid unless every reply lacks its validity flag. */
  lemma SomeonePaid(reference: string, replies: Replies)
    requires replies != map[]
    ensures Paid(reference, replies) != {} <==> exists id :: id in replies && Judged(replies[id])
    ensures forall id :: id in Paid(reference, replies) ==> id in replies && Judged(replies[id])
  {
    match CaseOf(reference, replies) {
      case SomeCorrect =>
        var id :| id in Correct(reference, replies);
        assert Judged(replies[id]);
      case AllInvalid =>
        var id :| id in replies;
        assert id in Group(replies, "invalid");
        forall i | i in replies ensures Judged(replies[i]) {
          assert i in Group(replies, "invalid");
        }
      case NoneCorrect =>
        var judged := set id | id in replies && Judged(replies[id]);
        if judged != {} {
          var best := SomeGroupUnbeaten(replies, judged);
          forall id | id in replies && Judged(replies[id])
            ensures |Group(replies, Verdict(replies[id]))| <= |Group(replies, Verdict(replies[best]))|
          {
            assert id in judged;
          }
          assert best in Winners(replies);
        } else {
          forall id | id in replies ensures !Judged(replies[id]) {
            assert id !in judged;
          }
          assert Winners(replies) == {};
        }
    }
  }

  /** The three cases in terms of the replies alone. */
  lemma CasesAreExact(reference: string, replies: Replies)
    requires replies != map[]
    ensures CaseOf(reference, replies).SomeCorrect? <==> exists id :: id in replies && IsCorrect(reference, replies[id])
    ensures CaseOf(reference, replies).AllInvalid? <==> forall id :: id in replies ==> IsInvalid(replies[id])
  {
    if id :| id in replies && IsCorrect(reference, replies[id]) {
      assert id in Correct(reference, replies);
    }
    if forall id :: id in replies ==> IsInvalid(replies[id]) {
      forall id | id in replies ensures id in Group(replies, "invalid") {}
      assert Group(replies, "invalid") == replies.Keys;
      assert Correct(reference, replies) == {};
    } else if Group(replies, "invalid") == replies.Keys {
      forall id | id in replies ensures IsInvalid(replies[id]) {
        assert id in Group(replies, "invalid");
        VerdictSeparates(replies[id], Reply(Some(false), None));
      }
    }
  }

  /** The shares in units of 1/n, exact when every denominator divides n times its numerator. */
  function InUnitsOf(marks: map<nat, Mark>, n: nat): map<nat, int>
  {
    map id | id in marks :: if marks[id].share.den == 0 then 0 else n * marks[id].share.num / marks[id].share.den
  }

  /** Exactly the replies with a validity flag are marked; the paid ones get 5 and
      split the pool evenly, so the exact shares sum to one whole, and everybody
      else gets 2 or 3 and nothing. Measured in units of one winner's share. */
  lemma MarksShareOnePool(reference: string, replies: Replies)
    requires exists id :: id in replies && Judged(replies[id])
    ensures var o, paid := Judge(reference, replies), Paid(reference, replies);
      && (forall id :: id in o.marks <==> id in replies && Judged(replies[id]))
      && paid <= o.marks.Keys && paid != {}
      && (forall id :: id in o.marks ==>
            o.marks[id].share == if id in paid then Fraction(1, |paid|) else NO_SHARE)
      && (forall id :: id in o.marks ==>
            if id in paid then o.marks[id].score == 5 else 2 <= o.marks[id].score <= 3)
      && Total(InUnitsOf(o.marks, |paid|)) == |paid|
  {
    var o, paid := Judge(reference, replies), Paid(reference, replies);
    SomeonePaid(reference, replies);
    var units := InUnitsOf(o.marks, |paid|);
    forall id | id in units ensures units[id] == if id in paid then 1 else 0 {
      assert o.marks[id].share == if id in paid then Fraction(1, |paid|) else NO_SHARE;
    }
    TotalTwoValued(units, paid, 1);
  }

  /** Scores stay in the range that the composite score relies on. */
  lemma ScoresWithinFive(reference: string, replies: Replies)
    ensures Judge(reference, replies).score <= 5
    ensures forall id :: id in Judge(reference, replies).marks ==> Judge(reference, replies).marks[id].score <= 5
  {
  }
}
