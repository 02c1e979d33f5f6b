/** Question submission: the checks, the similarity gate and the counter
    (internal/service/question.go). Submissions run one after another. */
module QuestionGate {
  import opened Wrappers
  import opened Hashing
  import opened Text
  import opened MinHash

  datatype BenchmarkSet = BenchmarkSet(active: bool, questionMaxLen: nat, answerMaxLen: nat, totalQuestions: nat)

  datatype StoredQuestion = StoredQuestion(bsId: string, questioner: string, question: seq<Rune>, answer: seq<Rune>,
                           minhash: seq<Byte>, createdAt: int)

  datatype Refusal = InvalidSet | RateLimited | FieldTooLong | Duplicate

  /** How many stored questions belong to a set. */
  function CountIn(questions: seq<StoredQuestion>, bsId: string): nat
  {
    if questions == [] then 0
    else CountIn(questions[..|questions| - 1], bsId) + (if questions[|questions| - 1].bsId == bsId then 1 else 0)
  }

  /** The worker asked something less than `limit` ago. */
  predicate AskedRecently(questions: seq<StoredQuestion>, worker: string, now: int, limit: int)
  {
    exists i :: 0 <= i < |questions| && questions[i].questioner == worker && now - questions[i].createdAt < limit
  }

  predicate Similar(questions: seq<StoredQuestion>, bsId: string, sig: Signature, threshold: real)
  {
    exists i :: 0 <= i < |questions| && questions[i].bsId == bsId
                && Jaccard(sig, Parsed(questions[i].minhash)) >= threshold
  }

  /** The first check that fails, in the order of the source. */
  function Refused(sets: map<string, BenchmarkSet>, questions: seq<StoredQuestion>, rateLimit: int, threshold: real,
                   bsId: string, question: seq<Rune>, answer: seq<Rune>, worker: string, now: int): Option<Refusal>
  {
    if bsId !in sets || !sets[bsId].active then Some(InvalidSet)
    else if rateLimit > 0 && AskedRecently(questions, worker, now, rateLimit) then Some(RateLimited)
    else if |Utf8(question)| > sets[bsId].questionMaxLen then Some(FieldTooLong)
    else if |Utf8(answer)| > sets[bsId].answerMaxLen then Some(FieldTooLong)
    else if Similar(questions, bsId, TextSignature(question), threshold) then Some(Duplicate)
    else None
  }

  /** Any two stored questions of one set are less similar than the threshold. */
  predicate Dissimilar(questions: seq<StoredQuestion>, threshold: real)
  {
    forall i, j :: 0 <= i < |questions| && 0 <= j < |questions| && i != j && questions[i].bsId == questions[j].bsId ==>
      Jaccard(Parsed(questions[i].minhash), Parsed(questions[j].minhash)) < threshold
  }

  /** The row carries the signature of its text. */
  predicate IsSigned(stored: StoredQuestion)
  {
    stored.minhash == Bytes(TextSignature(stored.question))
  }

  predicate Signed(questions: seq<StoredQuestion>)
  {
    forall i :: 0 <= i < |questions| ==> IsSigned(questions[i])
  }

  predicate Counted(sets: map<string, BenchmarkSet>, questions: seq<StoredQuestion>)
  {
    forall id :: id in sets ==> sets[id].totalQuestions == CountIn(questions, id)
  }

  /** Question and answer are within the limits of their own set, counted in bytes. */
  predicate FitsSet(sets: map<string, BenchmarkSet>, stored: StoredQuestion)
  {
    && stored.bsId in sets
    && |Utf8(stored.question)| <= sets[stored.bsId].questionMaxLen
    && |Utf8(stored.answer)| <= sets[stored.bsId].answerMaxLen
  }

  predicate Limited(sets: map<string, BenchmarkSet>, questions: seq<StoredQuestion>)
  {
    forall i :: 0 <= i < |questions| ==> FitsSet(sets, questions[i])
  }

  predicate Consistent(threshold: real, sets: map<string, BenchmarkSet>, questions: seq<StoredQuestion>)
  {
    && Dissimilar(questions, threshold) && Signed(questions)
    && Counted(sets, questions) && Limited(sets, questions)
  }

  /** The set's counter goes up by one. */
  function OneMoreIn(sets: map<string, BenchmarkSet>, bsId: string): map<string, BenchmarkSet>
    requires bsId in sets
  {
    sets[bsId := sets[bsId].(totalQuestions := sets[bsId].totalQuestions + 1)]
  }

  /** The set takes questions, and question and answer are short enough for it. */
  predicate IsOpenFor(sets: map<string, BenchmarkSet>, bsId: string, question: seq<Rune>, answer: seq<Rune>)
  {
    && bsId in sets && sets[bsId].active
    && |Utf8(question)| <= sets[bsId].questionMaxLen
    && |Utf8(answer)| <= sets[bsId].answerMaxLen
  }

  /** There is no limit, or everything the worker asked is at least that old. */
  predicate IsRested(questions: seq<StoredQuestion>, worker: string, now: int, limit: int)
  {
    limit <= 0 || forall i :: 0 <= i < |questions| && questions[i].questioner == worker ==>
                                questions[i].createdAt + limit <= now
  }

  /** Every stored question of the set agrees with the new text in less than the
      threshold's part of the 128 places. */
  predicate IsNew(questions: seq<StoredQuestion>, bsId: string, question: seq<Rune>, threshold: real)
  {
    forall i :: 0 <= i < |questions| && questions[i].bsId == bsId ==>
                  Jaccard(TextSignature(question), Parsed(questions[i].minhash)) < threshold
  }

  /** Exactly when a question is taken, and which refusal is reported otherwise: the
      first of the checks that fails. */
  lemma RefusalLaw(sets: map<string, BenchmarkSet>, questions: seq<StoredQuestion>, rateLimit: int, threshold: real,
                   bsId: string, question: seq<Rune>, answer: seq<Rune>, worker: string, now: int)
    ensures var refused := Refused(sets, questions, rateLimit, threshold, bsId, question, answer, worker, now);
      && (refused.None? <==>
            && IsOpenFor(sets, bsId, question, answer)
            && IsRested(questions, worker, now, rateLimit)
            && IsNew(questions, bsId, question, threshold))
      && (refused == Some(InvalidSet) <==> bsId !in sets || !sets[bsId].active)
      && (refused == Some(RateLimited) <==>
            && bsId in sets && sets[bsId].active && rateLimit > 0
            && exists i :: 0 <= i < |questions| && questions[i].questioner == worker
                           && now < questions[i].createdAt + rateLimit)
      && (refused == Some(FieldTooLong) <==>
            && bsId in sets && sets[bsId].active && IsRested(questions, worker, now, rateLimit)
            && (|Utf8(question)| > sets[bsId].questionMaxLen || |Utf8(answer)| > sets[bsId].answerMaxLen))
      && (refused == Some(Duplicate) <==>
            && IsOpenFor(sets, bsId, question, answer) && IsRested(questions, worker, now, rateLimit)
            && exists i :: 0 <= i < |questions| && questions[i].bsId == bsId
                           && Jaccard(TextSignature(question), Parsed(questions[i].minhash)) >= threshold)
  {
    RestedLaw(questions, worker, now, rateLimit);
    NewLaw(questions, bsId, question, threshold);
  }

  lemma RestedLaw(questions: seq<StoredQuestion>, worker: string, now: int, limit: int)
    ensures IsRested(questions, worker, now, limit) <==> !(limit > 0 && AskedRecently(questions, worker, now, limit))
  {
  }

  lemma NewLaw(questions: seq<StoredQuestion>, bsId: string, question: seq<Rune>, threshold: real)
    ensures IsNew(questions, bsId, question, threshold) <==>
      !Similar(questions, bsId, TextSignature(question), threshold)
  {
  }

  /** When the worker asked last, among the first `n` questions. */
  predicate IsLatest(questions: seq<StoredQuestion>, n: nat, worker: string, last: int)
    requires n <= |questions|
  {
    && (exists i :: 0 <= i < n && questions[i].questioner == worker && questions[i].createdAt == last)
    && (forall i :: 0 <= i < n && questions[i].questioner == worker ==> questions[i].createdAt <= last)
  }

  class QuestionService {
    const rateLimit: int
    const threshold: real
    var sets: map<string, BenchmarkSet>
    var questions: seq<StoredQuestion>

    constructor (rateLimit: int, threshold: real, sets: map<string, BenchmarkSet>)
      requires forall id :: id in sets ==> sets[id].totalQuestions == 0
      ensures Valid() && this.rateLimit == rateLimit && this.threshold == threshold
      ensures this.sets == sets && questions == []
    {
      this.rateLimit, this.threshold, this.sets, this.questions := rateLimit, threshold, sets, [];
    }

    /** In every reachable state the questions of a set are pairwise dissimilar, each
        carries the signature of its text and keeps to the length limits of its set,
        and every set's counter is right. */
    predicate Valid()
      reads this
    {
      Consistent(threshold, sets, questions)
    }

    method GetLastQuestionTime(worker: string) returns (last: Option<int>)
      ensures last.None? ==> forall i :: 0 <= i < |questions| ==> questions[i].questioner != worker
      ensures last.Some? ==> IsLatest(questions, |questions|, worker, last.value)
    {
      last := None;
      for i := 0 to |questions|
        invariant last.None? ==> forall k :: 0 <= k < i ==> questions[k].questioner != worker
        invariant last.Some? ==> IsLatest(questions, i, worker, last.value)
      {
        if questions[i].questioner == worker && (last.None? || last.value < questions[i].createdAt) {
          last := Some(questions[i].createdAt);
        }
      }
    }

    /** Compares with every stored question of the set, whatever its score. */
    method FindsDuplicate(bsId: string, sig: Signature) returns (found: bool)
      ensures found == Similar(questions, bsId, sig, threshold)
    {
      for i := 0 to |questions|
        invariant !Similar(questions[..i], bsId, sig, threshold)
      {
        assert questions[..i + 1] == questions[..i] + [questions[i]];
        if questions[i].bsId == bsId {
          var existing := FromBytes(questions[i].minhash);
          var similarity := CountMatches(sig, existing);
          if similarity >= threshold {
            return true;
          }
        }
      }
      assert questions[..|questions|] == questions;
      return false;
    }

    method RateLimitHit(worker: string, now: int) returns (hit: bool)
      ensures hit == (rateLimit > 0 && AskedRecently(questions, worker, now, rateLimit))
    {
      if rateLimit <= 0 {
        return false;
      }
      var last := GetLastQuestionTime(worker);
      hit := last.Some? && now - last.value < rateLimit;
    }

    /** The checks in order; on success also the signature. */
    method Validate(bsId: string, question: seq<Rune>, answer: seq<Rune>, worker: string, now: int)
      returns (refused: Option<Refusal>, newSig: Signature)
      ensures refused == Refused(sets, questions, rateLimit, threshold, bsId, question, answer, worker, now)
      ensures refused.None? ==> newSig == TextSignature(question)
    {
      newSig := NO_SIGNATURE;
      if bsId !in sets || !sets[bsId].active {
        return Some(InvalidSet), newSig;
      }
      var hit := RateLimitHit(worker, now);
      if hit {
        return Some(RateLimited), newSig;
      }
      if |Utf8(question)| > sets[bsId].questionMaxLen {
        return Some(FieldTooLong), newSig;
      }
      if |Utf8(answer)| > sets[bsId].answerMaxLen {
        return Some(FieldTooLong), newSig;
      }
      newSig := Generate(question);
      var duplicate := FindsDuplicate(bsId, newSig);
      return if duplicate then Some(Duplicate) else None, newSig;
    }

    /** The transaction: one row more and the counter with it. */
    method Save(bsId: string, stored: StoredQuestion, ghost sig: Signature)
      requires Valid() && bsId in sets && stored.bsId == bsId
      requires !Similar(questions, bsId, sig, threshold) && stored.minhash == Bytes(sig) && IsSigned(stored)
      requires FitsSet(sets, stored)
      modifies this
      ensures Valid() && questions == old(questions) + [stored]
      ensures sets == OneMoreIn(old(sets), bsId)
    {
      StoringKeepsConsistent(threshold, sets, questions, stored, sig);
      questions := questions + [stored];
      sets := sets[bsId := sets[bsId].(totalQuestions := sets[bsId].totalQuestions + 1)];
    }

    /** Stores the question and counts it, or changes nothing and reports the first
        check that failed. */
    method SubmitQuestion(bsId: string, question: seq<Rune>, answer: seq<Rune>, worker: string, now: int)
      returns (r: Result<nat, Refusal>)
      requires Valid()
      modifies this
      ensures Valid()
      ensures r.Ok? <==>
        && IsOpenFor(old(sets), bsId, question, answer)
        && IsRested(old(questions), worker, now, rateLimit)
        && IsNew(old(questions), bsId, question, threshold)
      ensures r.Err? ==> questions == old(questions) && sets == old(sets)
      ensures r.Ok? ==>
        && |questions| == |old(questions)| + 1 && r.value == |old(questions)|
        && questions[..r.value] == old(questions)
        && questions[r.value].bsId == bsId && questions[r.value].questioner == worker
        && questions[r.value].question == question && questions[r.value].answer == answer
        && questions[r.value].createdAt == now && Parsed(questions[r.value].minhash) == TextSignature(question)
        && sets.Keys == old(sets.Keys)
        && sets[bsId] == old(sets)[bsId].(totalQuestions := old(sets)[bsId].totalQuestions + 1)
        && forall id :: id in sets && id != bsId ==> sets[id] == old(sets)[id]
      ensures
        var refused := Refused(old(sets), old(questions), rateLimit, threshold, bsId, question, answer, worker, now);
        match refused
        case Some(e) => r == Err(e) && questions == old(questions) && sets == old(sets)
        case None =>
          && r == Ok(|old(questions)|)
          && questions == old(questions)
                          + [StoredQuestion(bsId, worker, question, answer, Bytes(TextSignature(question)), now)]
          && sets == OneMoreIn(old(sets), bsId)
    {
      RefusalLaw(sets, questions, rateLimit, threshold, bsId, question, answer, worker, now);
      ParsedBytes(TextSignature(question));
      var refused, newSig := Validate(bsId, question, answer, worker, now);
      if refused.Some? {
        return Err(refused.value);
      }
      var bytes := ToBytes(newSig);
      r := Ok(|questions|);
      Save(bsId, StoredQuestion(bsId, worker, question, answer, bytes, now), newSig);
    }
  }

  /** The gate is one-sided and works on stored bytes; that it protects every pair
      rests on the symmetry of the similarity and on the byte round trip. */
  lemma StoringKeepsDissimilar(questions: seq<StoredQuestion>, stored: StoredQuestion, sig: Signature, threshold: real)
    requires Dissimilar(questions, threshold) && !Similar(questions, stored.bsId, sig, threshold)
    requires stored.minhash == Bytes(sig)
    ensures Dissimilar(questions + [stored], threshold)
  {
    ParsedBytes(sig);
    forall i | 0 <= i < |questions| && questions[i].bsId == stored.bsId
      ensures Jaccard(sig, Parsed(questions[i].minhash)) < threshold
      ensures Jaccard(Parsed(questions[i].minhash), sig) < threshold
    {
      JaccardIsSimilarity(sig, Parsed(questions[i].minhash));
    }
  }

  lemma StoringKeepsSigned(questions: seq<StoredQuestion>, stored: StoredQuestion)
    requires Signed(questions) && IsSigned(stored)
    ensures Signed(questions + [stored])
  {
    var more := questions + [stored];
    forall i | 0 <= i < |more| ensures IsSigned(more[i]) {
      if i < |questions| { assert more[i] == questions[i]; }
    }
  }

  lemma StoringKeepsCounted(sets: map<string, BenchmarkSet>, questions: seq<StoredQuestion>, stored: StoredQuestion)
    requires Counted(sets, questions) && stored.bsId in sets
    ensures Counted(OneMoreIn(sets, stored.bsId), questions + [stored])
  {
    CountAfter(questions, stored);
  }

  lemma StoringKeepsLimited(sets: map<string, BenchmarkSet>, questions: seq<StoredQuestion>, stored: StoredQuestion)
    requires Limited(sets, questions) && FitsSet(sets, stored)
    ensures Limited(OneMoreIn(sets, stored.bsId), questions + [stored])
  {
    var more := questions + [stored];
    forall i | 0 <= i < |more| ensures FitsSet(OneMoreIn(sets, stored.bsId), more[i]) {
      if i < |questions| { assert more[i] == questions[i]; }
      assert FitsSet(sets, more[i]);
    }
  }

  lemma StoringKeepsConsistent(threshold: real, sets: map<string, BenchmarkSet>, questions: seq<StoredQuestion>,
                               stored: StoredQuestion,
                               sig: Signature)
    requires Consistent(threshold, sets, questions) && stored.bsId in sets
    requires !Similar(questions, stored.bsId, sig, threshold) && stored.minhash == Bytes(sig) && IsSigned(stored)
    requires FitsSet(sets, stored)
    ensures Consistent(threshold, OneMoreIn(sets, stored.bsId), questions + [stored])
  {
    StoringKeepsDissimilar(questions, stored, sig, threshold);
    StoringKeepsSigned(questions, stored);
    StoringKeepsCounted(sets, questions, stored);
    StoringKeepsLimited(sets, questions, stored);
  }

  lemma CountAfter(questions: seq<StoredQuestion>, stored: StoredQuestion)
    ensures forall id :: CountIn(questions + [stored], id)
                      == CountIn(questions, id) + (if stored.bsId == id then 1 else 0)
  {
    assert (questions + [stored])[..|questions|] == questions;
  }

  /** With a threshold of at most one, no set ever holds two texts with the same
      n-grams. */
  lemma NoTwoAlike(questions: seq<StoredQuestion>, threshold: real, i: nat, j: nat)
    requires Dissimilar(questions, threshold) && Signed(questions) && threshold <= 1.0
    requires i < j < |questions| && questions[i].bsId == questions[j].bsId
    ensures exists g ::
      (g in Grams(questions[i].question, N_GRAM_SIZE)) != (g in Grams(questions[j].question, N_GRAM_SIZE))
  {
    var a, b := questions[i].question, questions[j].question;
    assert IsSigned(questions[i]) && IsSigned(questions[j]);
    ParsedBytes(TextSignature(a));
    ParsedBytes(TextSignature(b));
    if forall g :: g in Grams(a, N_GRAM_SIZE) <==> g in Grams(b, N_GRAM_SIZE) {
      SameGramsAreDuplicates(a, b);
    }
  }
}
