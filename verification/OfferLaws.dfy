/** Which questions a poll draws from (internal/store/question.go:126-160): the hundred
    oldest candidates, or all if there are fewer. */
module OfferLaws {
  import opened Sets
  import opened Tables

  function Below(s: set<nat>, q: nat): set<nat> { set r | r in s && r < q }

  /** The members of `s` with fewer than `n` smaller ones. */
  function Smallest(s: set<nat>, n: nat): set<nat>
  {
    set q | q in s && |Below(s, q)| < n
  }

  lemma SmallestWithoutLargest(s: set<nat>, n: nat, last: nat)
    requires last in s && forall r :: r in s ==> r <= last
    ensures Smallest(s, n) == Smallest(s - {last}, n) + if |s| <= n then {last} else {}
  {
    assert Below(s, last) == s - {last};
    forall q | q in s && q != last ensures Below(s, q) == Below(s - {last}, q) {
      assert q < last;
    }
  }

  lemma LargestOf(s: set<nat>) returns (last: nat)
    requires s != {}
    ensures last in s && forall r :: r in s ==> r <= last
    decreases |s|
  {
    last :| last in s;
    var rest := s - {last};
    if rest != {} {
      var next := LargestOf(rest);
      last := if next < last then last else next;
      forall r | r in s ensures r <= last {
        assert r in rest || r !in rest;
      }
    }
  }

  lemma {:induction false} SmallestCount(s: set<nat>, n: nat)
    ensures |Smallest(s, n)| == if |s| <= n then |s| else n
    decreases |s|
  {
    if s == {} {
      assert Smallest(s, n) == {};
    } else {
      var last := LargestOf(s);
      SmallestCount(s - {last}, n);
      SmallestWithoutLargest(s, n, last);
    }
  }

  /** On offer are a hundred candidates, or all if there are fewer, and every one of them
      is older than every candidate left out. */
  lemma OfferedLaw(db: Db, seen: Rows, w: Address, required: nat)
    ensures var all, offered := Candidates(db, seen, w, required), Offered(db, seen, w, required);
      && offered <= all && |offered| == (if |all| <= 100 then |all| else 100)
      && forall q, r :: q in offered && r in all && r !in offered ==> q < r
  {
    var all, offered := Candidates(db, seen, w, required), Offered(db, seen, w, required);
    forall q ensures (set r | r in all && r < q) == Below(all, q) {}
    assert offered == Smallest(all, 100);
    SmallestCount(all, 100);
    forall q, r | q in offered && r in all && r !in offered ensures q < r {
      if r <= q {
        SubsetSize(Below(all, r), Below(all, q));
      }
    }
  }

  /** A candidate is an open question of somebody else on which the worker has at most
      one row, timed out, and which had a free slot when the rows were counted. */
  lemma CandidatesLaw(db: Db, seen: Rows, w: Address, required: nat, q: nat)
    ensures q in Candidates(db, seen, w, required) <==>
      && q in db.questions && db.questions[q].status == Submitted && db.questions[q].questioner != w
      && (forall a :: a in db.rows && db.rows[a].worker == w && db.rows[a].question == q ==>
                        db.rows[a].status == TimedOut)
      && |set a | a in db.rows && db.rows[a].worker == w && db.rows[a].question == q| <= 1
      && |set a | a in seen && seen[a].question == q && seen[a].status in {Claimed, Replied}| < required
  {
    assert (set a | a in db.rows && db.rows[a].worker == w && db.rows[a].question == q) == Attempts(db.rows, w, q);
    assert (set a | a in seen && seen[a].question == q && seen[a].status in {Claimed, Replied}) == Active(seen, q);
    if forall a :: a in Attempts(db.rows, w, q) ==> db.rows[a].status == TimedOut {
      assert TimedOutAttempts(db.rows, w, q) == Attempts(db.rows, w, q);
    }
  }
}
