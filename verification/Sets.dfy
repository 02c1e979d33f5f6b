/** Sizes of finite sets, and least members. */
module Sets {

  lemma {:induction false} SubsetSize<T>(a: set<T>, b: set<T>)
    requires a <= b
    ensures |a| <= |b|
    ensures |a| == |b| ==> a == b
    decreases |a|
  {
    if a != {} {
      var x :| x in a;
      SubsetSize(a - {x}, b - {x});
      assert a == (a - {x}) + {x} && b == (b - {x}) + {x};
    }
  }

  /** Counting the members of `a` one by one: `x` is the next to be looked at. */
  lemma CountOne<T>(a: set<T>, todo: set<T>, x: T)
    requires x in todo
    ensures |a - (todo - {x})| == |a - todo| + if x in a then 1 else 0
  {
    if x in a {
      assert a - (todo - {x}) == (a - todo) + {x};
    } else {
      assert a - (todo - {x}) == a - todo;
    }
  }

  /// ## Least members, as an ORDER BY of one or two columns picks them

  type Rank = (int, int)

  predicate AtMost(r: Rank, s: Rank)
  {
    r.0 < s.0 || (r.0 == s.0 && r.1 <= s.1)
  }

  predicate IsLeast<T(!new)>(ids: set<T>, rank: T -> Rank, a: T)
  {
    a in ids && forall b :: b in ids ==> AtMost(rank(a), rank(b))
  }

  lemma LeastWith<T(!new)>(ids: set<T>, rank: T -> Rank, a: T, b: T)
    requires a in ids && IsLeast(ids - {a}, rank, b)
    ensures IsLeast(ids, rank, if AtMost(rank(a), rank(b)) then a else b)
  {
    forall c | c in ids ensures AtMost(rank(a), rank(c)) || AtMost(rank(b), rank(c)) {
      assert c == a || c in ids - {a};
    }
    assert forall c :: c in ids ==> c == a || c in ids - {a};
  }

  lemma {:induction false} LeastOf<T(!new)>(ids: set<T>, rank: T -> Rank) returns (a: T)
    requires ids != {}
    ensures IsLeast(ids, rank, a)
    decreases |ids|
  {
    a :| a in ids;
    var rest := ids - {a};
    if rest != {} {
      var b := LeastOf(rest, rank);
      LeastWith(ids, rank, a, b);
      a := if AtMost(rank(a), rank(b)) then a else b;
    } else {
      assert forall b :: b in ids ==> b == a || b in rest;
    }
  }
}
