/** What a settlement leaves in the tables, as a function of its inputs, and the
    store calls it is made of (internal/store/epoch.go, internal/store/merkle.go). */
module Ledger {
  import opened Wrappers
  import opened Tables
  import opened Hashing
  import opened Merkle
  import opened Powers
  import opened Settlement

  /** What the settlement asks others for: the hash, the parsing of addresses and
      the recipient of a worker's rewards, which may be unavailable. */
  datatype Outside = Outside(keccak: HashFn, toAccount: string -> Account, lookup: Address -> Option<string>)

  datatype Epoch = Epoch(totalReward: nat, totalScored: nat, settled: bool, root: Option<Hash>, published: bool)

  /** The composite score is stored with four decimals. */
  datatype RewardRow = RewardRow(recipient: Option<string>, stats: Stats, composite: int, finalReward: int)

  datatype ProofRow = ProofRow(amount: nat, leafHash: Hash, proof: seq<Hash>)

  /** The tables a settlement reads and writes. */
  datatype Books = Books(db: Db, epochs: map<int, Epoch>, rewards: map<(int, Address), RewardRow>,
                         proofs: map<(int, string), ProofRow>, violations: map<Address, nat>)

  const DAY := 86400

  /// ## The outcome of a settlement

  function StoredComposite(c: real): int { (c * 10000.0 + 0.5).Floor }

  function InvalidReports(inp: Inputs, q: nat): set<nat>
  {
    set a | a in inp.answers && inp.answers[a].question == q && inp.answers[a].status == Scored
            && inp.answers[a].reply.valid == Some(false)
  }

  /** Scored at least 4, at most one report of invalidity, and a questioner with a
      sufficient composite score. */
  predicate IsBenchmark(cfg: Config, inp: Inputs, composites: map<Address, real>, q: nat)
    requires q in inp.questions && inp.questions[q].questioner in composites
  {
    && inp.questions[q].score >= 4
    && |InvalidReports(inp, q)| <= 1
    && composites[inp.questions[q].questioner] >= cfg.benchmarkMinScore
  }

  function Composites(stats: map<Address, Stats>): map<Address, real>
  {
    map w | w in stats :: Composite(stats[w])
  }

  ghost function PayableOf(cfg: Config, inp: Inputs): map<Address, int>
    requires inp.questions != map[]
  {
    Payable(Finals(cfg, AllStats(cfg, inp)))
  }

  /** Every recipient that has to be known is known. */
  ghost predicate Resolved(cfg: Config, out: Outside, inp: Inputs)
  {
    inp.questions != map[] ==> forall w :: w in PayableOf(cfg, inp) ==> out.lookup(w).Some?
  }

  function Recipients(out: Outside, payable: map<Address, int>): map<Address, string>
    requires forall w :: w in payable ==> out.lookup(w).Some?
  {
    map w | w in payable :: out.lookup(w).value
  }

  ghost function AmountsOf(cfg: Config, out: Outside, inp: Inputs): map<string, int>
    requires inp.questions != map[] && Resolved(cfg, out, inp)
  {
    var payable := PayableOf(cfg, inp);
    LeafAmounts(payable, Recipients(out, payable))
  }

  /** Amounts are positive and fit in an int64. */
  predicate AmountsFit(amounts: map<string, int>)
  {
    forall r :: r in amounts ==> 0 < amounts[r] < 0x8000_0000_0000_0000
  }

  ghost predicate IsOrder<K(!new)>(order: seq<K>, keys: set<K>)
  {
    && (forall i, j :: 0 <= i < j < |order| ==> order[i] != order[j])
    && (forall k :: k in order <==> k in keys)
  }

  ghost function SomeOrder(keys: set<string>): (order: seq<string>)
    ensures IsOrder(order, keys)
  {
    if keys == {} then []
    else
      var k :| k in keys;
      [k] + SomeOrder(keys - {k})
  }

  function LeafOf(out: Outside, amounts: map<string, int>, r: string): Leaf
    requires r in amounts && amounts[r] > 0
  {
    Leaf(out.toAccount(r), amounts[r])
  }

  function LeavesIn(out: Outside, amounts: map<string, int>, order: seq<string>): (leaves: seq<Leaf>)
    requires AmountsFit(amounts) && forall r :: r in order ==> r in amounts
    ensures |leaves| == |order|
  {
    seq(|order|, i requires 0 <= i < |order| => LeafOf(out, amounts, order[i]))
  }

  lemma Int64Fits(leaf: Leaf)
    requires leaf.amount < 0x8000_0000_0000_0000
    ensures FitsUint256(leaf) && Encodable(leaf)
  {
    FitsUint256IsABound(leaf);
    assert Pow256(4) == 0x1_0000_0000;
    assert Pow256(8) == 0x1_0000_0000_0000_0000;
    PowersGrow(8, 32);
  }

  lemma {:induction false} PowersGrow(j: nat, k: nat)
    requires j <= k
    ensures Pow256(j) <= Pow256(k)
    decreases k
  {
    if j < k {
      PowersGrow(j, k - 1);
    }
  }

  lemma LeavesEncodable(out: Outside, amounts: map<string, int>, order: seq<string>)
    requires AmountsFit(amounts) && forall r :: r in order ==> r in amounts
    ensures AllEncodable(LeavesIn(out, amounts, order)) && AllFit(LeavesIn(out, amounts, order))
  {
    var leaves := LeavesIn(out, amounts, order);
    forall leaf | leaf in leaves ensures FitsUint256(leaf) && Encodable(leaf) {
      var i :| 0 <= i < |leaves| && leaves[i] == leaf;
      assert order[i] in order;
      Int64Fits(leaf);
    }
  }

  ghost function BaseOf(out: Outside, amounts: map<string, int>, order: seq<string>): seq<Hash>
    requires AmountsFit(amounts) && forall r :: r in order ==> r in amounts
  {
    LeavesEncodable(out, amounts, order);
    Base(out.keccak, LeavesIn(out, amounts, order))
  }

  ghost function RootFor(out: Outside, amounts: map<string, int>): Option<Hash>
    requires AmountsFit(amounts)
  {
    if amounts == map[] then None
    else
      var base := BaseOf(out, amounts, SomeOrder(amounts.Keys));
      OrderIsLong(amounts, SomeOrder(amounts.Keys));
      Some(RootOf(out.keccak, base))
  }

  lemma OrderIsLong(amounts: map<string, int>, order: seq<string>)
    requires IsOrder(order, amounts.Keys) && amounts != map[]
    ensures order != []
  {
    var k :| k in amounts;
    assert k in order;
  }

  lemma LeafHashInBase(out: Outside, amounts: map<string, int>, order: seq<string>, r: string)
    requires AmountsFit(amounts) && IsOrder(order, amounts.Keys) && r in amounts
    ensures var leaf := LeafOf(out, amounts, r);
      Encodable(leaf) && LeafHash(out.keccak, leaf) in BaseOf(out, amounts, order)
  {
    LeavesEncodable(out, amounts, order);
    var leaves := LeavesIn(out, amounts, order);
    var i :| 0 <= i < |order| && order[i] == r;
    assert leaves[i] == LeafOf(out, amounts, r);
    BaseMembers(out.keccak, leaves);
  }

  ghost function ProofFor(out: Outside, amounts: map<string, int>, r: string): ProofRow
    requires AmountsFit(amounts) && r in amounts
  {
    var order := SomeOrder(amounts.Keys);
    LeafHashInBase(out, amounts, order, r);
    var h := LeafHash(out.keccak, LeafOf(out, amounts, r));
    ProofRow(amounts[r], h, ProofOf(out.keccak, BaseOf(out, amounts, order), h))
  }

  ghost function ProofRows(out: Outside, amounts: map<string, int>): map<string, ProofRow>
    requires AmountsFit(amounts)
  {
    map r | r in amounts :: ProofFor(out, amounts, r)
  }

  /// ## Order independence

  lemma {:induction false} ListedMultiset<K(!new)>(order: seq<K>, keys: set<K>)
    requires IsOrder(order, keys)
    ensures multiset(order) == multiset(keys)
    decreases |order|
  {
    if order == [] {
      assert keys == {};
    } else {
      var k := order[0];
      assert order == [k] + order[1..];
      assert forall j :: j in order <==> j == k || j in order[1..];
      ListedMultiset(order[1..], keys - {k});
      assert k in order;
      assert multiset(keys) == multiset(keys - {k}) + multiset{k};
    }
  }

  lemma LeavesWithout(out: Outside, amounts: map<string, int>, order: seq<string>, i: nat)
    requires AmountsFit(amounts) && i < |order| && forall r :: r in order ==> r in amounts
    ensures forall r :: r in order[..i] + order[i + 1..] ==> r in amounts
    ensures multiset(LeavesIn(out, amounts, order))
         == multiset(LeavesIn(out, amounts, order[..i] + order[i + 1..])) + multiset{LeafOf(out, amounts, order[i])}
  {
    var leaves, others := LeavesIn(out, amounts, order), order[..i] + order[i + 1..];
    assert LeavesIn(out, amounts, others) == leaves[..i] + leaves[i + 1..];
    assert leaves == leaves[..i] + [leaves[i]] + leaves[i + 1..];
  }

  lemma MultisetsWithout(a: seq<string>, b: seq<string>, i: nat)
    requires multiset(a) == multiset(b) && a != [] && i < |b| && b[i] == a[0]
    ensures multiset(a[1..]) == multiset(b[..i] + b[i + 1..])
  {
    assert a == [a[0]] + a[1..];
    assert b == b[..i] + [b[i]] + b[i + 1..];
    assert multiset(b[..i] + b[i + 1..]) == multiset(b) - multiset{b[i]};
    assert multiset(a[1..]) == multiset(a) - multiset{a[0]};
  }

  lemma SameMembers(a: seq<string>, b: seq<string>)
    requires multiset(a) == multiset(b)
    ensures |a| == |b| && forall r :: r in a <==> r in b
  {
    assert |a| == |multiset(a)| == |multiset(b)| == |b|;
    forall r ensures r in a <==> r in b {
      assert r in a <==> r in multiset(a);
      assert r in b <==> r in multiset(b);
    }
  }

  /** The leaves of two orders of the same recipients are the same multiset. */
  lemma {:induction false} LeavesFollowOrder(out: Outside, amounts: map<string, int>, a: seq<string>, b: seq<string>)
    requires AmountsFit(amounts) && multiset(a) == multiset(b) && forall r :: r in a ==> r in amounts
    ensures forall r :: r in b ==> r in amounts
    ensures multiset(LeavesIn(out, amounts, a)) == multiset(LeavesIn(out, amounts, b))
    decreases |a|
  {
    SameMembers(a, b);
    if a != [] {
      assert a[0] in b;
      var i :| 0 <= i < |b| && b[i] == a[0];
      MultisetsWithout(a, b, i);
      LeavesFollowOrder(out, amounts, a[1..], b[..i] + b[i + 1..]);
      LeavesWithout(out, amounts, a, 0);
      LeavesWithout(out, amounts, b, i);
      assert a[..0] + a[1..] == a[1..];
    }
  }

  /** Whatever order the recipients are visited in, the bottom layer is the same,
      and with it the root and every proof. */
  lemma BaseIgnoresOrder(out: Outside, amounts: map<string, int>, a: seq<string>, b: seq<string>)
    requires AmountsFit(amounts) && IsOrder(a, amounts.Keys) && IsOrder(b, amounts.Keys)
    ensures BaseOf(out, amounts, a) == BaseOf(out, amounts, b)
  {
    ListedMultiset(a, amounts.Keys);
    ListedMultiset(b, amounts.Keys);
    LeavesFollowOrder(out, amounts, a, b);
    LeavesEncodable(out, amounts, a);
    RootIgnoresOrder(out.keccak, LeavesIn(out, amounts, a), LeavesIn(out, amounts, b));
  }

  /** Every stored proof verifies against the stored root. */
  lemma StoredProofsVerify(out: Outside, amounts: map<string, int>, r: string)
    requires AmountsFit(amounts) && r in amounts
    ensures var row := ProofFor(out, amounts, r);
      RootFor(out, amounts) == Some(Fold(out.keccak, row.leafHash, row.proof))
    ensures forall k: nat :: |amounts| <= Pow2(k) ==> |ProofFor(out, amounts, r).proof| <= k
  {
    var order := SomeOrder(amounts.Keys);
    LeavesEncodable(out, amounts, order);
    var leaves := LeavesIn(out, amounts, order);
    var i :| 0 <= i < |order| && order[i] == r;
    assert leaves[i] == LeafOf(out, amounts, r);
    EveryLeafProves(out.keccak, leaves, leaves[i]);
    ListedMultiset(order, amounts.Keys);
    assert |order| == |multiset(order)| == |amounts.Keys| == |amounts|;
  }
}
