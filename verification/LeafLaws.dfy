/** What the published tree commits to: the accounts and amounts in its leaves, byte
    by byte (internal/service/settlement.go:330-374, internal/merkle/tree.go:122-155). */
module LeafLaws {
  import opened Wrappers
  import opened Sums
  import opened Hashing
  import opened Merkle
  import opened Ledger

  /// ## Bytes

  /** The byte order of hashes is the order of the numbers they spell. */
  lemma {:induction false} NumericOrder(a: seq<Byte>, b: seq<Byte>, i: nat)
    requires |a| == |b| && i < |a| && a[..i] == b[..i] && a[i] < b[i]
    ensures ValueOf(a) < ValueOf(b)
    decreases |a|
  {
    var n := |a| - 1;
    if i == n {
      assert a[..n] == b[..n];
    } else {
      assert a[..n][..i] == a[..i] && b[..n][..i] == b[..i];
      NumericOrder(a[..n], b[..n], i);
    }
  }

  lemma BeforeIsNumeric(a: Hash, b: Hash)
    ensures Before(a, b) <==> ValueOf(a) < ValueOf(b)
  {
    Trichotomy(a, b);
    if Before(a, b) {
      var i :| 0 <= i < 32 && a[..i] == b[..i] && a[i] < b[i];
      NumericOrder(a, b, i);
    } else if a != b {
      var i :| 0 <= i < 32 && b[..i] == a[..i] && b[i] < a[i];
      NumericOrder(b, a, i);
    }
  }

  /** The parent of two hashes is the hash of the smaller number followed by the larger. */
  lemma NodeLaw(keccak: HashFn, small: Hash, large: Hash)
    requires ValueOf(small) <= ValueOf(large)
    ensures Node(keccak, small, large) == Node(keccak, large, small) == keccak(small + large)
  {
    BeforeIsNumeric(large, small);
    NodeCommutes(keccak, small, large);
  }

  /** Bytes spell a number with the last byte as the units. */
  lemma ValueLaw(bytes: seq<Byte>, b: Byte)
    ensures ValueOf([]) == 0 && ValueOf(bytes + [b]) == 256 * ValueOf(bytes) + b
  {
    assert (bytes + [b])[..|bytes|] == bytes;
  }

  /** Twelve zero bytes, the account, and the amount as a 32-byte number. */
  predicate Spells(bytes: seq<Byte>, account: Account, amount: nat)
  {
    && |bytes| == 64
    && (forall k :: 0 <= k < 12 ==> bytes[k] == 0)
    && bytes[12..32] == account
    && ValueOf(bytes[32..]) == amount
  }

  /** A leaf hash is the double hash of such bytes. */
  lemma LeafHashLaw(keccak: HashFn, leaf: Leaf) returns (bytes: seq<Byte>)
    requires FitsUint256(leaf) && Encodable(leaf)
    ensures Spells(bytes, leaf.account, leaf.amount) && LeafHash(keccak, leaf) == keccak(keccak(bytes))
  {
    bytes := Encode(leaf);
    DecodeEncoded(leaf);
  }

  /// ## Rows

  /** Every stored row claims the recipient's amount, and its leaf hash commits to the
      recipient's account and to that amount. */
  lemma StoredRowLaw(out: Outside, amounts: map<string, int>, r: string) returns (bytes: seq<Byte>)
    requires AmountsFit(amounts) && r in amounts
    ensures ProofFor(out, amounts, r).amount == amounts[r]
    ensures Spells(bytes, out.toAccount(r), amounts[r])
    ensures ProofFor(out, amounts, r).leafHash == out.keccak(out.keccak(bytes))
  {
    Int64Fits(LeafOf(out, amounts, r));
    bytes := LeafHashLaw(out.keccak, LeafOf(out, amounts, r));
  }

  /// ## The tree

  /** The recipients a leaf pays. */
  function Payees(out: Outside, amounts: map<string, int>, leaf: Leaf): set<string>
  {
    set r | r in amounts && out.toAccount(r) == leaf.account && amounts[r] == leaf.amount
  }

  function LeafTotal(leaves: seq<Leaf>): nat
  {
    if leaves == [] then 0 else LeafTotal(leaves[..|leaves| - 1]) + leaves[|leaves| - 1].amount
  }

  lemma LastRecipient(order: seq<string>, amounts: map<string, int>)
    requires order != [] && IsOrder(order, amounts.Keys)
    ensures var r := order[|order| - 1]; r in amounts && IsOrder(order[..|order| - 1], (amounts - {r}).Keys)
  {
    var front, r := order[..|order| - 1], order[|order| - 1];
    assert r in order && forall k :: k in order ==> k in front || k == r;
    forall k | k in front ensures k in order && k != r {
      var i :| 0 <= i < |front| && front[i] == k;
      assert order[i] == k && order[i] != order[|order| - 1];
    }
  }

  lemma LeavesOfFront(out: Outside, order: seq<string>, amounts: map<string, int>)
    requires AmountsFit(amounts) && order != [] && IsOrder(order, amounts.Keys)
    ensures var front, r := order[..|order| - 1], order[|order| - 1];
      && r in amounts && IsOrder(front, (amounts - {r}).Keys)
      && LeavesIn(out, amounts, order) == LeavesIn(out, amounts - {r}, front) + [Leaf(out.toAccount(r), amounts[r])]
  {
    LastRecipient(order, amounts);
    var front, r := order[..|order| - 1], order[|order| - 1];
    assert order == front + [r];
  }

  predicate Pays(out: Outside, amounts: map<string, int>, r: string, leaf: Leaf)
    requires r in amounts
  {
    out.toAccount(r) == leaf.account && amounts[r] == leaf.amount
  }

  lemma PayeesOfFront(out: Outside, amounts: map<string, int>, r: string, leaf: Leaf)
    requires r in amounts
    ensures Payees(out, amounts, leaf)
         == Payees(out, amounts - {r}, leaf) + if Pays(out, amounts, r, leaf) then {r} else {}
    ensures r !in Payees(out, amounts - {r}, leaf)
  {
    forall k | k in amounts
      ensures k in Payees(out, amounts, leaf) <==>
        k in Payees(out, amounts - {r}, leaf) || (k == r && Pays(out, amounts, r, leaf))
    {
      if k != r { assert k in amounts - {r} && (amounts - {r})[k] == amounts[k]; }
    }
  }

  lemma {:induction false} LeavesCount(out: Outside, order: seq<string>, amounts: map<string, int>, leaf: Leaf)
    requires AmountsFit(amounts) && IsOrder(order, amounts.Keys)
    ensures multiset(LeavesIn(out, amounts, order))[leaf] == |Payees(out, amounts, leaf)|
    decreases |order|
  {
    if order == [] {
      assert Payees(out, amounts, leaf) == {};
    } else {
      var front, r := order[..|order| - 1], order[|order| - 1];
      LeavesOfFront(out, order, amounts);
      LeavesCount(out, front, amounts - {r}, leaf);
      PayeesOfFront(out, amounts, r, leaf);
      assert Pays(out, amounts, r, leaf) <==> leaf == Leaf(out.toAccount(r), amounts[r]);
    }
  }

  lemma {:induction false} LeavesSum(out: Outside, order: seq<string>, amounts: map<string, int>)
    requires AmountsFit(amounts) && IsOrder(order, amounts.Keys)
    ensures LeafTotal(LeavesIn(out, amounts, order)) == Total(amounts)
    decreases |order|
  {
    if order == [] {
      assert amounts == map[];
    } else {
      var front, r := order[..|order| - 1], order[|order| - 1];
      LeavesOfFront(out, order, amounts);
      LeavesSum(out, front, amounts - {r});
      TotalSplit(amounts, r);
      var leaves := LeavesIn(out, amounts, order);
      assert leaves[..|leaves| - 1] == LeavesIn(out, amounts - {r}, front);
    }
  }

  /** The stored root is the root of a tree that has, for every account and amount, as
      many leaves as there are recipients of that account with that amount, and no
      others; its leaves add up to the amounts. */
  lemma TreeLaw(out: Outside, amounts: map<string, int>) returns (leaves: seq<Leaf>)
    requires AmountsFit(amounts) && amounts != map[]
    ensures leaves != [] && AllFit(leaves) && RootFor(out, amounts) == Some(TreeRoot(out.keccak, leaves))
    ensures forall leaf :: multiset(leaves)[leaf] == |Payees(out, amounts, leaf)|
    ensures LeafTotal(leaves) == Total(amounts)
  {
    var order := SomeOrder(amounts.Keys);
    OrderIsLong(amounts, order);
    leaves := LeavesIn(out, amounts, order);
    LeavesEncodable(out, amounts, order);
    forall leaf ensures multiset(leaves)[leaf] == |Payees(out, amounts, leaf)| {
      LeavesCount(out, order, amounts, leaf);
    }
    LeavesSum(out, order, amounts);
  }

  /** The bottom layer lists the leaf hashes, each as often as there are leaves with it,
      in the order of the numbers they spell. */
  lemma BottomLaw(keccak: HashFn, leaves: seq<Leaf>, i: nat, j: nat)
    requires AllEncodable(leaves) && i < j < |leaves|
    ensures multiset(Base(keccak, leaves)) == multiset(LeafHashes(keccak, leaves))
    ensures ValueOf(Base(keccak, leaves)[i]) <= ValueOf(Base(keccak, leaves)[j])
  {
    var base := Base(keccak, leaves);
    BeforeIsNumeric(base[j], base[i]);
  }

  /** Two neighbours, counted from the front, hash together with the smaller number
      first; an odd last node moves up unhashed. */
  lemma LayerLaw(keccak: HashFn, layer: seq<Hash>, i: nat)
    requires i < (|layer| + 1) / 2
    ensures |NextLayer(keccak, layer)| == (|layer| + 1) / 2
    ensures 2 * i + 1 == |layer| ==> NextLayer(keccak, layer)[i] == layer[2 * i]
    ensures 2 * i + 1 < |layer| ==> IsParent(keccak, layer[2 * i], layer[2 * i + 1], NextLayer(keccak, layer)[i])
  {
    if 2 * i + 1 < |layer| {
      ParentLaw(keccak, layer[2 * i], layer[2 * i + 1]);
    }
  }

  predicate IsParent(keccak: HashFn, x: Hash, y: Hash, parent: Hash)
  {
    && (ValueOf(x) <= ValueOf(y) ==> parent == keccak(x + y))
    && (ValueOf(y) <= ValueOf(x) ==> parent == keccak(y + x))
  }

  lemma ParentLaw(keccak: HashFn, x: Hash, y: Hash)
    ensures IsParent(keccak, x, y, Node(keccak, x, y))
  {
    if ValueOf(x) <= ValueOf(y) { NodeLaw(keccak, x, y); }
    if ValueOf(y) <= ValueOf(x) { NodeLaw(keccak, y, x); }
  }

  /** The shape of the tree on its smallest cases: one leaf is the root, an odd last
      node moves up unhashed. */
  lemma SmallTrees(keccak: HashFn, a: Hash, b: Hash, c: Hash)
    ensures RootOf(keccak, [a]) == a
    ensures RootOf(keccak, [a, b]) == Node(keccak, a, b)
    ensures RootOf(keccak, [a, b, c]) == Node(keccak, Node(keccak, a, b), c)
  {
    var ab := Node(keccak, a, b);
    assert NextLayer(keccak, [a, b]) == [ab];
    assert NextLayer(keccak, [a, b, c]) == [ab, c];
    assert NextLayer(keccak, [ab, c]) == [Node(keccak, ab, c)];
    assert RootOf(keccak, [ab, c]) == RootOf(keccak, [Node(keccak, ab, c)]);
  }
}
