/** The reward tree: layers built bottom-up with promoted odd nodes, proofs read
    off the layers, and verification by folding (internal/merkle/tree.go). */
module Merkle {
  import opened Wrappers
  import opened Hashing
  import opened Powers

  /// ## Reference definitions

  /** The next layer up: neighbours are hashed together, an odd last node is promoted. */
  function NextLayer(keccak: HashFn, layer: seq<Hash>): (next: seq<Hash>)
  {
    seq((|layer| + 1) / 2, i requires 0 <= i < (|layer| + 1) / 2 =>
      if 2 * i + 1 < |layer| then Node(keccak, layer[2 * i], layer[2 * i + 1]) else layer[2 * i])
  }

  ghost function Layers(keccak: HashFn, layer: seq<Hash>): (layers: seq<seq<Hash>>)
    requires layer != []
    ensures layers != [] && layers[0] == layer
    decreases |layer|
  {
    if |layer| == 1 then [layer] else [layer] + Layers(keccak, NextLayer(keccak, layer))
  }

  ghost function RootOf(keccak: HashFn, layer: seq<Hash>): Hash
    requires layer != []
    decreases |layer|
  {
    if |layer| == 1 then layer[0] else RootOf(keccak, NextLayer(keccak, layer))
  }

  /** The sibling of node `i`, if it has one. */
  function Sibling(layer: seq<Hash>, i: nat): (sibling: seq<Hash>)
    requires i < |layer|
    ensures |sibling| <= 1
  {
    if i % 2 == 1 then [layer[i - 1]]
    else if i + 1 < |layer| then [layer[i + 1]]
    else []
  }

  lemma SiblingCases(layer: seq<Hash>, i: nat)
    requires i < |layer|
    ensures i % 2 != 0 ==> Sibling(layer, i) == [layer[i - 1]]
    ensures i % 2 == 0 && i + 1 < |layer| ==> Sibling(layer, i) == [layer[i + 1]]
    ensures i % 2 == 0 && i + 1 >= |layer| ==> Sibling(layer, i) == []
  {
  }

  ghost function Path(keccak: HashFn, layer: seq<Hash>, i: nat): (proof: seq<Hash>)
    requires i < |layer|
    decreases |layer|
  {
    if |layer| == 1 then [] else Sibling(layer, i) + Path(keccak, NextLayer(keccak, layer), i / 2)
  }

  function Fold(keccak: HashFn, start: Hash, proof: seq<Hash>): Hash
    decreases |proof|
  {
    if proof == [] then start
    else Node(keccak, Fold(keccak, start, proof[..|proof| - 1]), proof[|proof| - 1])
  }

  /// ## Verify

  method Verify(keccak: HashFn, proof: seq<Hash>, root: Hash, leaf: Hash) returns (ok: bool)
    ensures ok <==> Fold(keccak, leaf, proof) == root
  {
    var computed := leaf;
    for i := 0 to |proof|
      invariant computed == Fold(keccak, leaf, proof[..i])
    {
      assert proof[..i + 1][..i] == proof[..i];
      computed := HashPair(keccak, computed, proof[i]);
    }
    assert proof[..|proof|] == proof;
    ok := computed == root;
  }

  /// ## Completeness

  lemma {:induction false} FoldAppend(keccak: HashFn, start: Hash, p: seq<Hash>, q: seq<Hash>)
    ensures Fold(keccak, start, p + q) == Fold(keccak, Fold(keccak, start, p), q)
    decreases |q|
  {
    if q == [] {
      assert p + q == p;
    } else {
      FoldAppend(keccak, start, p, q[..|q| - 1]);
      assert (p + q)[..|p + q| - 1] == p + q[..|q| - 1];
    }
  }

  lemma FoldOne(keccak: HashFn, start: Hash, h: Hash)
    ensures Fold(keccak, start, [h]) == Node(keccak, start, h) == Node(keccak, h, start)
  {
    assert [h][..0] == [];
    NodeCommutes(keccak, start, h);
  }

  lemma SiblingGivesParent(keccak: HashFn, layer: seq<Hash>, i: nat)
    requires i < |layer|
    ensures i / 2 < |NextLayer(keccak, layer)|
    ensures Fold(keccak, layer[i], Sibling(layer, i)) == NextLayer(keccak, layer)[i / 2]
  {
    ParentInRange(|layer|, i);
    SiblingCases(layer, i);
    var sibling := Sibling(layer, i);
    if sibling != [] {
      FoldOne(keccak, layer[i], sibling[0]);
      assert sibling == [sibling[0]];
    }
  }

  /** Every node's path leads to the root. */
  lemma {:induction false} PathReachesRoot(keccak: HashFn, layer: seq<Hash>, i: nat)
    requires i < |layer|
    ensures Fold(keccak, layer[i], Path(keccak, layer, i)) == RootOf(keccak, layer)
    decreases |layer|
  {
    if |layer| > 1 {
      var next := NextLayer(keccak, layer);
      PathReachesRoot(keccak, next, i / 2);
      FoldAppend(keccak, layer[i], Sibling(layer, i), Path(keccak, next, i / 2));
      SiblingGivesParent(keccak, layer, i);
    }
  }

  /** A proof has at most ceil(log2 n) elements. */
  lemma {:induction false} PathIsShort(keccak: HashFn, layer: seq<Hash>, i: nat, k: nat)
    requires i < |layer| <= Pow2(k)
    ensures |Path(keccak, layer, i)| <= k
    decreases |layer|
  {
    if |layer| > 1 {
      HalfOfPow2(|layer|, k);
      ParentInRange(|layer|, i);
      PathIsShort(keccak, NextLayer(keccak, layer), i / 2, k - 1);
      PathUnfolds(keccak, layer, i);
    }
  }

  lemma HalfOfPow2(n: nat, k: nat)
    requires 1 < n <= Pow2(k)
    ensures k > 0 && (n + 1) / 2 <= Pow2(k - 1)
  {
  }

  lemma ParentInRange(n: nat, i: nat)
    requires i < n
    ensures 0 <= i / 2 < (n + 1) / 2
  {
  }

  lemma PathUnfolds(keccak: HashFn, layer: seq<Hash>, i: nat)
    requires i < |layer| && 1 < |layer|
    ensures i / 2 < |NextLayer(keccak, layer)|
    ensures Path(keccak, layer, i) == Sibling(layer, i) + Path(keccak, NextLayer(keccak, layer), i / 2)
  {
    ParentInRange(|layer|, i);
  }

  /// ## The tree object

  predicate AllEncodable(leaves: seq<Leaf>)
  {
    forall leaf :: leaf in leaves ==> Encodable(leaf)
  }

  /** Every amount is a uint256. */
  predicate AllFit(leaves: seq<Leaf>)
    ensures AllFit(leaves) ==> AllEncodable(leaves)
  {
    forall leaf :: leaf in leaves ==> FitsUint256(leaf) && Encodable(leaf)
  }

  ghost function LeafHashes(keccak: HashFn, leaves: seq<Leaf>): (hs: seq<Hash>)
    requires AllEncodable(leaves)
    ensures |hs| == |leaves|
    ensures forall i :: 0 <= i < |leaves| ==> hs[i] == LeafHash(keccak, leaves[i])
  {
    seq(|leaves|, i requires 0 <= i < |leaves| => LeafHash(keccak, leaves[i]))
  }

  /** The bottom layer: leaf hashes in sorted order. */
  ghost function Base(keccak: HashFn, leaves: seq<Leaf>): (base: seq<Hash>)
    requires AllEncodable(leaves)
    ensures |base| == |leaves|
  {
    var hs := LeafHashes(keccak, leaves);
    assert |SortedCopy(hs)| == |multiset(SortedCopy(hs))| == |multiset(hs)| == |hs|;
    SortedCopy(hs)
  }

  ghost function TreeRoot(keccak: HashFn, leaves: seq<Leaf>): Hash
    requires leaves != [] && AllEncodable(leaves)
  {
    RootOf(keccak, Base(keccak, leaves))
  }

  class Tree {
    const leaves: seq<Leaf>
    var hashes: seq<seq<Hash>>

    constructor (leaves: seq<Leaf>, hashes: seq<seq<Hash>>)
      ensures this.leaves == leaves && this.hashes == hashes
    {
      this.leaves, this.hashes := leaves, hashes;
    }

    ghost predicate Valid(keccak: HashFn)
      reads this
    {
      && leaves != []
      && (AllEncodable(leaves))
      && hashes == Layers(keccak, Base(keccak, leaves))
    }

    /** The single hash of the top layer; the zero hash if there is none. */
    method Root(ghost keccak: HashFn) returns (root: Hash)
      ensures Valid(keccak) ==> root == TreeRoot(keccak, leaves)
      ensures hashes == [] || hashes[|hashes| - 1] == [] ==> root == Zeros(32)
    {
      if Valid(keccak) {
        LayersAreTower(keccak, hashes[0]);
      }
      if |hashes| == 0 {
        return Zeros(32);
      }
      var top := hashes[|hashes| - 1];
      if |top| == 0 {
        return Zeros(32);
      }
      root := top[0];
    }

    /** Fails exactly when no leaf of the tree has this leaf's hash; otherwise the
        proof verifies and is at most logarithmic in length. */
    method Proof(keccak: HashFn, leaf: Leaf) returns (r: Result<seq<Hash>, string>)
      requires Valid(keccak) && Encodable(leaf)
      ensures r.Ok? <==> LeafHash(keccak, leaf) in Base(keccak, leaves)
      ensures r.Ok? ==> r.value == ProofOf(keccak, Base(keccak, leaves), LeafHash(keccak, leaf))
      ensures r.Ok? ==> Fold(keccak, LeafHash(keccak, leaf), r.value) == TreeRoot(keccak, leaves)
      ensures r.Ok? ==> forall k: nat :: |leaves| <= Pow2(k) ==> |r.value| <= k
    {
      var target := HashLeaf(keccak, leaf);
      var idx := IndexOf(hashes[0], target);
      if idx < 0 {
        return Err("leaf not found in tree");
      }
      LayersAreTower(keccak, hashes[0]);
      var proof := Climb(keccak, hashes[0], hashes, idx);
      PathReachesRoot(keccak, hashes[0], idx);
      forall k: nat | |leaves| <= Pow2(k) ensures |proof| <= k {
        PathIsShort(keccak, hashes[0], idx, k);
      }
      r := Ok(proof);
    }
  }

  /** Collects the siblings from the bottom layer up to, not including, the root. */
  method Climb(ghost keccak: HashFn, ghost base: seq<Hash>, layers: seq<seq<Hash>>, start: nat)
    returns (proof: seq<Hash>)
    requires IsTower(keccak, layers) && |layers[|layers| - 1]| == 1
    requires layers[0] == base && start < |base|
    ensures proof == Path(keccak, base, start)
  {
    proof := [];
    var idx, level := start, 0;
    while level < |layers| - 1
      invariant 0 <= level < |layers|
      invariant 0 <= idx < |layers[level]|
      invariant Climbed(keccak, base, start, proof, layers[level], idx)
    {
      var layer := layers[level];
      ghost var before := proof;
      if idx % 2 == 0 {
        if idx + 1 < |layer| {
          proof := proof + [layer[idx + 1]];
        }
      } else {
        assert idx > 0;
        proof := proof + [layer[idx - 1]];
      }
      SiblingCases(layer, idx);
      assert proof == before + Sibling(layer, idx);
      TowerStep(keccak, layers, level);
      ParentInRange(|layer|, idx);
      ClimbedStep(keccak, base, start, before, layer, idx);
      idx := idx / 2;
      level := level + 1;
    }
  }

  /** The first index holding `target`, or -1. */
  method IndexOf(base: seq<Hash>, target: Hash) returns (idx: int)
    ensures idx < 0 <==> target !in base
    ensures 0 <= idx ==> target in base && idx == FirstIndex(base, target)
  {
    for i := 0 to |base|
      invariant target !in base[..i]
    {
      if base[i] == target {
        FirstIndexIs(base, target, i);
        return i;
      }
    }
    return -1;
  }

  /** One layer up, walking the current layer in steps of two. */
  method HashNeighbours(keccak: HashFn, current: seq<Hash>) returns (next: seq<Hash>)
    ensures next == NextLayer(keccak, current)
  {
    next := [];
    var i := 0;
    while i < |current|
      invariant 0 <= i <= |current| + 1 && i % 2 == 0 && |next| == i / 2
      invariant forall k :: 0 <= k < |next| ==> next[k] == NextLayer(keccak, current)[k]
    {
      if i + 1 < |current| {
        var h := HashPair(keccak, current[i], current[i + 1]);
        next := next + [h];
      } else {
        next := next + [current[i]];
      }
      i := i + 2;
    }
  }

  /** Rejects the empty list; otherwise sorts the leaf hashes and builds all layers. */
  method NewTree(keccak: HashFn, leaves: seq<Leaf>) returns (r: Result<Tree, string>)
    requires AllEncodable(leaves)
    ensures r.Err? <==> leaves == []
    ensures r.Ok? ==> fresh(r.value) && r.value.leaves == leaves && r.value.Valid(keccak)
  {
    if |leaves| == 0 {
      return Err("empty leaves");
    }
    var leafHashes := new Hash[|leaves|](_ => seq(32, _ => 0));
    for i := 0 to |leaves|
      invariant forall k :: 0 <= k < i ==> leafHashes[k] == LeafHash(keccak, leaves[k])
    {
      leafHashes[i] := HashLeaf(keccak, leaves[i]);
    }
    assert leafHashes[..] == LeafHashes(keccak, leaves);
    SortHashes(leafHashes);
    var hashes := BuildLayers(keccak, leafHashes[..]);
    var tree := new Tree(leaves, hashes);
    r := Ok(tree);
  }

  method BuildLayers(keccak: HashFn, base: seq<Hash>) returns (hashes: seq<seq<Hash>>)
    requires base != []
    ensures hashes == Layers(keccak, base)
  {
    hashes := [base];
    var current := base;
    while |current| > 1
      invariant current != []
      invariant hashes + Layers(keccak, current)[1..] == Layers(keccak, base)
      decreases |current|
    {
      var next := HashNeighbours(keccak, current);
      assert Layers(keccak, current)[1..] == [next] + Layers(keccak, next)[1..];
      hashes := hashes + [next];
      current := next;
    }
  }

  /** What is collected so far, completed from the current node, is the whole path. */
  ghost predicate Climbed(keccak: HashFn, base: seq<Hash>, start: nat, proof: seq<Hash>, layer: seq<Hash>, i: nat)
    requires start < |base| && i < |layer|
  {
    proof + Path(keccak, layer, i) == Path(keccak, base, start)
  }

  lemma ClimbedStep(keccak: HashFn, base: seq<Hash>, start: nat, proof: seq<Hash>, layer: seq<Hash>, i: nat)
    requires start < |base| && i < |layer| && 1 < |layer|
    requires Climbed(keccak, base, start, proof, layer, i)
    ensures Climbed(keccak, base, start, proof + Sibling(layer, i), NextLayer(keccak, layer), i / 2)
  {
  }

  /** Each layer but the last has several nodes and is followed by the layer above it. */
  ghost predicate IsTower(keccak: HashFn, layers: seq<seq<Hash>>)
  {
    && layers != [] && layers[0] != []
    && forall k :: 0 <= k < |layers| - 1 ==> |layers[k]| > 1 && layers[k + 1] == NextLayer(keccak, layers[k])
  }

  lemma TowerStep(keccak: HashFn, layers: seq<seq<Hash>>, k: nat)
    requires IsTower(keccak, layers) && k < |layers| - 1
    ensures |layers[k]| > 1 && layers[k + 1] == NextLayer(keccak, layers[k])
    ensures |layers[k + 1]| == (|layers[k]| + 1) / 2
  {
  }

  lemma {:induction false} LayersAreTower(keccak: HashFn, base: seq<Hash>)
    requires base != []
    ensures IsTower(keccak, Layers(keccak, base))
    ensures var layers := Layers(keccak, base); layers[|layers| - 1] == [RootOf(keccak, base)]
    decreases |base|
  {
    if |base| > 1 {
      var next := NextLayer(keccak, base);
      LayersAreTower(keccak, next);
      var layers := Layers(keccak, base);
      assert layers[1..] == Layers(keccak, next);
      forall k | 0 <= k < |layers| - 1
        ensures |layers[k]| > 1 && layers[k + 1] == NextLayer(keccak, layers[k])
      {
        if k > 0 {
          assert layers[k] == layers[1..][k - 1] && layers[k + 1] == layers[1..][k];
        }
      }
    }
  }

  ghost function FirstIndex(base: seq<Hash>, target: Hash): (i: nat)
    requires target in base
    ensures i < |base| && base[i] == target
  {
    if base[0] == target then 0 else 1 + FirstIndex(base[1..], target)
  }

  lemma {:induction false} FirstIndexIs(base: seq<Hash>, target: Hash, i: nat)
    requires i < |base| && base[i] == target
    requires forall j :: 0 <= j < i ==> base[j] != target
    ensures FirstIndex(base, target) == i
    decreases i
  {
    if i > 0 {
      assert base[1..][i - 1] == target;
      FirstIndexIs(base[1..], target, i - 1);
    }
  }

  /** The proof for a leaf hash: the path of its first occurrence. */
  ghost function ProofOf(keccak: HashFn, base: seq<Hash>, target: Hash): seq<Hash>
    requires target in base
  {
    Path(keccak, base, FirstIndex(base, target))
  }

  /// ## Completeness and order independence over leaf lists

  ghost predicate IsLeafHash(keccak: HashFn, leaves: seq<Leaf>, h: Hash)
    requires AllEncodable(leaves)
  {
    exists leaf :: leaf in leaves && LeafHash(keccak, leaf) == h
  }

  lemma BaseMembers(keccak: HashFn, leaves: seq<Leaf>)
    requires AllEncodable(leaves)
    ensures forall h :: h in Base(keccak, leaves) <==> IsLeafHash(keccak, leaves, h)
  {
    var hs := LeafHashes(keccak, leaves);
    forall h ensures h in Base(keccak, leaves) <==> h in hs {
      assert h in Base(keccak, leaves) <==> h in multiset(SortedCopy(hs));
      assert h in hs <==> h in multiset(hs);
    }
    forall leaf | leaf in leaves ensures LeafHash(keccak, leaf) in hs {
      var i :| 0 <= i < |leaves| && leaves[i] == leaf;
      assert hs[i] == LeafHash(keccak, leaf);
    }
  }

  /** Every leaf of the list, repeated or not, has a short proof that verifies. */
  lemma EveryLeafProves(keccak: HashFn, leaves: seq<Leaf>, leaf: Leaf)
    requires AllEncodable(leaves)
    requires leaf in leaves
    ensures LeafHash(keccak, leaf) in Base(keccak, leaves)
    ensures Fold(keccak, LeafHash(keccak, leaf), ProofOf(keccak, Base(keccak, leaves), LeafHash(keccak, leaf)))
         == TreeRoot(keccak, leaves)
    ensures forall k: nat :: |leaves| <= Pow2(k) ==>
              |ProofOf(keccak, Base(keccak, leaves), LeafHash(keccak, leaf))| <= k
  {
    BaseMembers(keccak, leaves);
    var base := Base(keccak, leaves);
    var i := FirstIndex(base, LeafHash(keccak, leaf));
    PathReachesRoot(keccak, base, i);
    forall k: nat | |leaves| <= Pow2(k) ensures |Path(keccak, base, i)| <= k {
      PathIsShort(keccak, base, i, k);
    }
  }

  /** The bottom layer, hence the root and every proof, depends only on which
      leaves there are and how often, not on their order. */
  lemma RootIgnoresOrder(keccak: HashFn, a: seq<Leaf>, b: seq<Leaf>)
    requires multiset(a) == multiset(b)
    requires AllEncodable(a)
    ensures AllEncodable(b)
    ensures Base(keccak, a) == Base(keccak, b)
    ensures a != [] ==> b != [] && TreeRoot(keccak, a) == TreeRoot(keccak, b)
  {
    assert |a| == |multiset(a)| == |multiset(b)| == |b|;
    forall leaf | leaf in b ensures Encodable(leaf) {
      assert leaf in multiset(b);
      assert leaf in a;
    }
    HashesFollowLeaves(keccak, a, b);
    SortedCopyOrderFree(LeafHashes(keccak, a), LeafHashes(keccak, b));
  }

  lemma {:induction false} HashesFollowLeaves(keccak: HashFn, a: seq<Leaf>, b: seq<Leaf>)
    requires multiset(a) == multiset(b)
    requires AllEncodable(a)
    requires AllEncodable(b)
    ensures multiset(LeafHashes(keccak, a)) == multiset(LeafHashes(keccak, b))
    decreases |a|
  {
    assert |a| == |multiset(a)| == |multiset(b)| == |b|;
    if a != [] {
      assert a[0] in multiset(b);
      var i :| 0 <= i < |b| && b[i] == a[0];
      var others := b[..i] + b[i + 1..];
      assert a == [a[0]] + a[1..];
      assert b == b[..i] + [b[i]] + b[i + 1..];
      assert multiset(others) == multiset(b) - multiset{b[i]};
      assert multiset(a[1..]) == multiset(a) - multiset{a[0]};
      HashesFollowLeaves(keccak, a[1..], others);
      HashesWithout(keccak, a, 0);
      HashesWithout(keccak, b, i);
      assert a[..0] + a[1..] == a[1..];
    }
  }

  lemma HashesWithout(keccak: HashFn, leaves: seq<Leaf>, i: nat)
    requires i < |leaves| && AllEncodable(leaves)
    ensures AllEncodable(leaves[..i] + leaves[i + 1..])
    ensures multiset(LeafHashes(keccak, leaves))
         == multiset(LeafHashes(keccak, leaves[..i] + leaves[i + 1..])) + multiset{LeafHash(keccak, leaves[i])}
  {
    var hs := LeafHashes(keccak, leaves);
    assert LeafHashes(keccak, leaves[..i] + leaves[i + 1..]) == hs[..i] + hs[i + 1..];
    MultisetWithout(hs, i);
  }

  lemma MultisetWithout(hs: seq<Hash>, i: nat)
    requires i < |hs|
    ensures multiset(hs) == multiset(hs[..i] + hs[i + 1..]) + multiset{hs[i]}
  {
    assert hs == hs[..i] + [hs[i]] + hs[i + 1..];
  }

  /// ## Soundness by collision extraction

  datatype Collision = Collision(first: seq<Byte>, second: seq<Byte>)

  predicate Collides(keccak: HashFn, c: Collision)
  {
    c.first != c.second && keccak(c.first) == keccak(c.second)
  }

  function FindLeaf(keccak: HashFn, leaves: seq<Leaf>, h: Hash): (leaf: Leaf)
    requires AllEncodable(leaves)
    requires IsLeafHash(keccak, leaves, h)
    ensures leaf in leaves && LeafHash(keccak, leaf) == h
  {
    if LeafHash(keccak, leaves[0]) == h then leaves[0]
    else
      assert IsLeafHash(keccak, leaves[1..], h) by {
        var l :| l in leaves && LeafHash(keccak, l) == h;
        assert leaves == [leaves[0]] + leaves[1..];
      }
      FindLeaf(keccak, leaves[1..], h)
  }

  /** The proof's last step hashed exactly this pair. */
  predicate IsPairOf(keccak: HashFn, l: Hash, r: Hash, x: Leaf, proof: seq<Hash>)
    requires Encodable(x)
  {
    proof != [] &&
    PairInput(Fold(keccak, LeafHash(keccak, x), proof[..|proof| - 1]), proof[|proof| - 1]) == PairInput(l, r)
  }

  function ExtractAtLeaf(keccak: HashFn, y: Leaf, x: Leaf, proof: seq<Hash>): (c: Collision)
    requires FitsUint256(x) && FitsUint256(y) && x != y
    requires Fold(keccak, LeafHash(keccak, x), proof) == LeafHash(keccak, y)
    ensures Collides(keccak, c)
  {
    if proof != [] then
      var n := |proof| - 1;
      Collision(PairInput(Fold(keccak, LeafHash(keccak, x), proof[..n]), proof[n]), keccak(Encode(y)))
    else if keccak(Encode(x)) != keccak(Encode(y)) then
      Collision(keccak(Encode(x)), keccak(Encode(y)))
    else
      EncodeInjective(x, y);
      Collision(Encode(x), Encode(y))
  }

  function ExtractAtPair(keccak: HashFn, l: Hash, r: Hash, x: Leaf, proof: seq<Hash>): (c: Collision)
    requires Encodable(x) && !IsPairOf(keccak, l, r, x, proof)
    requires Fold(keccak, LeafHash(keccak, x), proof) == Node(keccak, l, r)
    ensures Collides(keccak, c)
  {
    if proof == [] then Collision(keccak(Encode(x)), PairInput(l, r))
    else
      var n := |proof| - 1;
      Collision(PairInput(Fold(keccak, LeafHash(keccak, x), proof[..n]), proof[n]), PairInput(l, r))
  }

  /** One step down: a promoted node keeps the proof, a matching pair uses up its last element. */
  function Descend(keccak: HashFn, below: seq<Hash>, i: nat, x: Leaf, proof: seq<Hash>): (next: (nat, seq<Hash>))
    requires Encodable(x) && i < |NextLayer(keccak, below)|
    requires Fold(keccak, LeafHash(keccak, x), proof) == NextLayer(keccak, below)[i]
    requires 2 * i + 1 < |below| ==> IsPairOf(keccak, below[2 * i], below[2 * i + 1], x, proof)
    ensures next.0 < |below|
    ensures Fold(keccak, LeafHash(keccak, x), next.1) == below[next.0]
  {
    if 2 * i + 1 >= |below| then (2 * i, proof)
    else
      var front := proof[..|proof| - 1];
      var reached := Fold(keccak, LeafHash(keccak, x), front);
      PairInputInjective(reached, proof[|proof| - 1], below[2 * i], below[2 * i + 1]);
      (if reached == below[2 * i] then 2 * i else 2 * i + 1, front)
  }

  /** From a leaf outside the list whose proof folds to a node of the tree, walk
      down the tree and the proof together until two different hash inputs with
      one hash value appear. */
  function Extract(keccak: HashFn, leaves: seq<Leaf>, layers: seq<seq<Hash>>, i: nat,
                   x: Leaf, proof: seq<Hash>): (c: Collision)
    requires AllFit(leaves) && FitsUint256(x) && x !in leaves
    requires IsTower(keccak, layers) && forall h :: h in layers[0] ==> IsLeafHash(keccak, leaves, h)
    requires i < |layers[|layers| - 1]|
    requires Fold(keccak, LeafHash(keccak, x), proof) == layers[|layers| - 1][i]
    ensures Collides(keccak, c)
    decreases |layers|
  {
    var n := |layers| - 1;
    if n == 0 then
      ExtractAtLeaf(keccak, FindLeaf(keccak, leaves, layers[0][i]), x, proof)
    else
      var below := layers[n - 1];
      assert layers[n] == NextLayer(keccak, below);
      if 2 * i + 1 < |below| && !IsPairOf(keccak, below[2 * i], below[2 * i + 1], x, proof) then
        ExtractAtPair(keccak, below[2 * i], below[2 * i + 1], x, proof)
      else
        var (child, shorter) := Descend(keccak, below, i, x, proof);
        Extract(keccak, leaves, layers[..n], child, x, shorter)
  }

  /** Soundness: accepting a leaf outside the list, with any proof of any length,
      exhibits a collision of the hash function. */
  lemma AcceptedOutsiderCollides(keccak: HashFn, leaves: seq<Leaf>, x: Leaf, proof: seq<Hash>) returns (c: Collision)
    requires leaves != [] && AllFit(leaves)
    requires FitsUint256(x) && x !in leaves
    requires Fold(keccak, LeafHash(keccak, x), proof) == TreeRoot(keccak, leaves)
    ensures Collides(keccak, c)
  {
    BaseMembers(keccak, leaves);
    var base := Base(keccak, leaves);
    LayersAreTower(keccak, base);
    c := Extract(keccak, leaves, Layers(keccak, base), 0, x, proof);
  }

  /** The amount range is needed: an encodable leaf beyond uint256 shares its
      hash with a different leaf, so it verifies against the other's tree. */
  lemma OversizedLeafImpersonates(keccak: HashFn, leaf: Leaf) returns (x: Leaf, proof: seq<Hash>)
    requires Encodable(leaf) && !FitsUint256(leaf)
    ensures Encodable(x) && x !in [leaf]
    ensures Fold(keccak, LeafHash(keccak, x), proof) == TreeRoot(keccak, [leaf])
  {
    x := EncodeAmbiguous(leaf);
    EveryLeafProves(keccak, [leaf], leaf);
    proof := ProofOf(keccak, Base(keccak, [leaf]), LeafHash(keccak, leaf));
  }
}
