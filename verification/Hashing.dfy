/** 32-byte hashes: their order, sorted pairs, the leaf encoding and the in-place
    sort of the leaf layer (internal/merkle/tree.go). Keccak is a parameter: any
    function from byte strings to hashes. */
module Hashing {

  type Byte = x: int | 0 <= x < 256
  type Hash = h: seq<Byte> | |h| == 32 witness seq(32, _ => 0)
  type HashFn = seq<Byte> -> Hash
  type Account = a: seq<Byte> | |a| == 20 witness seq(20, _ => 0)

  datatype Leaf = Leaf(account: Account, amount: nat)

  /// ## Byte-wise order

  predicate Before(a: Hash, b: Hash)
  {
    exists i :: 0 <= i < 32 && a[..i] == b[..i] && a[i] < b[i]
  }

  predicate Sorted(hs: seq<Hash>)
  {
    forall i, j :: 0 <= i < j < |hs| ==> !Before(hs[j], hs[i])
  }

  method CompareHashes(a: Hash, b: Hash) returns (c: int)
    ensures c == -1 <==> Before(a, b)
    ensures c == 1 <==> Before(b, a)
    ensures c == 0 <==> a == b
    ensures -1 <= c <= 1
  {
    var i := 0;
    while i < 32
      invariant 0 <= i <= 32
      invariant a[..i] == b[..i]
    {
      if a[i] < b[i] {
        BeforeAt(a, b, i);
        return -1;
      }
      if a[i] > b[i] {
        BeforeAt(b, a, i);
        return 1;
      }
      i := i + 1;
    }
    assert a == a[..32] == b[..32] == b;
    return 0;
  }

  lemma BeforeAt(a: Hash, b: Hash, i: nat)
    requires i < 32 && a[..i] == b[..i] && a[i] < b[i]
    ensures Before(a, b) && !Before(b, a) && a != b
  {
    EqualPrefixes(a, b);
  }

  lemma EqualPrefixes(a: Hash, b: Hash)
    ensures forall i, j :: 0 <= i < j <= 32 && a[..j] == b[..j] ==> a[i] == b[i]
  {
    forall i, j | 0 <= i < j <= 32 && a[..j] == b[..j] ensures a[i] == b[i] {
      assert a[i] == a[..j][i] == b[..j][i] == b[i];
    }
  }

  lemma FirstDifference(a: Hash, b: Hash) returns (i: nat)
    requires a != b
    ensures i < 32 && a[..i] == b[..i] && a[i] != b[i]
  {
    i := 0;
    while i < 32 && a[i] == b[i]
      invariant i <= 32 && a[..i] == b[..i]
    {
      assert a[..i + 1] == a[..i] + [a[i]] && b[..i + 1] == b[..i] + [b[i]];
      i := i + 1;
    }
    assert a[..32] == a && b[..32] == b;
  }

  /** The order is total: exactly one of before, after, equal. */
  lemma Trichotomy(a: Hash, b: Hash)
    ensures a != b ==> Before(a, b) != Before(b, a)
    ensures a == b ==> !Before(a, b)
  {
    if a != b {
      var i := FirstDifference(a, b);
      if a[i] < b[i] { BeforeAt(a, b, i); } else { BeforeAt(b, a, i); }
    }
  }

  lemma BeforeTransitive(a: Hash, b: Hash, c: Hash)
    requires Before(a, b) && Before(b, c)
    ensures Before(a, c)
  {
    var i :| 0 <= i < 32 && a[..i] == b[..i] && a[i] < b[i];
    var j :| 0 <= j < 32 && b[..j] == c[..j] && b[j] < c[j];
    var k := if i < j then i else j;
    assert a[..k] == c[..k] by {
      assert a[..k] == a[..i][..k] == b[..i][..k] == b[..k];
      assert b[..k] == b[..j][..k] == c[..j][..k] == c[..k];
    }
    if i < j {
      assert b[i] == b[..j][i] == c[..j][i] == c[i];
    } else if j < i {
      assert a[j] == a[..i][j] == b[..i][j] == b[j];
    }
    assert a[k] < c[k];
  }

  /// ## Sorted pairs

  function PairInput(a: Hash, b: Hash): (bytes: seq<Byte>)
    ensures |bytes| == 64
  {
    if Before(b, a) then b + a else a + b
  }

  function Node(keccak: HashFn, a: Hash, b: Hash): Hash
  {
    keccak(PairInput(a, b))
  }

  lemma NodeCommutes(keccak: HashFn, a: Hash, b: Hash)
    ensures Node(keccak, a, b) == Node(keccak, b, a)
  {
    Trichotomy(a, b);
  }

  /** A 64-byte pair input determines its two members up to order. */
  lemma PairInputInjective(a: Hash, b: Hash, c: Hash, d: Hash)
    requires PairInput(a, b) == PairInput(c, d)
    ensures (a == c && b == d) || (a == d && b == c)
  {
    assert PairInput(a, b)[..32] == if Before(b, a) then b else a;
    assert PairInput(a, b)[32..] == if Before(b, a) then a else b;
    assert PairInput(c, d)[..32] == if Before(d, c) then d else c;
    assert PairInput(c, d)[32..] == if Before(d, c) then c else d;
  }

  method HashPair(keccak: HashFn, a: Hash, b: Hash) returns (h: Hash)
    ensures h == Node(keccak, a, b)
  {
    var c := CompareHashes(a, b);
    var lo: seq<Byte>, hi: seq<Byte> := a, b;
    if c > 0 {
      lo, hi := b, a;
    }
    h := keccak(lo + hi);
  }

  /// ## Leaf encoding: abi.encode(address, uint256)

  function Zeros(n: nat): (z: seq<Byte>)
    ensures |z| == n
  {
    seq(n, _ => 0)
  }

  /** The shortest big-endian representation, as big.Int.Bytes returns it. */
  function BigEndian(n: nat): (bytes: seq<Byte>)
    ensures ValueOf(bytes) == n
    ensures bytes != [] ==> bytes[0] != 0
  {
    if n == 0 then [] else
      var front := BigEndian(n / 256);
      assert front + [n % 256] != [] && (front + [n % 256])[..|front|] == front;
      front + [n % 256]
  }

  function ValueOf(bytes: seq<Byte>): nat
  {
    if bytes == [] then 0 else ValueOf(bytes[..|bytes| - 1]) * 256 + bytes[|bytes| - 1]
  }

  function Pow256(k: nat): (p: nat)
    ensures p >= 1
  {
    if k == 0 then 1 else 256 * Pow256(k - 1)
  }

  lemma {:induction false} LengthOfBigEndian(n: nat, k: nat)
    ensures |BigEndian(n)| <= k <==> n < Pow256(k)
    decreases k
  {
    if n != 0 && k != 0 {
      LengthOfBigEndian(n / 256, k - 1);
    }
  }

  lemma {:induction false} ValueOfPadded(z: nat, bytes: seq<Byte>)
    ensures ValueOf(Zeros(z) + bytes) == ValueOf(bytes)
    decreases z + |bytes|
  {
    var padded := Zeros(z) + bytes;
    if bytes != [] {
      assert padded[..|padded| - 1] == Zeros(z) + bytes[..|bytes| - 1];
      ValueOfPadded(z, bytes[..|bytes| - 1]);
    } else if z != 0 {
      assert padded[..|padded| - 1] == Zeros(z - 1) + [];
      ValueOfPadded(z - 1, []);
    }
  }

  /** The 64-byte buffer before the amount is copied over its tail. */
  function AccountPart(account: Account): (bytes: seq<Byte>)
    ensures |bytes| == 64
  {
    Zeros(12) + account + Zeros(32)
  }

  /** The amount's bytes overwrite the tail of the buffer; a longer one would
      make the copy's slice bound negative, which panics. */
  predicate Encodable(leaf: Leaf)
  {
    |BigEndian(leaf.amount)| <= 64
  }

  predicate FitsUint256(leaf: Leaf)
  {
    |BigEndian(leaf.amount)| <= 32
  }

  function Encode(leaf: Leaf): (bytes: seq<Byte>)
    requires Encodable(leaf)
    ensures |bytes| == 64
  {
    var amount := BigEndian(leaf.amount);
    AccountPart(leaf.account)[..64 - |amount|] + amount
  }

  lemma FitsUint256IsABound(leaf: Leaf)
    ensures FitsUint256(leaf) <==> leaf.amount < Pow256(32)
    ensures Encodable(leaf) <==> leaf.amount < Pow256(64)
  {
    LengthOfBigEndian(leaf.amount, 32);
    LengthOfBigEndian(leaf.amount, 64);
  }

  /** Both fields can be read back from a uint256 encoding. */
  lemma DecodeEncoded(leaf: Leaf)
    requires FitsUint256(leaf)
    ensures Encode(leaf)[12..32] == leaf.account
    ensures ValueOf(Encode(leaf)[32..]) == leaf.amount
  {
    var amount := BigEndian(leaf.amount);
    ValueOfPadded(32 - |amount|, amount);
    assert Encode(leaf)[32..] == Zeros(32 - |amount|) + amount;
  }

  lemma EncodeInjective(a: Leaf, b: Leaf)
    requires FitsUint256(a) && FitsUint256(b)
    ensures Encode(a) == Encode(b) <==> a == b
  {
    DecodeEncoded(a);
    DecodeEncoded(b);
  }

  /** Another account whose part in front of the amount looks the same. */
  function OtherAccount(account: Account): Account
  {
    seq(20, i requires 0 <= i < 20 => 255 - account[i])
  }

  /** The amount covers the whole account. */
  lemma AccountCovered(leaf: Leaf)
    requires 52 < |BigEndian(leaf.amount)| <= 64
    ensures var other := Leaf(OtherAccount(leaf.account), leaf.amount); other != leaf && Encode(other) == Encode(leaf)
  {
    var k := 64 - |BigEndian(leaf.amount)|;
    assert OtherAccount(leaf.account)[0] != leaf.account[0];
    assert AccountPart(OtherAccount(leaf.account))[..k] == Zeros(k) == AccountPart(leaf.account)[..k];
  }

  /** Twelve zeros, twenty bytes and thirty-two bytes are the encoding of a leaf. */
  lemma ReadAsLeaf(bytes: seq<Byte>)
    requires |bytes| == 64 && bytes[..12] == Zeros(12)
    ensures var leaf := Leaf(bytes[12..32], ValueOf(bytes[32..])); FitsUint256(leaf) && Encode(leaf) == bytes
  {
    var leaf := Leaf(bytes[12..32], ValueOf(bytes[32..]));
    ShorterAmount(bytes[32..]);
    PaddedIsCanonical(bytes[32..]);
    var tail := BigEndian(leaf.amount);
    assert bytes[32..] == Zeros(32 - |tail|) + tail;
    assert Encode(leaf) == Zeros(12) + bytes[12..32] + Zeros(32 - |tail|) + tail;
    assert bytes == bytes[..12] + bytes[12..32] + bytes[32..];
  }

  /** The amount covers part of the account: read the bytes as a shorter amount. */
  lemma AccountOverlapped(leaf: Leaf)
    requires 32 < |BigEndian(leaf.amount)| <= 52
    ensures var other := Leaf(Encode(leaf)[12..32], ValueOf(Encode(leaf)[32..]));
      FitsUint256(other) && Encode(other) == Encode(leaf)
  {
    assert Encode(leaf)[..12] == Zeros(12);
    ReadAsLeaf(Encode(leaf));
  }

  /** Beyond uint256 the amount runs over the account, and every such leaf shares
      its encoding with a different leaf: the range of the amount is exactly what
      makes the encoding unambiguous. */
  lemma EncodeAmbiguous(leaf: Leaf) returns (other: Leaf)
    requires Encodable(leaf) && !FitsUint256(leaf)
    ensures Encodable(other) && other != leaf && Encode(other) == Encode(leaf)
  {
    if |BigEndian(leaf.amount)| > 52 {
      AccountCovered(leaf);
      other := Leaf(OtherAccount(leaf.account), leaf.amount);
    } else {
      AccountOverlapped(leaf);
      other := Leaf(Encode(leaf)[12..32], ValueOf(Encode(leaf)[32..]));
    }
  }

  lemma {:induction false} ShorterAmount(bytes: seq<Byte>)
    ensures |BigEndian(ValueOf(bytes))| <= |bytes|
    decreases |bytes|
  {
    if bytes != [] {
      var front := bytes[..|bytes| - 1];
      ShorterAmount(front);
      assert ValueOf(bytes) / 256 == ValueOf(front);
    }
  }

  lemma {:induction false} PaddedIsCanonical(bytes: seq<Byte>)
    requires |BigEndian(ValueOf(bytes))| <= |bytes|
    ensures bytes == Zeros(|bytes| - |BigEndian(ValueOf(bytes))|) + BigEndian(ValueOf(bytes))
    decreases |bytes|
  {
    if bytes != [] {
      var front := bytes[..|bytes| - 1];
      var last := bytes[|bytes| - 1];
      ShorterAmount(front);
      PaddedIsCanonical(front);
      assert ValueOf(bytes) / 256 == ValueOf(front) && ValueOf(bytes) % 256 == last;
      assert bytes == front + [last];
      if ValueOf(bytes) == 0 {
        assert last == 0;
      } else {
        assert BigEndian(ValueOf(bytes)) == BigEndian(ValueOf(front)) + [last];
      }
    }
  }

  function LeafHash(keccak: HashFn, leaf: Leaf): Hash
    requires Encodable(leaf)
  {
    keccak(keccak(Encode(leaf)))
  }

  method HashLeaf(keccak: HashFn, leaf: Leaf) returns (h: Hash)
    requires Encodable(leaf)
    ensures h == LeafHash(keccak, leaf)
  {
    var encoded := new Byte[64](_ => 0);
    for i := 0 to 20
      invariant forall k :: 0 <= k < 64 ==> encoded[k] == if 12 <= k < 12 + i then leaf.account[k - 12] else 0
    {
      encoded[12 + i] := leaf.account[i];
    }
    assert encoded[..] == AccountPart(leaf.account);
    var amount := BigEndian(leaf.amount);
    var start := 64 - |amount|;
    for i := 0 to |amount|
      invariant encoded[..start] == AccountPart(leaf.account)[..start]
      invariant encoded[start..start + i] == amount[..i]
    {
      encoded[start + i] := amount[i];
    }
    assert encoded[..] == encoded[..start] + encoded[start..start + |amount|];
    assert encoded[..] == Encode(leaf);
    var inner := keccak(encoded[..]);
    h := keccak(inner);
  }

  /// ## Sorting the leaf layer

  lemma NotAfterTransitive(a: Hash, b: Hash, c: Hash)
    requires !Before(b, a) && !Before(c, b)
    ensures !Before(c, a)
  {
    Trichotomy(a, b);
    Trichotomy(b, c);
    Trichotomy(a, c);
    if Before(c, a) {
      if Before(a, b) { BeforeTransitive(c, a, b); }
    }
  }

  /** The head of a sorted sequence is least, and so is least among its members. */
  lemma SortedHead(hs: seq<Hash>)
    requires hs != [] && Sorted(hs)
    ensures Sorted(hs[1..])
    ensures forall h :: h in hs ==> !Before(h, hs[0])
  {
    Trichotomy(hs[0], hs[0]);
  }

  /** Two sorted layers with the same hashes are the same layer. */
  lemma {:induction false} SortedUnique(a: seq<Hash>, b: seq<Hash>)
    requires Sorted(a) && Sorted(b) && multiset(a) == multiset(b)
    ensures a == b
    decreases |a|
  {
    assert |a| == |multiset(a)| == |multiset(b)| == |b|;
    if a != [] {
      SortedHead(a);
      SortedHead(b);
      assert a[0] in b by { assert a[0] in multiset(b); }
      assert b[0] in a by { assert b[0] in multiset(a); }
      Trichotomy(a[0], b[0]);
      TailMultiset(a);
      TailMultiset(b);
      SortedUnique(a[1..], b[1..]);
      assert a == [a[0]] + a[1..] && b == [b[0]] + b[1..];
    }
  }

  lemma TailMultiset(a: seq<Hash>)
    requires a != []
    ensures multiset(a[1..]) == multiset(a) - multiset{a[0]}
  {
    assert a == [a[0]] + a[1..];
  }

  /** Insertion sort: the reference for the leaf order. */
  ghost function SortedCopy(hs: seq<Hash>): (r: seq<Hash>)
    ensures Sorted(r) && multiset(r) == multiset(hs)
  {
    if hs == [] then [] else
      assert hs == hs[..|hs| - 1] + [hs[|hs| - 1]];
      InsertSorted(SortedCopy(hs[..|hs| - 1]), hs[|hs| - 1])
  }

  ghost function InsertSorted(hs: seq<Hash>, h: Hash): (r: seq<Hash>)
    requires Sorted(hs)
    ensures Sorted(r) && multiset(r) == multiset(hs) + multiset{h}
  {
    if hs == [] then [h] else
      var front, last := hs[..|hs| - 1], hs[|hs| - 1];
      assert hs == front + [last];
      if Before(h, last) then
        var r := InsertSorted(front, h);
        InsertKeepsLast(front, h, r, last);
        r + [last]
      else
        AppendKeepsSorted(hs, h);
        hs + [h]
  }

  lemma InsertKeepsLast(front: seq<Hash>, h: Hash, r: seq<Hash>, last: Hash)
    requires Sorted(front + [last]) && Sorted(r) && Before(h, last)
    requires multiset(r) == multiset(front) + multiset{h}
    ensures Sorted(r + [last])
  {
    Trichotomy(h, last);
    forall i | 0 <= i < |r| ensures !Before(last, r[i]) {
      assert r[i] in multiset(r);
      if r[i] in front {
        var j :| 0 <= j < |front| && front[j] == r[i];
        assert (front + [last])[j] == r[i] && (front + [last])[|front|] == last;
      }
    }
  }

  lemma AppendKeepsSorted(hs: seq<Hash>, h: Hash)
    requires hs != [] && Sorted(hs) && !Before(h, hs[|hs| - 1])
    ensures Sorted(hs + [h])
  {
    forall i | 0 <= i < |hs| ensures !Before(h, hs[i]) {
      if i < |hs| - 1 {
        NotAfterTransitive(hs[i], hs[|hs| - 1], h);
      }
    }
  }

  /** The leaf layer, whatever order the leaves come in. */
  lemma SortedCopyOrderFree(a: seq<Hash>, b: seq<Hash>)
    requires multiset(a) == multiset(b)
    ensures SortedCopy(a) == SortedCopy(b)
  {
    SortedUnique(SortedCopy(a), SortedCopy(b));
  }

  /** Moves the element at `i` left to its place among the sorted ones before it. */
  method Sift(hs: array<Hash>, i: nat)
    requires i < hs.Length && Sorted(hs[..i])
    modifies hs
    ensures Sorted(hs[..i + 1]) && multiset(hs[..]) == multiset(old(hs[..]))
  {
    var j := i;
    var c := -1;
    if j > 0 { c := CompareHashes(hs[j], hs[j - 1]); }
    while j > 0 && c < 0
      invariant 0 <= j <= i
      invariant multiset(hs[..]) == multiset(old(hs[..]))
      invariant AlmostSorted(hs[..i + 1], j)
      invariant j > 0 ==> (c < 0 <==> Before(hs[j], hs[j - 1]))
      decreases j
    {
      ghost var was := hs[..i + 1];
      hs[j], hs[j - 1] := hs[j - 1], hs[j];
      SwapDown(was, hs[..i + 1], j);
      j := j - 1;
      if j > 0 { c := CompareHashes(hs[j], hs[j - 1]); }
    }
    AlmostSortedDone(hs[..i + 1], j);
  }

  /** Sorts in place, comparing byte by byte. */
  method SortHashes(hs: array<Hash>)
    modifies hs
    ensures hs[..] == SortedCopy(old(hs[..]))
  {
    for i := 0 to hs.Length
      invariant Sorted(hs[..i])
      invariant multiset(hs[..]) == multiset(old(hs[..]))
    {
      Sift(hs, i);
    }
    assert hs[..hs.Length] == hs[..];
    SortedUnique(hs[..], SortedCopy(old(hs[..])));
  }

  /** Sorted, except that the element at `j` may belong further left. */
  predicate AlmostSorted(hs: seq<Hash>, j: nat)
  {
    forall i, k :: 0 <= i < k < |hs| && k != j ==> !Before(hs[k], hs[i])
  }

  lemma SwapDown(was: seq<Hash>, now: seq<Hash>, j: nat)
    requires 0 < j < |was| && AlmostSorted(was, j) && Before(was[j], was[j - 1])
    requires now == was[j - 1 := was[j]][j := was[j - 1]]
    ensures AlmostSorted(now, j - 1)
  {
    Trichotomy(was[j], was[j - 1]);
  }

  lemma AlmostSortedDone(hs: seq<Hash>, j: nat)
    requires j < |hs| && AlmostSorted(hs, j)
    requires j > 0 ==> !Before(hs[j], hs[j - 1])
    ensures Sorted(hs)
  {
    forall i | 0 <= i < j ensures !Before(hs[j], hs[i]) {
      if i < j - 1 {
        NotAfterTransitive(hs[i], hs[j - 1], hs[j]);
      }
    }
  }
}
