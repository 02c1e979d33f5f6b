/** The signatures of question texts said bit by bit and byte by byte, with the
    numbers of the source written out (internal/minhash/minhash.go). */
module MinHashLaws {
  import opened Hashing
  import opened Powers
  import opened Text
  import opened MinHash

  /// ## The hash

  lemma Halves(a: nat, k: nat)
    ensures a / 2 / Pow2(k) == a / Pow2(k + 1)
  {
    var p := Pow2(k);
    var q, h := a / 2 / p, a / 2;
    assert h == p * q + h % p;
    assert a == 2 * h + a % 2;
    assert a == (2 * p) * q + (2 * (h % p) + a % 2);
    QuotientIs(a, 2 * p, q, 2 * (h % p) + a % 2);
  }

  lemma QuotientIs(x: nat, n: nat, q: nat, rest: nat)
    requires n > 0 && x == n * q + rest && rest < n
    ensures x / n == q
  {
    assert x == n * (x / n) + x % n;
    assert n * (x / n - q) == rest - x % n;
    FarMultiples(n, x / n - q);
  }

  lemma FarMultiples(n: int, d: int)
    requires n > 0
    ensures d >= 1 ==> n * d >= n
    ensures d <= -1 ==> n * d <= -n
  {
  }

  /** The bit of weight 2^k, by halving. */
  function Bit(a: nat, k: nat): nat
  {
    if k == 0 then a % 2 else Bit(a / 2, k - 1)
  }

  lemma {:induction false} BitIs(a: nat, k: nat)
    ensures Bit(a, k) == a / Pow2(k) % 2
    decreases k
  {
    if k > 0 {
      BitIs(a / 2, k - 1);
      Halves(a, k - 1);
    }
  }

  lemma {:induction false} XorBit(a: nat, b: nat, n: nat, k: nat)
    requires k < n
    ensures Bit(XorBits(a, b, n), k) == if Bit(a, k) == Bit(b, k) then 0 else 1
    decreases n
  {
    XorStep(a, b, n);
    if k > 0 {
      XorBit(a / 2, b / 2, n - 1, k - 1);
    }
  }

  /** Each of the 64 bits is set exactly when the two bits differ. */
  lemma XorLaw(a: Word, b: Word, k: nat)
    requires k < 64
    ensures Xor(a, b) / Pow2(k) % 2 == if a / Pow2(k) % 2 == b / Pow2(k) % 2 then 0 else 1
  {
    BitsOf64();
    XorBit(a, b, 64, k);
    BitIs(a, k);
    BitIs(b, k);
    BitIs(Xor(a, b), k);
  }

  /** The offset basis with the seed; then each byte is put in first and multiplied
      after. */
  lemma HashLaw(data: seq<Byte>, b: Byte, seed: Word)
    ensures HashOf([], seed) == Xor(14695981039346656037, seed)
    ensures HashOf([b], seed) == Xor(Xor(14695981039346656037, seed), b) * 1099511628211 % 0x1_0000_0000_0000_0000
    ensures HashOf(data + [b], seed) == Xor(HashOf(data, seed), b) * 1099511628211 % 0x1_0000_0000_0000_0000
  {
    assert (data + [b])[..|data|] == data;
    assert [b][..0] == [];
  }

  lemma {:induction false} XorZero(a: nat, n: nat)
    requires a < Pow2(n)
    ensures XorBits(a, 0, n) == a
    decreases n
  {
    if n > 0 { XorZero(a / 2, n - 1); }
  }

  /** The lowest `m` bits. */
  function Low(a: nat, m: nat): nat
  {
    if m == 0 then 0 else a % 2 + 2 * Low(a / 2, m - 1)
  }

  /** A number of `m` bits only touches the lowest `m` bits. */
  lemma {:induction false} XorLow(a: nat, b: nat, n: nat, m: nat)
    requires m <= n && a < Pow2(n) && b < Pow2(m)
    ensures XorBits(a, b, n) == a - Low(a, m) + XorBits(Low(a, m), b, m)
    decreases m
  {
    if m == 0 {
      XorZero(a, n);
    } else {
      XorLow(a / 2, b / 2, n - 1, m - 1);
      assert Low(a, m) / 2 == Low(a / 2, m - 1) && Low(a, m) % 2 == a % 2;
    }
  }

  /// The hash of "a", one binary digit at a time.

  lemma LowStep(a: nat, m: nat, low: nat)
    requires m > 0 && Low(a / 2, m - 1) == low
    ensures Low(a, m) == a % 2 + 2 * low
  {
  }

  lemma XorBitsStep(a: nat, b: nat, m: nat, x: nat)
    requires m > 0 && XorBits(a / 2, b / 2, m - 1) == x
    ensures XorBits(a, b, m) == (if a % 2 == b % 2 then 0 else 1) + 2 * x
  {
  }

  lemma HighHalfOfA(a: nat)
    requires a == 0xcbf29ce484222325 / 16
    ensures Low(a, 3) == 0x2 && XorBits(4, 12, 4) == 8
  {
  }

  lemma LowBitsOfA(a: nat)
    requires a == 0xcbf29ce484222325
    ensures Low(a, 7) == 0x25
  {
    var b := a / 2;
    var c := b / 2;
    var d := c / 2;
    HighHalfOfA(d / 2);
    LowStep(d, 4, 0x2);
    LowStep(c, 5, 0x4);
    LowStep(b, 6, 0x9);
    LowStep(a, 7, 0x12);
  }

  lemma XorBitsOfA(a: nat, b: nat)
    requires a == 0x25 && b == 0x61
    ensures XorBits(a, b, 7) == 0x44
  {
    HighHalfOfA(0xcbf29ce484222325 / 16);
    XorBitsStep(a / 2 / 2, b / 2 / 2, 5, 0x8);
    XorBitsStep(a / 2, b / 2, 6, 0x11);
    XorBitsStep(a, b, 7, 0x22);
  }

  lemma XorOfA(a: Word, b: Byte)
    requires a == 0xcbf29ce484222325 && b == 0x61
    ensures Xor(a, b) == 0xcbf29ce484222344
  {
    BitsOf64();
    assert Pow2(7) == 128;
    LowBitsOfA(a);
    XorBitsOfA(Low(a, 7), b);
    XorLow(a, b, 64, 7);
  }

  /** The published 64-bit FNV-1a values of the empty string and of "a". */
  lemma KnownHashes()
    ensures HashOf([], 0) == 0xcbf29ce484222325
    ensures HashOf([0x61], 0) == 0xaf63dc4c8601ec8c
  {
    BitsOf64();
    XorZero(0xcbf29ce484222325, 64);
    HashLaw([], 0x61, 0);
    XorOfA(0xcbf29ce484222325, 0x61);
  }

  /// ## Signatures

  /** Every place holds the smallest hash, with its own number as the seed, over the
      windows of three characters; over the whole of a shorter text; and the largest
      word for no text. */
  lemma SignatureLaw(text: seq<Rune>, i: nat)
    requires i < 128
    ensures |text| >= 3 ==>
      && (forall j, k :: 0 <= j <= k <= |text| && k - j == 3 ==>
            TextSignature(text)[i] <= HashOf(Utf8(text[j..k]), i))
      && (exists j, k :: 0 <= j <= k <= |text| && k - j == 3
                         && TextSignature(text)[i] == HashOf(Utf8(text[j..k]), i))
    ensures 0 < |text| < 3 ==> TextSignature(text)[i] == HashOf(Utf8(text), i)
    ensures text == [] ==> TextSignature(text)[i] == 0xFFFF_FFFF_FFFF_FFFF
  {
    if |text| >= 3 {
      WindowsLaw(text, i);
    } else if text != [] {
      var _ := SmallestIsReached(Grams(text, 3), i);
    }
  }

  lemma WindowsLaw(text: seq<Rune>, seed: Word)
    requires |text| >= 3
    ensures forall j, k :: 0 <= j <= k <= |text| && k - j == 3 ==>
      MinOver(Grams(text, 3), seed) <= HashOf(Utf8(text[j..k]), seed)
    ensures exists j, k :: 0 <= j <= k <= |text| && k - j == 3
                           && MinOver(Grams(text, 3), seed) == HashOf(Utf8(text[j..k]), seed)
  {
    var grams := Grams(text, 3);
    forall j, k | 0 <= j <= k <= |text| && k - j == 3
      ensures MinOver(grams, seed) <= HashOf(Utf8(text[j..k]), seed)
    {
      assert grams[j] == text[j..k];
      MinOverBound(grams, seed, grams[j]);
    }
    var j := SmallestIsReached(grams, seed);
    assert grams[j] == text[j..j + 3];
  }

  lemma SmallestIsReached(grams: seq<seq<Rune>>, seed: Word) returns (k: nat)
    requires grams != []
    ensures k < |grams| && MinOver(grams, seed) == HashOf(Utf8(grams[k]), seed)
  {
    MinOverAttained(grams, seed);
    if g :| g in grams && MinOver(grams, seed) == HashOf(Utf8(g), seed) {
      k :| 0 <= k < |grams| && grams[k] == g;
    } else {
      k := 0;
      MinOverBound(grams, seed, grams[0]);
    }
  }

  /// ## Similarity

  function Agreements(a: Signature, b: Signature): set<nat>
  {
    set i: nat | 0 <= i < 128 && a[i] == b[i]
  }

  function AgreementsBelow(a: Signature, b: Signature, n: nat): set<nat>
    requires n <= 128
  {
    set i: nat | 0 <= i < n && a[i] == b[i]
  }

  lemma {:induction false} MatchesCount(a: Signature, b: Signature, n: nat)
    requires n <= 128
    ensures Matches(a, b, n) == |AgreementsBelow(a, b, n)|
    decreases n
  {
    if n == 0 {
      assert AgreementsBelow(a, b, 0) == {};
    } else {
      MatchesCount(a, b, n - 1);
      assert AgreementsBelow(a, b, n)
          == AgreementsBelow(a, b, n - 1) + if a[n - 1] == b[n - 1] then {n - 1} else {};
    }
  }

  /** The part of the 128 places at which two signatures agree. */
  lemma JaccardLaw(a: Signature, b: Signature)
    ensures 128.0 * Jaccard(a, b) == |Agreements(a, b)| as real
  {
    MatchesCount(a, b, 128);
    assert AgreementsBelow(a, b, 128) == Agreements(a, b);
  }

  /// ## Bytes

  lemma DivideTwice(v: nat, k: nat)
    ensures v / 256 / Pow256(k) == v / Pow256(k + 1)
  {
    var p := Pow256(k);
    var h := v / 256;
    var q := h / p;
    assert h == p * q + h % p;
    assert v == (256 * p) * q + (256 * (h % p) + v % 256);
    QuotientIs(v, 256 * p, q, 256 * (h % p) + v % 256);
  }

  lemma {:induction false} LittleEndianAt(v: nat, n: nat, k: nat)
    requires k < n
    ensures LittleEndian(v, n)[k] == v / Pow256(k) % 256
    decreases n
  {
    if k > 0 {
      LittleEndianAt(v / 256, n - 1, k - 1);
      DivideTwice(v, k - 1);
    }
  }

  /** Stored in 1024 bytes, eight for each place, the lowest first. */
  lemma BytesLaw(sig: Signature, i: nat, k: nat)
    requires i < 128 && k < 8
    ensures |Bytes(sig)| == 1024 && Bytes(sig)[8 * i + k] == sig[i] / Pow256(k) % 256
  {
    BytesAt(sig, i);
    assert Bytes(sig)[8 * i + k] == Bytes(sig)[8 * i..8 * i + 8][k];
    LittleEndianAt(sig[i], 8, k);
  }

  lemma {:induction false} FromLittleEndianAt(bytes: seq<Byte>, k: nat)
    requires k < |bytes|
    ensures FromLittleEndian(bytes) / Pow256(k) % 256 == bytes[k]
    decreases |bytes|
  {
    var value, rest := FromLittleEndian(bytes), FromLittleEndian(bytes[1..]);
    assert value == 256 * rest + bytes[0];
    assert value / 256 == rest && value % 256 == bytes[0];
    if k > 0 {
      FromLittleEndianAt(bytes[1..], k - 1);
      DivideTwice(value, k - 1);
    }
  }

  /** Fewer than 1024 bytes read as zeros; otherwise each place is read from its own
      eight bytes, the lowest first. */
  lemma ParsedLaw(data: seq<Byte>, i: nat, k: nat)
    requires i < 128 && k < 8
    ensures |data| < 1024 ==> Parsed(data)[i] == 0
    ensures |data| >= 1024 ==> Parsed(data)[i] / Pow256(k) % 256 == data[8 * i + k]
  {
    if |data| >= 1024 {
      var bytes := data[8 * i..8 * i + 8];
      FromLittleEndianAt(bytes, k);
      assert Parsed(data)[i] == FromLittleEndian(bytes) && bytes[k] == data[8 * i + k];
    }
  }
}
