/** MinHash signatures of question texts (internal/minhash/minhash.go). Words are
    the integers below 2^64, with xor and wrap-around written out. */
module MinHash {
  import opened Hashing
  import opened Powers
  import opened Text

  const NUM_HASHES := 128
  const N_GRAM_SIZE := 3
  const SIGNATURE_SIZE := 1024

  type Word = n: int | 0 <= n < 0x1_0000_0000_0000_0000
  type Signature = s: seq<Word> | |s| == NUM_HASHES witness seq(NUM_HASHES, _ => 0)

  const MAX_WORD: Word := 0xFFFF_FFFF_FFFF_FFFF

  /// ## Machine words

  lemma EightMoreBits(n: nat)
    ensures Pow2(n + 8) == 256 * Pow2(n)
  {
    assert Pow2(n + 8) == 2 * Pow2(n + 7) && Pow2(n + 7) == 2 * Pow2(n + 6) && Pow2(n + 6) == 2 * Pow2(n + 5);
    assert Pow2(n + 5) == 2 * Pow2(n + 4) && Pow2(n + 4) == 2 * Pow2(n + 3) && Pow2(n + 3) == 2 * Pow2(n + 2);
    assert Pow2(n + 2) == 2 * Pow2(n + 1) && Pow2(n + 1) == 2 * Pow2(n);
  }

  lemma BitsOf64()
    ensures Pow2(64) == 0x1_0000_0000_0000_0000
  {
    EightMoreBits(0);
    EightMoreBits(8);
    EightMoreBits(16);
    EightMoreBits(24);
    EightMoreBits(32);
    EightMoreBits(40);
    EightMoreBits(48);
    EightMoreBits(56);
  }

  /** Exclusive or of the lowest `n` bits. */
  function XorBits(a: nat, b: nat, n: nat): (x: nat)
    ensures x < Pow2(n)
  {
    if n == 0 then 0 else (if a % 2 == b % 2 then 0 else 1) + 2 * XorBits(a / 2, b / 2, n - 1)
  }

  lemma XorStep(a: nat, b: nat, n: nat)
    requires n > 0
    ensures XorBits(a, b, n) % 2 == (if a % 2 == b % 2 then 0 else 1)
    ensures XorBits(a, b, n) / 2 == XorBits(a / 2, b / 2, n - 1)
  {
  }

  lemma {:induction false} XorTwice(a: nat, b: nat, n: nat)
    requires a < Pow2(n)
    ensures XorBits(XorBits(a, b, n), b, n) == a
    decreases n
  {
    if n > 0 {
      XorTwice(a / 2, b / 2, n - 1);
      XorStep(a, b, n);
      XorStep(XorBits(a, b, n), b, n);
      SameHalves(XorBits(XorBits(a, b, n), b, n), a);
    }
  }

  lemma SameHalves(x: nat, y: nat)
    ensures x / 2 == y / 2 && x % 2 == y % 2 ==> x == y
  {
  }

  lemma {:induction false} XorCommutes(a: nat, b: nat, n: nat)
    ensures XorBits(a, b, n) == XorBits(b, a, n)
    decreases n
  {
    if n > 0 {
      XorCommutes(a / 2, b / 2, n - 1);
    }
  }

  function Xor(a: Word, b: Word): Word
  {
    BitsOf64();
    XorBits(a, b, 64)
  }

  lemma XorBack(a: Word, b: Word)
    ensures Xor(Xor(a, b), b) == a && Xor(a, b) == Xor(b, a)
  {
    BitsOf64();
    XorTwice(a, b, 64);
    XorCommutes(a, b, 64);
  }

  function Wrap(n: nat): Word { n % 0x1_0000_0000_0000_0000 }

  /// ## The seeded hash

  const OFFSET: Word := 14695981039346656037

  /** The FNV prime, and its inverse modulo 2^64. */
  const PRIME: Word := 1099511628211
  const PRIME_INVERSE: Word := 14886173955864302971

  function MultiplyWords(h: Word, factor: Word): Word
  {
    assert h * factor >= 0;
    Wrap(h * factor)
  }

  lemma WrapUnique(x: Word, y: nat, k: int)
    requires y == x + 0x1_0000_0000_0000_0000 * k
    ensures Wrap(y) == x
  {
  }

  /** Multiplying by the prime is undone by multiplying by its inverse. */
  lemma PrimeBack(x: Word)
    ensures MultiplyWords(MultiplyWords(x, PRIME), PRIME_INVERSE) == x
    ensures MultiplyWords(MultiplyWords(x, PRIME_INVERSE), PRIME) == x
  {
    TimesBack(x, PRIME, PRIME_INVERSE, 887285111055);
    TimesBack(x, PRIME_INVERSE, PRIME, 887285111055);
  }

  lemma TimesBack(x: Word, p: Word, i: Word, k: int)
    requires p * i == 1 + 0x1_0000_0000_0000_0000 * k
    ensures MultiplyWords(MultiplyWords(x, p), i) == x
  {
    var m := 0x1_0000_0000_0000_0000;
    var q, r := (x * p) / m, (x * p) % m;
    assert x * p == m * q + r;
    calc {
      r * i;
      (x * p - m * q) * i;
      x * (p * i) - m * (q * i);
      x * (1 + m * k) - m * (q * i);
      x + m * (x * k - q * i);
    }
    WrapUnique(x, r * i, x * k - q * i);
  }

  function Mix(h: Word, b: Byte): Word { MultiplyWords(Xor(h, b), PRIME) }

  function Unmix(h: Word, b: Byte): Word { Xor(MultiplyWords(h, PRIME_INVERSE), b) }

  lemma MixBack(h: Word, b: Byte)
    ensures Unmix(Mix(h, b), b) == h && Mix(Unmix(h, b), b) == h
  {
    PrimeBack(Xor(h, b));
    XorBack(h, b);
    PrimeBack(h);
    XorBack(MultiplyWords(h, PRIME_INVERSE), b);
  }

  function Rounds(h: Word, data: seq<Byte>): Word
    decreases |data|
  {
    if data == [] then h else Mix(Rounds(h, data[..|data| - 1]), data[|data| - 1])
  }

  function Unrounds(h: Word, data: seq<Byte>): Word
    decreases |data|
  {
    if data == [] then h else Unrounds(Unmix(h, data[|data| - 1]), data[..|data| - 1])
  }

  lemma {:induction false} RoundsBack(h: Word, data: seq<Byte>)
    ensures Unrounds(Rounds(h, data), data) == h && Rounds(Unrounds(h, data), data) == h
    decreases |data|
  {
    if data != [] {
      var front, last := data[..|data| - 1], data[|data| - 1];
      RoundsBack(h, front);
      MixBack(Rounds(h, front), last);
      MixBack(h, last);
      RoundsBack(Unmix(h, last), front);
    }
  }

  function HashOf(data: seq<Byte>, seed: Word): Word { Rounds(Xor(OFFSET, seed), data) }

  method HashWithSeed(data: seq<Byte>, seed: Word) returns (h: Word)
    ensures h == HashOf(data, seed)
  {
    h := Xor(OFFSET, seed);
    for i := 0 to |data|
      invariant h == Rounds(Xor(OFFSET, seed), data[..i])
    {
      assert data[..i + 1][..i] == data[..i];
      h := Xor(h, data[i]);
      h := MultiplyWords(h, PRIME);
    }
    assert data[..|data|] == data;
  }

  /** On every input the hash is a bijection of the seeds: this is the seed. */
  function SeedOf(data: seq<Byte>, h: Word): Word { Xor(Unrounds(h, data), OFFSET) }

  lemma HashIsBijective(data: seq<Byte>, seed: Word, h: Word)
    ensures HashOf(data, seed) == h <==> seed == SeedOf(data, h)
  {
    RoundsBack(Xor(OFFSET, seed), data);
    XorBack(seed, OFFSET);
    XorBack(Unrounds(h, data), OFFSET);
    RoundsBack(h, data);
  }

  /** So no two of the 128 hash functions agree on any n-gram. */
  lemma SeedsDisagree(data: seq<Byte>, s: Word, t: Word)
    ensures HashOf(data, s) == HashOf(data, t) <==> s == t
  {
    HashIsBijective(data, s, HashOf(data, t));
    HashIsBijective(data, t, HashOf(data, t));
  }

  /// ## N-grams

  /** The window of `n` characters at `i`. */
  function GramAt(text: seq<Rune>, n: nat, i: nat): seq<Rune>
    requires i + n <= |text|
  {
    text[i..i + n]
  }

  /** All windows of `n` characters; a shorter non-empty text is its own only gram. */
  function Grams(text: seq<Rune>, n: nat): seq<seq<Rune>>
  {
    if |text| < n then (if text == [] then [] else [text])
    else seq(|text| - n + 1, i requires 0 <= i <= |text| - n => GramAt(text, n, i))
  }

  method ExtractNGrams(text: seq<Rune>, n: nat) returns (grams: seq<seq<Rune>>)
    ensures grams == Grams(text, n)
  {
    if |text| < n {
      if |text| > 0 {
        return [text];
      }
      return [];
    }
    grams := [];
    for i := 0 to |text| - n + 1
      invariant |grams| == i
      invariant forall k :: 0 <= k < i ==> grams[k] == GramAt(text, n, k)
    {
      grams := grams + [text[i..i + n]];
    }
  }

  /// ## Signatures

  function Min(a: Word, b: Word): Word { if a < b then a else b }

  /** The smallest hash over a list of n-grams; the largest word over none. */
  function MinOver(grams: seq<seq<Rune>>, seed: Word): Word
  {
    if grams == [] then MAX_WORD
    else Min(HashOf(Utf8(grams[|grams| - 1]), seed), MinOver(grams[..|grams| - 1], seed))
  }

  lemma MinOverStep(grams: seq<seq<Rune>>, i: nat)
    requires i < |grams|
    ensures forall seed: Word :: MinOver(grams[..i + 1], seed)
                              == Min(HashOf(Utf8(grams[i]), seed), MinOver(grams[..i], seed))
  {
    assert grams[..i + 1][..i] == grams[..i];
  }

  lemma {:induction false} MinOverBound(grams: seq<seq<Rune>>, seed: Word, g: seq<Rune>)
    requires g in grams
    ensures MinOver(grams, seed) <= HashOf(Utf8(g), seed)
    decreases |grams|
  {
    if g != grams[|grams| - 1] {
      assert g in grams[..|grams| - 1];
      MinOverBound(grams[..|grams| - 1], seed, g);
    }
  }

  lemma {:induction false} MinOverAttained(grams: seq<seq<Rune>>, seed: Word)
    ensures MinOver(grams, seed) == MAX_WORD || exists g :: g in grams && MinOver(grams, seed) == HashOf(Utf8(g), seed)
    decreases |grams|
  {
    if grams != [] {
      var front, last := grams[..|grams| - 1], grams[|grams| - 1];
      MinOverAttained(front, seed);
      assert last in grams;
      if g :| g in front && MinOver(front, seed) == HashOf(Utf8(g), seed) {
        assert g in grams;
      }
    }
  }

  /** More n-grams can only lower the minimum. */
  lemma MinOverSubset(few: seq<seq<Rune>>, many: seq<seq<Rune>>, seed: Word)
    requires forall g :: g in few ==> g in many
    ensures MinOver(many, seed) <= MinOver(few, seed)
  {
    MinOverAttained(few, seed);
    if g :| g in few && MinOver(few, seed) == HashOf(Utf8(g), seed) {
      MinOverBound(many, seed, g);
    }
  }

  /** The minimum over a union is the smaller of the two minima, in whatever order
      and however often the n-grams are listed. */
  lemma MinOverUnion(a: seq<seq<Rune>>, b: seq<seq<Rune>>, c: seq<seq<Rune>>, seed: Word)
    requires forall g :: g in c <==> g in a || g in b
    ensures MinOver(c, seed) == Min(MinOver(a, seed), MinOver(b, seed))
  {
    MinOverSubset(a, c, seed);
    MinOverSubset(b, c, seed);
    MinOverAttained(c, seed);
    if g :| g in c && MinOver(c, seed) == HashOf(Utf8(g), seed) {
      if g in a { MinOverBound(a, seed, g); } else { MinOverBound(b, seed, g); }
    }
  }

  function SignatureOf(grams: seq<seq<Rune>>): (sig: Signature)
  {
    seq(NUM_HASHES, i requires 0 <= i < NUM_HASHES => MinOver(grams, i))
  }

  /** The signature depends only on which n-grams there are. */
  lemma SignatureOfUnion(a: seq<seq<Rune>>, b: seq<seq<Rune>>, c: seq<seq<Rune>>)
    requires forall g :: g in c <==> g in a || g in b
    ensures forall i :: 0 <= i < NUM_HASHES ==> SignatureOf(c)[i] == Min(SignatureOf(a)[i], SignatureOf(b)[i])
  {
    forall i | 0 <= i < NUM_HASHES ensures SignatureOf(c)[i] == Min(SignatureOf(a)[i], SignatureOf(b)[i]) {
      MinOverUnion(a, b, c, i);
    }
  }

  lemma SameGramsSameSignature(a: seq<seq<Rune>>, b: seq<seq<Rune>>)
    requires forall g :: g in a <==> g in b
    ensures SignatureOf(a) == SignatureOf(b)
  {
    forall i | 0 <= i < NUM_HASHES ensures SignatureOf(a)[i] == SignatureOf(b)[i] {
      MinOverUnion(a, a, b, i);
    }
  }

  /** The inner loop: one n-gram against all 128 minima, in place. */
  method Lower(sig: array<Word>, data: seq<Byte>)
    requires sig.Length == NUM_HASHES
    modifies sig
    ensures forall i :: 0 <= i < NUM_HASHES ==> sig[i] == Min(HashOf(data, i), old(sig[i]))
  {
    for i := 0 to NUM_HASHES
      invariant forall k :: 0 <= k < i ==> sig[k] == Min(HashOf(data, k), old(sig[k]))
      invariant forall k :: i <= k < NUM_HASHES ==> sig[k] == old(sig[k])
    {
      var val := HashWithSeed(data, i);
      if val < sig[i] {
        sig[i] := val;
      }
    }
  }

  function TextSignature(text: seq<Rune>): Signature { SignatureOf(Grams(text, N_GRAM_SIZE)) }

  method Generate(text: seq<Rune>) returns (signature: Signature)
    ensures signature == TextSignature(text)
  {
    var grams := ExtractNGrams(text, N_GRAM_SIZE);
    var sig := new Word[NUM_HASHES](_ => MAX_WORD);
    for i := 0 to |grams|
      invariant forall k :: 0 <= k < NUM_HASHES ==> sig[k] == MinOver(grams[..i], k)
    {
      MinOverStep(grams, i);
      Lower(sig, Utf8(grams[i]));
    }
    assert grams[..|grams|] == grams;
    signature := sig[..];
  }

  /// ## Jaccard

  function Matches(a: Signature, b: Signature, n: nat): (m: nat)
    requires n <= NUM_HASHES
    ensures m <= n
  {
    if n == 0 then 0 else Matches(a, b, n - 1) + (if a[n - 1] == b[n - 1] then 1 else 0)
  }

  function Jaccard(a: Signature, b: Signature): real
  {
    Matches(a, b, NUM_HASHES) as real / 128.0
  }

  method CountMatches(a: Signature, b: Signature) returns (similarity: real)
    ensures similarity == Jaccard(a, b)
  {
    var matches := 0;
    for i := 0 to NUM_HASHES
      invariant matches == Matches(a, b, i)
    {
      if a[i] == b[i] {
        matches := matches + 1;
      }
    }
    similarity := matches as real / 128.0;
  }

  lemma {:induction false} MatchesSymmetric(a: Signature, b: Signature, n: nat)
    requires n <= NUM_HASHES
    ensures Matches(a, b, n) == Matches(b, a, n)
    ensures Matches(a, b, n) == n <==> a[..n] == b[..n]
    decreases n
  {
    if n > 0 {
      MatchesSymmetric(a, b, n - 1);
      assert a[..n] == a[..n - 1] + [a[n - 1]] && b[..n] == b[..n - 1] + [b[n - 1]];
    }
  }

  /** Symmetric, between 0 and 1, and 1 exactly on equal signatures. */
  lemma JaccardIsSimilarity(a: Signature, b: Signature)
    ensures Jaccard(a, b) == Jaccard(b, a)
    ensures 0.0 <= Jaccard(a, b) <= 1.0
    ensures Jaccard(a, b) == 1.0 <==> a == b
  {
    MatchesSymmetric(a, b, NUM_HASHES);
    assert a[..NUM_HASHES] == a && b[..NUM_HASHES] == b;
  }

  /** Texts with the same set of n-grams are indistinguishable. */
  lemma SameGramsAreDuplicates(a: seq<Rune>, b: seq<Rune>)
    requires forall g :: g in Grams(a, N_GRAM_SIZE) <==> g in Grams(b, N_GRAM_SIZE)
    ensures Jaccard(TextSignature(a), TextSignature(b)) == 1.0
  {
    SameGramsSameSignature(Grams(a, N_GRAM_SIZE), Grams(b, N_GRAM_SIZE));
    JaccardIsSimilarity(TextSignature(a), TextSignature(b));
  }

  /// ## Bytes

  /** PutUint64: little-endian, eight bytes. */
  function LittleEndian(v: nat, k: nat): (bytes: seq<Byte>)
    ensures |bytes| == k
  {
    if k == 0 then [] else [v % 256] + LittleEndian(v / 256, k - 1)
  }

  function FromLittleEndian(bytes: seq<Byte>): nat
  {
    if bytes == [] then 0 else bytes[0] + 256 * FromLittleEndian(bytes[1..])
  }

  lemma {:induction false} LittleEndianBack(v: nat, k: nat)
    requires v < Pow256(k)
    ensures FromLittleEndian(LittleEndian(v, k)) == v
    decreases k
  {
    if k > 0 {
      LittleEndianBack(v / 256, k - 1);
      assert LittleEndian(v, k)[1..] == LittleEndian(v / 256, k - 1);
    }
  }

  lemma {:induction false} FromLittleEndianBound(bytes: seq<Byte>)
    ensures FromLittleEndian(bytes) < Pow256(|bytes|)
    decreases |bytes|
  {
    if bytes != [] {
      FromLittleEndianBound(bytes[1..]);
    }
  }

  lemma PowOf8()
    ensures Pow256(8) == 0x1_0000_0000_0000_0000
  {
    assert Pow256(4) == 0x1_0000_0000;
  }

  function ReadWord(bytes: seq<Byte>): Word
    requires |bytes| == 8
  {
    PowOf8();
    FromLittleEndianBound(bytes);
    FromLittleEndian(bytes)
  }

  lemma ReadBack(v: Word)
    ensures ReadWord(LittleEndian(v, 8)) == v
  {
    PowOf8();
    LittleEndianBack(v, 8);
  }

  function Bytes(sig: seq<Word>): (bytes: seq<Byte>)
    ensures |bytes| == 8 * |sig|
  {
    if sig == [] then [] else Bytes(sig[..|sig| - 1]) + LittleEndian(sig[|sig| - 1], 8)
  }

  const NO_SIGNATURE: Signature := seq(NUM_HASHES, _ => 0)

  /** Too little data reads as the zero signature; extra data is ignored. */
  function Parsed(data: seq<Byte>): Signature
  {
    if |data| < SIGNATURE_SIZE then NO_SIGNATURE
    else seq(NUM_HASHES, i requires 0 <= i < NUM_HASHES => ReadWord(data[8 * i..8 * i + 8]))
  }

  lemma {:induction false} BytesAt(sig: seq<Word>, i: nat)
    requires i < |sig|
    ensures Bytes(sig)[8 * i..8 * i + 8] == LittleEndian(sig[i], 8)
    decreases |sig|
  {
    var front := sig[..|sig| - 1];
    if i < |front| {
      BytesAt(front, i);
      assert Bytes(sig)[8 * i..8 * i + 8] == Bytes(front)[8 * i..8 * i + 8];
    }
  }

  /** Every signature survives storage. */
  lemma ParsedBytes(sig: Signature)
    ensures Parsed(Bytes(sig)) == sig
  {
    forall i | 0 <= i < NUM_HASHES ensures Parsed(Bytes(sig))[i] == sig[i] {
      BytesAt(sig, i);
      ReadBack(sig[i]);
    }
  }

  method ToBytes(sig: Signature) returns (bytes: seq<Byte>)
    ensures bytes == Bytes(sig) && |bytes| == SIGNATURE_SIZE
  {
    bytes := [];
    for i := 0 to NUM_HASHES
      invariant bytes == Bytes(sig[..i])
    {
      assert sig[..i + 1][..i] == sig[..i];
      bytes := bytes + LittleEndian(sig[i], 8);
    }
    assert sig[..NUM_HASHES] == sig;
  }

  method FromBytes(data: seq<Byte>) returns (signature: Signature)
    ensures signature == Parsed(data)
  {
    var sig := new Word[NUM_HASHES](_ => 0);
    if |data| < SIGNATURE_SIZE {
      assert sig[..] == NO_SIGNATURE;
      return sig[..];
    }
    for i := 0 to NUM_HASHES
      invariant forall k :: 0 <= k < i ==> sig[k] == Parsed(data)[k]
    {
      sig[i] := ReadWord(data[8 * i..8 * i + 8]);
    }
    signature := sig[..];
  }
}
