/** Texts as sequences of code points and as the bytes that store them. */
module Text {
  import opened Hashing

  /** A decoded character; a text is its sequence of code points. */
  type Rune = r: int | 0 <= r < 0x11_0000

  /** UTF-8, as the conversion of a string to bytes writes it. */
  function EncodeRune(r: Rune): seq<Byte>
  {
    if r < 0x80 then [r]
    else if r < 0x800 then [0xC0 + r / 0x40, 0x80 + r % 0x40]
    else if r < 0x1_0000 then [0xE0 + r / 0x1000, 0x80 + r / 0x40 % 0x40, 0x80 + r % 0x40]
    else [0xF0 + r / 0x4_0000, 0x80 + r / 0x1000 % 0x40, 0x80 + r / 0x40 % 0x40, 0x80 + r % 0x40]
  }

  function Utf8(text: seq<Rune>): seq<Byte>
  {
    if text == [] then [] else Utf8(text[..|text| - 1]) + EncodeRune(text[|text| - 1])
  }

  predicate IsContinuation(b: Byte) { 0x80 <= b < 0xC0 }

  /** One to four bytes read as section 3 of RFC 3629 lays them out: the first byte
      tells how many there are, each of the others carries six bits. */
  function Decode(e: seq<int>): int
    requires 1 <= |e| <= 4
  {
    if |e| == 1 then e[0]
    else if |e| == 2 then Six(e[0] - 192, e[1])
    else if |e| == 3 then Six(Six(e[0] - 224, e[1]), e[2])
    else Six(Six(Six(e[0] - 240, e[1]), e[2]), e[3])
  }

  function Six(high: int, low: int): int { 64 * high + low - 128 }

  /** The four ranges of code points and their first bytes. */
  predicate HasLayout(r: int, e: seq<Byte>)
  {
    || (|e| == 1 && r < 128 && e[0] < 128)
    || (|e| == 2 && 128 <= r < 2048 && 192 <= e[0] < 224)
    || (|e| == 3 && 2048 <= r < 65536 && 224 <= e[0] < 240)
    || (|e| == 4 && 65536 <= r && 240 <= e[0] < 248)
  }

  lemma SixBits(r: nat)
    ensures r == 64 * (r / 0x40) + r % 0x40
    ensures r / 0x1000 == r / 0x40 / 0x40 && r / 0x4_0000 == r / 0x1000 / 0x40
  {
  }

  /** A character's bytes are read back as the character, in as many bytes as its range
      asks for. */
  lemma EncodingLaw(r: Rune)
    ensures 1 <= |EncodeRune(r)| <= 4 && HasLayout(r, EncodeRune(r)) && Decode(EncodeRune(r)) == r
    ensures forall k :: 0 < k < |EncodeRune(r)| ==> IsContinuation(EncodeRune(r)[k])
  {
    SixBits(r);
    SixBits(r / 0x40);
    SixBits(r / 0x1000);
  }

  /** A text's bytes are its characters' bytes one after the other. */
  lemma Utf8Law(text: seq<Rune>, r: Rune)
    ensures Utf8([]) == [] && Utf8(text + [r]) == Utf8(text) + EncodeRune(r)
  {
    assert (text + [r])[..|text|] == text;
  }

  lemma NoBytesNoText(a: seq<Rune>)
    ensures Utf8(a) == [] <==> a == []
  {
    if a != [] { EncodingLaw(a[|a| - 1]); }
  }

  lemma FirstByteIsLast(x: seq<Byte>, y: seq<Byte>, r: Rune, t: Rune)
    requires x + EncodeRune(r) == y + EncodeRune(t)
    ensures |y| <= |x|
  {
    var d, e, all := EncodeRune(r), EncodeRune(t), x + EncodeRune(r);
    EncodingLaw(r);
    EncodingLaw(t);
    assert all[|y|] == e[0] && !IsContinuation(e[0]);
    forall k | |x| < k < |all| ensures IsContinuation(all[k]) {
      assert all[k] == d[k - |x|];
    }
  }

  /** The last character starts at the last byte that does not continue one. */
  lemma SameEnd(x: seq<Byte>, y: seq<Byte>, r: Rune, t: Rune)
    requires x + EncodeRune(r) == y + EncodeRune(t)
    ensures x == y && r == t
  {
    FirstByteIsLast(x, y, r, t);
    FirstByteIsLast(y, x, t, r);
    var all := x + EncodeRune(r);
    assert x == all[..|x|] && y == all[..|y|];
    assert EncodeRune(r) == all[|x|..] && EncodeRune(t) == all[|y|..];
    EncodingLaw(r);
    EncodingLaw(t);
  }

  lemma LastCharacters(a: seq<Rune>, b: seq<Rune>)
    requires Utf8(a) == Utf8(b) && a != [] && b != []
    ensures a[|a| - 1] == b[|b| - 1] && Utf8(a[..|a| - 1]) == Utf8(b[..|b| - 1])
  {
    SameEnd(Utf8(a[..|a| - 1]), Utf8(b[..|b| - 1]), a[|a| - 1], b[|b| - 1]);
  }

  /** The bytes of a text determine its characters. */
  lemma {:induction false} Utf8Injective(a: seq<Rune>, b: seq<Rune>)
    requires Utf8(a) == Utf8(b)
    ensures a == b
    decreases |a|
  {
    if a == [] || b == [] {
      NoBytesNoText(a);
      NoBytesNoText(b);
    } else {
      var m, n := |a| - 1, |b| - 1;
      LastCharacters(a, b);
      Utf8Injective(a[..m], b[..n]);
      assert a == a[..m] + [a[m]] && b == b[..n] + [b[n]];
    }
  }

  /** The length the source sees of a string: the number of its bytes. */
  function ByteLength(text: string): nat
  {
    |Utf8(seq(|text|, i requires 0 <= i < |text| => text[i] as int))|
  }

  /** Every character counts one to four bytes, by its range. */
  lemma ByteLengthLaw(text: string, c: char)
    ensures ByteLength([]) == 0
    ensures var n := ByteLength(text + [c]) - ByteLength(text);
      n == if c as int < 128 then 1 else if c as int < 2048 then 2 else if c as int < 65536 then 3 else 4
  {
    var runes := seq(|text|, i requires 0 <= i < |text| => text[i] as int);
    var more := text + [c];
    assert seq(|more|, i requires 0 <= i < |more| => more[i] as int) == runes + [c as int];
    assert (runes + [c as int])[..|runes|] == runes;
    EncodingLaw(c as int);
  }
}
