/** What counts as a text, and the key, told without the decoder's own tests. */
module StoredPasswordText {
  import opened StoredPassword

  // ---- UTF-8, as in section 3 of RFC 3629 -----------------------------------------------

  /** A Unicode scalar value: no surrogate, and none above 10FFFF. */
  predicate IsScalar(c: bv32) {
    c <= 0xD7FF || 0xE000 <= c <= 0x10FFFF
  }

  function Six(c: bv32): bv8 {
    0x80 | ((c & 0x3F) as bv8)
  }

  function Encoded(c: bv32): Bytes
    requires IsScalar(c)
  {
    if c <= 0x7F then [c as bv8]
    else if c <= 0x7FF then [0xC0 | ((c >> 6) as bv8), Six(c)]
    else if c <= 0xFFFF then [0xE0 | ((c >> 12) as bv8), Six(c >> 6), Six(c)]
    else [0xF0 | ((c >> 18) as bv8), Six(c >> 12), Six(c >> 6), Six(c)]
  }

  predicate AllScalar(cs: seq<bv32>) {
    forall c :: c in cs ==> IsScalar(c)
  }

  function EncodedAll(cs: seq<bv32>): Bytes
    requires AllScalar(cs)
  {
    if cs == [] then [] else Encoded(cs[0]) + EncodedAll(cs[1..])
  }

  lemma TwoBytes(c: bv32)
    requires 0x80 <= c <= 0x7FF
    ensures Within(0xC0 | ((c >> 6) as bv8), 0xC2, 0xDF) && Tail(Six(c))
  {
  }

  lemma ThreeBytes(c: bv32)
    requires 0x800 <= c <= 0xFFFF && IsScalar(c)
    ensures var a := 0xE0 | ((c >> 12) as bv8);
            && Within(a, 0xE0, 0xEF) && Tail(Six(c >> 6)) && Tail(Six(c))
            && (a == 0xE0 ==> 0xA0 <= Six(c >> 6)) && (a == 0xED ==> Six(c >> 6) <= 0x9F)
  {
  }

  lemma FourBytes(c: bv32)
    requires 0x10000 <= c <= 0x10FFFF
    ensures var a := 0xF0 | ((c >> 18) as bv8);
            && Within(a, 0xF0, 0xF4) && Tail(Six(c >> 12)) && Tail(Six(c >> 6)) && Tail(Six(c))
            && (a == 0xF0 ==> 0x90 <= Six(c >> 12)) && (a == 0xF4 ==> Six(c >> 12) <= 0x8F)
  {
  }

  /** An encoded character at the front of anything is taken for just that. */
  lemma EncodedInFront(c: bv32, rest: Bytes)
    requires IsScalar(c)
    ensures CharLength(Encoded(c) + rest) == |Encoded(c)| > 0
  {
    var s := Encoded(c) + rest;
    if c <= 0x7F {
      assert Within(s[0], 0x00, 0x7F);
    } else if c <= 0x7FF {
      TwoBytes(c);
      hide Six;
    } else if c <= 0xFFFF {
      ThreeBytes(c);
      hide Six;
    } else {
      FourBytes(c);
      hide Six;
    }
  }

  lemma {:induction false} EncodedAreText(cs: seq<bv32>)
    requires AllScalar(cs)
    ensures IsText(EncodedAll(cs))
  {
    hide CharLength, Encoded, IsScalar;
    if cs != [] {
      assert IsScalar(cs[0]);
      var rest := EncodedAll(cs[1..]);
      EncodedAreText(cs[1..]);
      EncodedInFront(cs[0], rest);
      assert (Encoded(cs[0]) + rest)[|Encoded(cs[0])|..] == rest;
    }
  }

  function Payload(b: bv8): bv32 {
    (b & 0x3F) as bv32
  }

  function FromTwo(a: bv8, b: bv8): bv32 {
    ((a & 0x1F) as bv32 << 6) | Payload(b)
  }

  function FromThree(a: bv8, b: bv8, d: bv8): bv32 {
    ((a & 0x0F) as bv32 << 12) | (Payload(b) << 6) | Payload(d)
  }

  function FromFour(a: bv8, b: bv8, d: bv8, e: bv8): bv32 {
    ((a & 0x07) as bv32 << 18) | (Payload(b) << 12) | (Payload(d) << 6) | Payload(e)
  }

  /** The character at the front. */
  function Decoded(s: Bytes): bv32
    requires s != [] && CharLength(s) > 0
  {
    match CharLength(s)
    case 1 => s[0] as bv32
    case 2 => FromTwo(s[0], s[1])
    case 3 => FromThree(s[0], s[1], s[2])
    case _ => FromFour(s[0], s[1], s[2], s[3])
  }

  lemma OneBack(a: bv8)
    requires Within(a, 0x00, 0x7F)
    ensures IsScalar(a as bv32) && Encoded(a as bv32) == [a]
  {
    var c := a as bv32;
    assert c <= 0x7F && c as bv8 == a;
  }

  lemma TwoBits(a: bv8, b: bv8)
    requires Within(a, 0xC2, 0xDF) && Tail(b)
    ensures var c := FromTwo(a, b);
            0x80 <= c <= 0x7FF && 0xC0 | ((c >> 6) as bv8) == a && Six(c) == b
  {
  }

  lemma TwoBack(a: bv8, b: bv8)
    requires Within(a, 0xC2, 0xDF) && Tail(b)
    ensures var c := FromTwo(a, b); IsScalar(c) && Encoded(c) == [a, b]
  {
    hide FromTwo, Six, Within, Tail;
    TwoBits(a, b);
  }

  lemma ThreeBits(a: bv8, b: bv8, d: bv8)
    requires Within(a, 0xE0, 0xEF) && Tail(b) && Tail(d) && (a == 0xE0 ==> 0xA0 <= b) && (a == 0xED ==> b <= 0x9F)
    ensures var c := FromThree(a, b, d);
            0x800 <= c <= 0xFFFF && IsScalar(c) && 0xE0 | ((c >> 12) as bv8) == a && Six(c >> 6) == b && Six(c) == d
  {
  }

  lemma ThreeBack(a: bv8, b: bv8, d: bv8)
    requires Within(a, 0xE0, 0xEF) && Tail(b) && Tail(d) && (a == 0xE0 ==> 0xA0 <= b) && (a == 0xED ==> b <= 0x9F)
    ensures var c := FromThree(a, b, d); IsScalar(c) && Encoded(c) == [a, b, d]
  {
    hide FromThree, Six, Within, Tail, IsScalar;
    ThreeBits(a, b, d);
  }

  lemma FourBits(a: bv8, b: bv8, d: bv8, e: bv8)
    requires Within(a, 0xF0, 0xF4) && Tail(b) && Tail(d) && Tail(e)
    requires (a == 0xF0 ==> 0x90 <= b) && (a == 0xF4 ==> b <= 0x8F)
    ensures var c := FromFour(a, b, d, e);
            && 0x10000 <= c <= 0x10FFFF
            && 0xF0 | ((c >> 18) as bv8) == a && Six(c >> 12) == b && Six(c >> 6) == d && Six(c) == e
  {
  }

  lemma FourBack(a: bv8, b: bv8, d: bv8, e: bv8)
    requires Within(a, 0xF0, 0xF4) && Tail(b) && Tail(d) && Tail(e)
    requires (a == 0xF0 ==> 0x90 <= b) && (a == 0xF4 ==> b <= 0x8F)
    ensures var c := FromFour(a, b, d, e); IsScalar(c) && Encoded(c) == [a, b, d, e]
  {
    hide FromFour, Six, Within, Tail;
    FourBits(a, b, d, e);
  }

  lemma FrontIsEncoded(s: Bytes)
    requires s != [] && CharLength(s) > 0
    ensures IsScalar(Decoded(s)) && Encoded(Decoded(s)) == s[..CharLength(s)]
  {
    hide Encoded, IsScalar, FromTwo, FromThree, FromFour;
    match CharLength(s)
    case 1 =>
      OneBack(s[0]);
      assert s[..1] == [s[0]];
    case 2 =>
      TwoBack(s[0], s[1]);
      assert s[..2] == [s[0], s[1]];
    case 3 =>
      ThreeBack(s[0], s[1], s[2]);
      assert s[..3] == [s[0], s[1], s[2]];
    case _ =>
      FourBack(s[0], s[1], s[2], s[3]);
      assert s[..4] == [s[0], s[1], s[2], s[3]];
  }

  lemma {:induction false} TextIsEncoded(s: Bytes) returns (cs: seq<bv32>)
    requires IsText(s)
    ensures AllScalar(cs) && EncodedAll(cs) == s
    decreases |s|
  {
    hide CharLength, Encoded, IsScalar, Decoded;
    if s == [] {
      cs := [];
    } else {
      var n := CharLength(s);
      FrontIsEncoded(s);
      var rest := TextIsEncoded(s[n..]);
      cs := [Decoded(s)] + rest;
      assert cs[1..] == rest && s == s[..n] + s[n..];
    }
  }

  /** Bytes are text exactly when they are the encoding of some characters. */
  lemma TextIff(s: Bytes)
    ensures IsText(s) <==> exists cs: seq<bv32> :: AllScalar(cs) && EncodedAll(cs) == s
  {
    if IsText(s) {
      var cs := TextIsEncoded(s);
    }
    if exists cs: seq<bv32> :: AllScalar(cs) && EncodedAll(cs) == s {
      var cs: seq<bv32> :| AllScalar(cs) && EncodedAll(cs) == s;
      EncodedAreText(cs);
    }
  }

  // ---- the key ------------------------------------------------------------------------------

  const KEY_TEXT := "ThetisLink-PSK-2026"

  /** Each byte is masked by the letter of the key in its place, and after the last letter from the first one on again. */
  lemma MaskIsTheKey(i: nat)
    ensures Mask(i) as int == KEY_TEXT[i % 19] as int
  {
    var k := i % 19;
    assert KEY[k] == Mask(i);
    KeyLetters(k);
  }

  lemma KeyLetters(k: nat)
    requires k < 19
    ensures KEY[k] as int == KEY_TEXT[k] as int
  {
    if k < 10 {
      FirstLetters(k);
    } else {
      LastLetters(k);
    }
  }

  lemma FirstLetters(k: nat)
    requires k < 10
    ensures KEY[k] as int == KEY_TEXT[k] as int
  {
  }

  lemma LastLetters(k: nat)
    requires 10 <= k < 19
    ensures KEY[k] as int == KEY_TEXT[k] as int
  {
  }

  /** A stored form, two lower-case digits a byte: the byte as the key masks it, its upper half first. */
  lemma StoredDigits(password: Bytes, j: nat)
    requires j < |password|
    ensures var (stored, masked) := (Obfuscate(password), password[j] ^ KEY[j % 19]);
            && |stored| == 2 * |password|
            && "0123456789abcdef"[(masked / 16) as int] as int == stored[2 * j] as int
            && "0123456789abcdef"[(masked % 16) as int] as int == stored[2 * j + 1] as int
  {
    TwoDigits(password, j);
    var masked := password[j] ^ Mask(j);
    assert masked / 16 == High(masked) && masked % 16 == Low(masked);
    hide Obfuscate, Mask;
    DigitLetter(High(masked));
    DigitLetter(Low(masked));
  }

  lemma DigitLetter(n: bv8)
    requires n < 16
    ensures "0123456789abcdef"[n as int] as int == HexDigit(n) as int
  {
    if n < 8 {
    } else {
    }
  }
}
