/** The form a password takes in a settings file: XOR with a fixed key, written in hex. */
module StoredPassword {
  import opened Options

  /** A text is its UTF-8 bytes. */
  type Bytes = seq<bv8>

  /** "ThetisLink-PSK-2026" */
  const KEY: Bytes := [
    0x54, 0x68, 0x65, 0x74, 0x69, 0x73, 0x4C, 0x69, 0x6E, 0x6B,
    0x2D, 0x50, 0x53, 0x4B, 0x2D, 0x32, 0x30, 0x32, 0x36]

  // ---- UTF-8 --------------------------------------------------------------------------

  predicate Within(b: bv8, low: bv8, high: bv8) {
    low <= b <= high
  }

  predicate Tail(b: bv8) {
    Within(b, 0x80, 0xBF)
  }

  /** How many bytes the character at the front of `s` takes, 0 when none stands there. */
  function CharLength(s: Bytes): (n: nat)
    requires s != []
    ensures n <= |s|
  {
    var a := s[0];
    if Within(a, 0x00, 0x7F) then
      1
    else if |s| >= 2 && Within(a, 0xC2, 0xDF) && Tail(s[1]) then
      2
    else if |s| >= 3 && Within(a, 0xE0, 0xEF) && Tail(s[1]) && Tail(s[2])
            && (a == 0xE0 ==> 0xA0 <= s[1]) && (a == 0xED ==> s[1] <= 0x9F) then
      3
    else if |s| >= 4 && Within(a, 0xF0, 0xF4) && Tail(s[1]) && Tail(s[2]) && Tail(s[3])
            && (a == 0xF0 ==> 0x90 <= s[1]) && (a == 0xF4 ==> s[1] <= 0x8F) then
      4
    else
      0
  }

  /** Well-formed UTF-8: no stray or missing tail byte, no overlong form, no surrogate. */
  predicate IsText(s: Bytes)
    decreases |s|
  {
    s == [] || (CharLength(s) > 0 && IsText(s[CharLength(s)..]))
  }

  // ---- hex ----------------------------------------------------------------------------

  function HexDigit(n: bv8): bv8
    requires n < 16
  {
    if n < 10 then 0x30 + n else 0x57 + n
  }

  predicate IsHexDigit(c: bv8) {
    Within(c, 0x30, 0x39) || Within(c, 0x41, 0x46) || Within(c, 0x61, 0x66)
  }

  function HexValue(c: bv8): (n: bv8)
    requires IsHexDigit(c)
    ensures n < 16
  {
    if c <= 0x39 then c - 0x30 else if c <= 0x46 then c - 0x37 else c - 0x57
  }

  function LowerByte(c: bv8): bv8 {
    if Within(c, 0x41, 0x5A) then c + 0x20 else c
  }

  function LowerCase(s: Bytes): (r: Bytes)
    ensures |r| == |s|
  {
    seq(|s|, i requires 0 <= i < |s| => LowerByte(s[i]))
  }

  function Mask(i: nat): bv8 {
    KEY[i % |KEY|]
  }

  function High(b: bv8): (n: bv8)
    ensures n < 16
  {
    b >> 4
  }

  function Low(b: bv8): (n: bv8)
    ensures n < 16
  {
    b & 0x0F
  }

  function Joined(high: bv8, low: bv8): bv8 {
    (high << 4) | low
  }

  // ---- the stored form ----------------------------------------------------------------

  function Obfuscate(password: Bytes): (r: Bytes)
    ensures |r| == 2 * |password|
  {
    seq(2 * |password|, i requires 0 <= i < 2 * |password| =>
      var b := password[i / 2] ^ Mask(i / 2);
      HexDigit(if i % 2 == 0 then High(b) else Low(b)))
  }

  predicate IsHex(s: Bytes) {
    |s| % 2 == 0 && forall i :: 0 <= i < |s| ==> IsHexDigit(s[i])
  }

  function Unmasked(s: Bytes): Bytes
    requires IsHex(s)
  {
    seq(|s| / 2, j requires 0 <= j < |s| / 2 =>
      Joined(HexValue(s[2 * j]), HexValue(s[2 * j + 1])) ^ Mask(j))
  }

  /** The password that a value of the settings file holds, if it is hex throughout and what comes of it reads as UTF-8. */
  function Deobfuscate(s: Bytes): Option<Bytes> {
    if IsHex(s) && IsText(Unmasked(s)) then Some(Unmasked(s)) else None
  }

  /** What both programs take a settings value for: what was stored, or else what was typed. */
  function ReadBack(value: Bytes): Bytes {
    match Deobfuscate(value)
    case Some(password) => password
    case None => value
  }

  // ---- one byte -------------------------------------------------------------------------

  lemma ByteThroughHex(b: bv8)
    ensures IsHexDigit(HexDigit(High(b))) && IsHexDigit(HexDigit(Low(b)))
    ensures Joined(HexValue(HexDigit(High(b))), HexValue(HexDigit(Low(b)))) == b
  {
  }

  lemma HexThroughByte(c: bv8, d: bv8)
    requires IsHexDigit(c) && IsHexDigit(d)
    ensures HexDigit(High(Joined(HexValue(c), HexValue(d)))) == LowerByte(c)
    ensures HexDigit(Low(Joined(HexValue(c), HexValue(d)))) == LowerByte(d)
  {
    var high, low := HexValue(c), HexValue(d);
    assert HexDigit(high) == LowerByte(c) && HexDigit(low) == LowerByte(d);
    assert High(Joined(high, low)) == high && Low(Joined(high, low)) == low;
  }

  lemma LowerHex(c: bv8)
    ensures IsHexDigit(LowerByte(c)) <==> IsHexDigit(c)
    ensures IsHexDigit(c) ==> HexValue(LowerByte(c)) == HexValue(c)
  {
  }

  lemma MaskTwice(b: bv8, m: bv8)
    ensures (b ^ m) ^ m == b
  {
  }

  // ---- the whole value --------------------------------------------------------------------

  lemma TwoDigits(password: Bytes, j: nat)
    requires j < |password|
    ensures Obfuscate(password)[2 * j] == HexDigit(High(password[j] ^ Mask(j)))
    ensures Obfuscate(password)[2 * j + 1] == HexDigit(Low(password[j] ^ Mask(j)))
  {
    hide HexDigit, High, Low, Mask;
    assert (2 * j) / 2 == j && (2 * j) % 2 == 0;
    assert (2 * j + 1) / 2 == j && (2 * j + 1) % 2 == 1;
  }

  lemma DigitsReadBack(password: Bytes, j: nat)
    requires j < |password|
    ensures IsHexDigit(Obfuscate(password)[2 * j]) && IsHexDigit(Obfuscate(password)[2 * j + 1])
    ensures Joined(HexValue(Obfuscate(password)[2 * j]), HexValue(Obfuscate(password)[2 * j + 1])) ^ Mask(j)
            == password[j]
  {
    hide HexDigit, HexValue, IsHexDigit, High, Low, Joined, Mask;
    TwoDigits(password, j);
    ByteThroughHex(password[j] ^ Mask(j));
    MaskTwice(password[j], Mask(j));
  }

  lemma ObfuscateIsHex(password: Bytes)
    ensures IsHex(Obfuscate(password)) && Unmasked(Obfuscate(password)) == password
  {
    hide HexDigit, HexValue, IsHexDigit, High, Low, Joined, Mask;
    var s := Obfuscate(password);
    hide Obfuscate;
    forall i | 0 <= i < |s|
      ensures IsHexDigit(s[i])
    {
      DigitsReadBack(password, i / 2);
      assert i == 2 * (i / 2) || i == 2 * (i / 2) + 1;
    }
    forall j | 0 <= j < |password|
      ensures Unmasked(s)[j] == password[j]
    {
      DigitsReadBack(password, j);
    }
  }

  lemma ObfuscateUnmasked(s: Bytes)
    requires IsHex(s)
    ensures Obfuscate(Unmasked(s)) == LowerCase(s)
  {
    hide HexDigit, HexValue, IsHexDigit, High, Low, Joined, Mask, LowerByte;
    var p := Unmasked(s);
    forall i | 0 <= i < |s|
      ensures Obfuscate(p)[i] == LowerByte(s[i])
    {
      var j := i / 2;
      assert i == 2 * j || i == 2 * j + 1;
      var b := Joined(HexValue(s[2 * j]), HexValue(s[2 * j + 1]));
      assert p[j] == b ^ Mask(j);
      MaskTwice(b, Mask(j));
      HexThroughByte(s[2 * j], s[2 * j + 1]);
    }
  }

  /** Digits in either case read alike. */
  lemma LowerCaseKeepsHex(s: Bytes)
    ensures IsHex(LowerCase(s)) <==> IsHex(s)
    ensures IsHex(s) ==> Unmasked(LowerCase(s)) == Unmasked(s)
  {
    hide HexValue, IsHexDigit, Joined, Mask, LowerByte;
    var l := LowerCase(s);
    forall i | 0 <= i < |s|
      ensures IsHexDigit(l[i]) <==> IsHexDigit(s[i])
      ensures IsHexDigit(s[i]) ==> HexValue(l[i]) == HexValue(s[i])
    {
      LowerHex(s[i]);
    }
    assert IsHex(l) ==> forall i :: 0 <= i < |s| ==> IsHexDigit(l[i]) && IsHexDigit(s[i]);
    assert IsHex(s) ==> forall i :: 0 <= i < |s| ==> IsHexDigit(s[i]) && IsHexDigit(l[i]);
  }

  /** Whatever password is stored is the one read back. */
  lemma StoredReadsBack(password: Bytes)
    requires IsText(password)
    ensures Deobfuscate(Obfuscate(password)) == Some(password)
  {
    hide Obfuscate, Unmasked, IsHex, IsText;
    ObfuscateIsHex(password);
  }

  /** Reading is the inverse of storing and nothing more: a value reads as a password exactly when, in lower case, it is that password's stored form. */
  lemma ReadsIffStored(value: Bytes, password: Bytes)
    ensures Deobfuscate(value) == Some(password) <==> IsText(password) && LowerCase(value) == Obfuscate(password)
  {
    hide Obfuscate, Unmasked, IsHex, IsText, LowerCase;
    ObfuscateIsHex(password);
    LowerCaseKeepsHex(value);
    if IsHex(value) {
      ObfuscateUnmasked(value);
    }
  }

  /** Two passwords are never stored alike. */
  lemma StoredApart(one: Bytes, other: Bytes)
    requires Obfuscate(one) == Obfuscate(other)
    ensures one == other
  {
    hide Obfuscate, Unmasked;
    ObfuscateIsHex(one);
    ObfuscateIsHex(other);
  }

  /** A file written with what was read from it reads the same ever after, whoever typed the value. */
  lemma SavingKeepsThePassword(value: Bytes)
    requires IsText(value)
    ensures ReadBack(Obfuscate(ReadBack(value))) == ReadBack(value)
  {
    hide Obfuscate, Unmasked, IsHex, IsText;
    StoredReadsBack(ReadBack(value));
  }

  /**
   A value typed into the file by hand is taken as typed exactly when it is empty, or no hex, or
   hex of bytes that are no text; and that is when no password is stored as it, in either case of letters.
   */
  lemma TypedIsKeptIff(value: Bytes)
    ensures ReadBack(value) == value <==> value == [] || !IsHex(value) || !IsText(Unmasked(value))
    ensures !IsHex(value) || !IsText(Unmasked(value)) <==>
            forall p: Bytes :: IsText(p) ==> LowerCase(value) != Obfuscate(p)
  {
    hide IsHex, IsText, LowerCase;
    match Deobfuscate(value) {
      case Some(p) =>
        ReadsIffStored(value, p);
        assert |p| == |value| / 2;
      case None =>
        forall p: Bytes | IsText(p)
          ensures LowerCase(value) != Obfuscate(p)
        {
          ReadsIffStored(value, p);
        }
    }
  }

  /** The case that is left: `1234` typed by hand is read as `F\`. */
  lemma TypedHexIsMisread()
    ensures ReadBack([0x31, 0x32, 0x33, 0x34]) == [0x46, 0x5C]
  {
    var typed: Bytes := [0x31, 0x32, 0x33, 0x34];
    var read: Bytes := [0x46, 0x5C];
    assert Unmasked(typed) == read;
    assert read[1..] == [0x5C];
  }
}
