/** Characters and strings as the text functions read them. */
module Text {
  import opened Options

  /** The Unicode White_Space characters. */
  predicate IsWhitespace(c: char) {
    var n := c as int;
    || 0x09 <= n <= 0x0D || n == 0x20 || n == 0x85 || n == 0xA0 || n == 0x1680
    || 0x2000 <= n <= 0x200A || n == 0x2028 || n == 0x2029 || n == 0x202F || n == 0x205F || n == 0x3000
  }

  /** Among the ASCII characters: tab, line feed, vertical tab, form feed, carriage return and space. */
  lemma AsciiWhitespace(c: char)
    requires (c as int) < 0x80
    ensures IsWhitespace(c) <==> c == '\t' || c == '\n' || c as int == 11 || c as int == 12 || c == '\r' || c == ' '
  {
  }

  /** `to_ascii_lowercase`, one character at a time. */
  function Lower(c: char): char {
    if 'A' <= c <= 'Z' then (c as int + 32) as char else c
  }

  function Folded(s: string): (f: string)
    ensures |f| == |s|
    ensures forall i :: 0 <= i < |s| ==> f[i] == Lower(s[i])
  {
    seq(|s|, i requires 0 <= i < |s| => Lower(s[i]))
  }

  /** `needle` stands at `p` in `hay`, upper or lower case. */
  predicate At(hay: string, needle: string, p: nat) {
    p + |needle| <= |hay| && Folded(hay[p..p + |needle|]) == Folded(needle)
  }

  lemma AtChar(hay: string, needle: string, p: nat, i: nat)
    requires At(hay, needle, p) && i < |needle|
    ensures Lower(hay[p + i]) == Lower(needle[i])
  {
    assert Folded(hay[p..p + |needle|])[i] == Lower(hay[p..p + |needle|][i]);
  }

  /** The first place from `from` on where `needle` stands. */
  function Search(hay: string, needle: string, from: nat): (at: Option<nat>)
    ensures at.Some? ==> from <= at.value && at.value + |needle| <= |hay|
    decreases |hay| - from
  {
    if from + |needle| > |hay| then None
    else if At(hay, needle, from) then Some(from)
    else Search(hay, needle, from + 1)
  }

  lemma {:induction false} SearchFinds(hay: string, needle: string, from: nat)
    ensures var at := Search(hay, needle, from); at.Some? ==> At(hay, needle, at.value)
    decreases |hay| - from
  {
    if from + |needle| <= |hay| && !At(hay, needle, from) {
      SearchFinds(hay, needle, from + 1);
    }
  }

  lemma {:induction false} SearchFindsFirst(hay: string, needle: string, from: nat, q: nat)
    requires from <= q && At(hay, needle, q)
    ensures Search(hay, needle, from).Some? && Search(hay, needle, from).value <= q
    decreases |hay| - from
  {
    if !At(hay, needle, from) {
      SearchFindsFirst(hay, needle, from + 1, q);
    }
  }

  lemma SearchAtEnd(hay: string, needle: string, from: nat)
    requires needle != "" && from >= |hay|
    ensures Search(hay, needle, from).None?
  {
  }
}
