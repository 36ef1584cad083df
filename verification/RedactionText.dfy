/**
 The scanners told on the text itself: what stands before a match, what is put in its place, what
 stands behind it. By these laws alone what becomes of any line can be worked out from left to right.
 */
module RedactionText {
  import opened Options
  import opened Text
  import opened Redaction

  // ---- a search carries over to a longer text ---------------------------------------------

  /** Letter by letter the same, upper or lower case of the Latin alphabet. */
  predicate SameLetters(a: string, b: string) {
    && |a| == |b|
    && forall i :: 0 <= i < |a| ==>
         || a[i] == b[i]
         || ('A' <= a[i] <= 'Z' && b[i] as int == a[i] as int + 32)
         || ('A' <= b[i] <= 'Z' && a[i] as int == b[i] as int + 32)
  }

  lemma FoldedIffSameLetters(a: string, b: string)
    ensures Folded(a) == Folded(b) <==> SameLetters(a, b)
  {
    if Folded(a) == Folded(b) {
      forall i | 0 <= i < |a|
        ensures Lower(a[i]) == Lower(b[i])
      {
        assert Folded(a)[i] == Folded(b)[i];
      }
    }
  }

  lemma AtBehind(x: string, y: string, needle: string, p: nat)
    ensures At(x + y, needle, |x| + p) <==> At(y, needle, p)
  {
    assert (x + y)[|x|..] == y;
    MatchInTail(x + y, needle, |x|, p);
  }

  lemma {:induction false} SearchBehind(x: string, y: string, needle: string, i: nat)
    ensures Search(x + y, needle, |x| + i) ==
            match Search(y, needle, i) case None => None case Some(at) => Some(|x| + at)
    decreases |y| - i
  {
    hide At;
    AtBehind(x, y, needle, i);
    if i + |needle| <= |y| && !At(y, needle, i) {
      SearchBehind(x, y, needle, i + 1);
    }
  }

  /** The first match stands where there is one and none before. */
  lemma SearchIs(hay: string, needle: string, from: nat, at: nat)
    requires from <= at && At(hay, needle, at) && forall p: nat :: from <= p < at ==> !At(hay, needle, p)
    ensures Search(hay, needle, from) == Some(at)
  {
    SearchFindsFirst(hay, needle, from, at);
    SearchFinds(hay, needle, from);
  }

  lemma SearchNone(hay: string, needle: string, from: nat)
    requires forall p: nat :: from <= p ==> !At(hay, needle, p)
    ensures Search(hay, needle, from) == None
  {
    SearchFinds(hay, needle, from);
  }

  lemma FirstFound(pre: string, found: string, tail: string, needle: string)
    requires needle != "" && SameLetters(found, needle)
    requires forall p: nat :: p < |pre| ==> !At(pre + found + tail, needle, p)
    ensures |found| == |needle| && Search(pre + found + tail, needle, 0) == Some(|pre|)
  {
    var line := pre + found + tail;
    FoldedIffSameLetters(found, needle);
    assert line[|pre|..|pre| + |needle|] == found;
    assert At(line, needle, |pre|);
    hide At;
    SearchIs(line, needle, 0, |pre|);
  }

  // ---- hosts --------------------------------------------------------------------------------

  lemma {:induction false} ReplacedBehind(x: string, y: string, needle: string, tag: string, i: nat)
    requires needle != "" && i <= |y|
    ensures Replaced(x + y, needle, tag, |x| + i) == Replaced(y, needle, tag, i)
    decreases |y| - i
  {
    hide Search, At;
    SearchBehind(x, y, needle, i);
    match Search(y, needle, i)
    case None =>
      assert (x + y)[|x| + i..] == y[i..];
    case Some(at) =>
      assert (x + y)[|x| + i..|x| + at] == y[i..at];
      ReplacedStep(x + y, needle, tag, |x| + i, |x| + at);
      ReplacedStep(y, needle, tag, i, at);
      hide Replaced;
      ReplacedBehind(x, y, needle, tag, at + |needle|);
  }

  lemma ReplacedStep(hay: string, needle: string, tag: string, from: nat, at: nat)
    requires needle != "" && from <= |hay| && Search(hay, needle, from) == Some(at)
    ensures Replaced(hay, needle, tag, from) == hay[from..at] + tag + Replaced(hay, needle, tag, at + |needle|)
  {
    hide Search;
  }

  /** A line without the host stays as it is. */
  lemma NoHostNoChange(line: string, host: string, tag: string)
    requires host != "" && !Occurs(line, host)
    ensures Replaced(line, host, tag, 0) == line
  {
    hide At;
    SearchNone(line, host, 0);
  }

  /** At the first match: what stands before it stays, the label takes its place, and so on with the rest. */
  lemma FirstHostReplaced(pre: string, found: string, rest: string, host: string, tag: string)
    requires host != "" && SameLetters(found, host)
    requires forall p: nat :: p < |pre| ==> !At(pre + found + rest, host, p)
    ensures Replaced(pre + found + rest, host, tag, 0) == pre + tag + Replaced(rest, host, tag, 0)
  {
    hide At, Search, SameLetters, Replaced;
    var line := pre + found + rest;
    FirstFound(pre, found, rest, host);
    ReplacedStep(line, host, tag, 0, |pre|);
    assert line[0..|pre|] == pre;
    ReplacedBehind(pre + found, rest, host, tag, 0);
  }

  // ---- user names -----------------------------------------------------------------------------

  predicate BlankOrQuote(c: char) {
    IsWhitespace(c) || c == '"' || c == '\''
  }

  /**
   A name and what stands behind it: the name goes up to the next separator; when there is none ahead
   at all, up to the next blank or quote, or to the end of the line.
   */
  predicate NameStops(name: string, rest: string, separator: char) {
    && separator !in name
    && (|| (rest != "" && rest[0] == separator)
        || (&& separator !in rest
            && (forall i :: 0 <= i < |name| ==> !BlankOrQuote(name[i]))
            && (rest == "" || BlankOrQuote(rest[0]))))
  }

  lemma {:induction false} SkipIs(l: string, from: nat, end: nat, stop: char -> bool)
    requires from <= end <= |l| && (forall i :: from <= i < end ==> !stop(l[i])) && (end < |l| ==> stop(l[end]))
    ensures SkipTo(l, from, stop) == end
    decreases end - from
  {
    if from < end {
      SkipIs(l, from + 1, end, stop);
    }
  }

  lemma NameEndIs(pre: string, name: string, rest: string, separator: char)
    requires NameStops(name, rest, separator)
    ensures NameEnd(pre + name + rest, |pre|, separator) == |pre| + |name|
  {
    var l, end := pre + name + rest, |pre| + |name|;
    assert forall i :: 0 <= i < |name| ==> l[|pre| + i] == name[i] && name[i] in name;
    assert forall i :: 0 <= i < |rest| ==> l[end + i] == rest[i] && rest[i] in rest;
    var isSeparator := (c: char) => c == separator;
    if rest != "" && rest[0] == separator {
      forall i | |pre| <= i < end
        ensures !isSeparator(l[i])
      {
        assert l[i] == name[i - |pre|];
      }
      NameEndFound(l, |pre|, end, separator);
    } else {
      forall i | |pre| <= i < |l|
        ensures l[i] != separator
      {
        assert l[i] == if i < end then name[i - |pre|] else rest[i - end];
      }
      forall i | |pre| <= i < end
        ensures !EndsName(l[i])
      {
        assert l[i] == name[i - |pre|];
      }
      NameEndElse(l, |pre|, end, separator);
    }
  }

  lemma NameEndFound(l: string, after: nat, end: nat, separator: char)
    requires after <= end < |l| && l[end] == separator && forall i :: after <= i < end ==> l[i] != separator
    ensures NameEnd(l, after, separator) == end
  {
    var e := SkipTo(l, after, c => c == separator);
    assert e == end;
  }

  lemma NameEndElse(l: string, after: nat, end: nat, separator: char)
    requires after <= end <= |l| && forall i :: after <= i < |l| ==> l[i] != separator
    requires (forall i :: after <= i < end ==> !EndsName(l[i])) && (end < |l| ==> EndsName(l[end]))
    ensures NameEnd(l, after, separator) == end
  {
    hide EndsName;
  }

  /** Every text behind a marker is a name, empty or not, and a rest. */
  lemma EveryTextHasAName(text: string, separator: char) returns (name: string, rest: string)
    ensures text == name + rest && NameStops(name, rest, separator)
  {
    var e := SkipTo(text, 0, c => c == separator);
    if e < |text| {
      name, rest := text[..e], text[e..];
      assert forall i :: 0 <= i < e ==> name[i] == text[i];
    } else {
      var end := SkipTo(text, 0, c => EndsName(c));
      name, rest := text[..end], text[end..];
      assert forall i :: 0 <= i < |text| ==> text[i] != separator;
      assert forall i :: 0 <= i < end ==> name[i] == text[i];
      assert forall i :: 0 <= i < |rest| ==> rest[i] == text[end + i];
    }
  }

  lemma {:induction false} SkipBehind(x: string, y: string, from: nat, stop: char -> bool)
    requires from <= |y|
    ensures SkipTo(x + y, |x| + from, stop) == |x| + SkipTo(y, from, stop)
    decreases |y| - from
  {
    if from < |y| && !stop(y[from]) {
      SkipBehind(x, y, from + 1, stop);
    }
  }

  lemma NameEndBehind(x: string, y: string, after: nat, separator: char)
    requires after <= |y|
    ensures NameEnd(x + y, |x| + after, separator) == |x| + NameEnd(y, after, separator)
  {
    var name, rest := EveryTextHasAName(y[after..], separator);
    assert y == y[..after] + name + rest && x + y == (x + y[..after]) + name + rest;
    hide NameEnd, NameStops;
    NameEndIs(y[..after], name, rest, separator);
    NameEndIs(x + y[..after], name, rest, separator);
  }

  lemma {:induction false} StripBehind(x: string, y: string, m: Marker, i: nat)
    requires m.text != "" && i <= |y|
    ensures StripFrom(x + y, m, |x| + i) == x + StripFrom(y, m, i)
    decreases |y| - i
  {
    hide Search, At, NameEnd, Redacted;
    SearchBehind(x, y, m.text, i);
    match Search(y, m.text, i)
    case None =>
    case Some(at) =>
      var after := at + |m.text|;
      var end := NameEnd(y, after, m.separator);
      NameEndBehind(x, y, after, m.separator);
      if end <= after {
        StripBehind(x, y, m, after);
      } else {
        RedactedBehind(x, y, after, end);
        StripBehind(x, Redacted(y, after, end), m, after + |USER|);
      }
  }

  lemma RedactedBehind(x: string, y: string, after: nat, end: nat)
    requires after <= end <= |y|
    ensures |Redacted(y, after, end)| == after + |USER| + (|y| - end)
    ensures Redacted(x + y, |x| + after, |x| + end) == x + Redacted(y, after, end)
  {
    assert (x + y)[..|x| + after] == x + y[..after] && (x + y)[|x| + end..] == y[end..];
  }

  /** Where the marker does not stand, nothing changes. */
  lemma NoMarkerNoChange(line: string, m: Marker)
    requires m.text != "" && forall p: nat :: !At(line, m.text, p)
    ensures StripFrom(line, m, 0) == line
  {
    hide At;
    SearchNone(line, m.text, 0);
  }

  /**
   At the first marker: what stands before it and the marker itself stay as they are, the whole name
   behind it and no more gives way to `<user>`, and so on with the rest. No name, no change.
   */
  lemma FirstNameTaken(pre: string, found: string, name: string, rest: string, m: Marker)
    requires m.text != "" && SameLetters(found, m.text) && NameStops(name, rest, m.separator)
    requires forall p: nat :: p < |pre| ==> !At(pre + found + name + rest, m.text, p)
    ensures StripFrom(pre + found + name + rest, m, 0)
            == pre + found + (if name == "" then "" else "<user>") + StripFrom(rest, m, 0)
  {
    hide At, Search, NameEnd, Redacted, SameLetters, NameStops, StripFrom;
    var line, head := pre + found + name + rest, pre + found;
    assert line == head + (name + rest) && name + rest == if name == "" then rest else name + rest;
    FirstFound(pre, found, name + rest, m.text);
    NameEndIs(head, name, rest, m.separator);
    FirstStep(line, m, |pre|, |head| + |name|);
    if name == "" {
      assert line == head + rest;
      StripBehind(head, rest, m, 0);
    } else {
      NameRedacted(head, name, rest);
      StripBehind(head + USER, rest, m, 0);
    }
  }

  lemma NameRedacted(head: string, name: string, rest: string)
    ensures Redacted(head + name + rest, |head|, |head| + |name|) == head + USER + rest
  {
  }

  lemma FirstStep(line: string, m: Marker, at: nat, end: nat)
    requires m.text != "" && Search(line, m.text, 0) == Some(at)
    requires end == NameEnd(line, at + |m.text|, m.separator)
    ensures StripFrom(line, m, 0) ==
            if end == at + |m.text| then StripFrom(line, m, at + |m.text|)
            else StripFrom(Redacted(line, at + |m.text|, end), m, at + |m.text| + |USER|)
  {
    hide Search, NameEnd;
  }

  /** No marker of any kind: the line stays as it is. */
  lemma NoPathNoChange(line: string)
    requires forall p: nat :: !At(line, WINDOWS.text, p) && !At(line, MAC.text, p) && !At(line, UNIX.text, p)
    ensures StripUserPaths(line) == line
  {
    hide At, StripFrom;
    NoMarkerNoChange(line, WINDOWS);
    NoMarkerNoChange(line, MAC);
    NoMarkerNoChange(line, UNIX);
  }

  predicate IsOneOf(m: Marker) {
    m == WINDOWS || m == MAC || m == UNIX
  }

  lemma OthersStillAbsent(pre: string, found: string, name: string, rest: string, other: Marker)
    requires IsOneOf(other) && name != ""
    requires forall p: nat :: !At(pre + found + name + rest, other.text, p)
    ensures forall p: nat :: !At(pre + found + "<user>" + rest, other.text, p)
  {
    var line, after := pre + found + name + rest, |pre + found|;
    var end := after + |name|;
    assert Redacted(line, after, end) == pre + found + "<user>" + rest;
    assert IsMarker(other);
    hide At, Redacted, IsMarker;
    forall p: nat
      ensures !At(Redacted(line, after, end), other.text, p)
    {
      if At(Redacted(line, after, end), other.text, p) {
        NotAcrossUser(line, after, end, other, p);
        if p + |other.text| <= after {
          AtBeforeName(line, after, end, other.text, p);
        } else {
          AtBehindName(line, after, end, other.text, p, p - (after + |USER|) + end);
        }
      }
    }
  }

  /** One user path in a line: exactly the name in it is taken out, whichever of the three spellings it is. */
  lemma OneNameTaken(pre: string, found: string, name: string, rest: string, m: Marker)
    requires IsOneOf(m) && SameLetters(found, m.text) && name != "" && NameStops(name, rest, m.separator)
    requires forall other: Marker, p: nat :: IsOneOf(other) && At(pre + found + name + rest, other.text, p) ==>
               other == m && p == |pre|
    ensures StripUserPaths(pre + found + name + rest) == pre + found + "<user>" + rest
  {
    var line, after := pre + found + name + rest, pre + found + "<user>" + rest;
    RestHasNone(pre, found, name, rest, m);
    hide At, SameLetters, NameStops, StripFrom;
    NoMarkerNoChange(rest, m);
    FirstNameTaken(pre, found, name, rest, m);
    assert StripFrom(line, m, 0) == after;
    forall other: Marker | IsOneOf(other) && other != m
      ensures StripFrom(line, other, 0) == line && StripFrom(after, other, 0) == after
    {
      OthersStillAbsent(pre, found, name, rest, other);
      NoMarkerNoChange(line, other);
      NoMarkerNoChange(after, other);
    }
  }

  lemma RestHasNone(pre: string, found: string, name: string, rest: string, m: Marker)
    requires forall p: nat :: At(pre + found + name + rest, m.text, p) ==> p == |pre|
    requires |found| > 0
    ensures forall p: nat :: !At(rest, m.text, p)
  {
    hide At;
    forall p: nat
      ensures !At(rest, m.text, p)
    {
      AtBehind(pre + found + name, rest, m.text, p);
    }
  }

  /** The home of a user called jan, and of one on Windows called chiron. */
  const Home := "/home/jan/x"
  const Profile := "C:\\Users\\chiron\\AppData"

  lemma OnlyMarkerInHome(m: Marker, p: nat)
    requires IsOneOf(m) && At(Home, m.text, p)
    ensures m == UNIX && p == 0
  {
    AtChar(Home, m.text, p, 0);
    AtChar(Home, m.text, p, 1);
    hide At;
  }

  lemma OnlyMarkerInProfile(m: Marker, p: nat)
    requires IsOneOf(m) && At(Profile, m.text, p)
    ensures m == WINDOWS && p == 2
  {
    AtChar(Profile, m.text, p, 0);
    AtChar(Profile, m.text, p, 1);
    hide At;
  }

  lemma NamesOfTwoUsersTaken()
    ensures StripUserPaths(Home) == "/home/<user>/x"
    ensures StripUserPaths(Profile) == "C:\\Users\\<user>\\AppData"
  {
    hide At, StripUserPaths, NameEnd;
    forall m: Marker, p: nat | IsOneOf(m) && At(Home, m.text, p) {
      OnlyMarkerInHome(m, p);
    }
    forall m: Marker, p: nat | IsOneOf(m) && At(Profile, m.text, p) {
      OnlyMarkerInProfile(m, p);
    }
    assert Home == "" + "/home/" + "jan" + "/x" && Profile == "C:" + "\\Users\\" + "chiron" + "\\AppData";
    OneNameTaken("", "/home/", "jan", "/x", UNIX);
    OneNameTaken("C:", "\\Users\\", "chiron", "\\AppData", WINDOWS);
    assert "" + "/home/" + "<user>" + "/x" == "/home/<user>/x";
    assert "C:" + "\\Users\\" + "<user>" + "\\AppData" == "C:\\Users\\<user>\\AppData";
  }
}
