/** Removing hosts and user names from a report, by scanners that rewrite what they scan. */
module Redaction {
  import opened Options
  import opened Text

  // ---- hosts ----------------------------------------------------------------------

  /** `hay` from `from` on, with every match of `needle`, found left to right, replaced. */
  function Replaced(hay: string, needle: string, tag: string, from: nat): string
    requires needle != "" && from <= |hay|
    decreases |hay| - from
  {
    match Search(hay, needle, from)
    case None => hay[from..]
    case Some(at) => hay[from..at] + tag + Replaced(hay, needle, tag, at + |needle|)
  }

  lemma Joined(out: string, chunk: string, tag: string, rest: string)
    ensures out + (chunk + tag + rest) == out + chunk + tag + rest
  {
  }

  method ReplaceIgnoreCase(hay: string, needle: string, tag: string) returns (out: string)
    requires needle != ""
    ensures out == Replaced(hay, needle, tag, 0)
  {
    hide Search, At, Folded;
    out := "";
    var i := 0;
    var pos := Search(hay, needle, i);
    assert out + Replaced(hay, needle, tag, 0) == Replaced(hay, needle, tag, 0);
    while pos.Some?
      invariant i <= |hay| && pos == Search(hay, needle, i)
      invariant out + Replaced(hay, needle, tag, i) == Replaced(hay, needle, tag, 0)
      decreases |hay| - i
    {
      var at := pos.value;
      Joined(out, hay[i..at], tag, Replaced(hay, needle, tag, at + |needle|));
      out := out + hay[i..at] + tag;
      i := at + |needle|;
      pos := Search(hay, needle, i);
    }
    out := out + hay[i..];
  }

  /** A label in angle brackets, as the report uses: `<relay>`, `<server>`. */
  predicate IsLabel(tag: string) {
    |tag| >= 2 && tag[0] == '<' && tag[|tag| - 1] == '>'
  }

  ghost predicate Occurs(hay: string, needle: string) {
    exists p: nat :: At(hay, needle, p)
  }

  lemma NoBracketMatch(all: string, needle: string, p: nat, k: nat)
    requires At(all, needle, p) && p <= k < p + |needle| && '<' !in needle && '>' !in needle
    ensures all[k] != '<' && all[k] != '>'
  {
    AtChar(all, needle, p, k - p);
    assert needle[k - p] in needle;
  }

  /** A match in `chunk + tag + rest` lies inside one of the three: it cannot hold a bracket. */
  lemma MatchInOnePart(chunk: string, tag: string, rest: string, needle: string, p: nat)
    requires IsLabel(tag) && needle != "" && '<' !in needle && '>' !in needle
    requires At(chunk + tag + rest, needle, p)
    ensures || At(chunk, needle, p)
            || (|chunk| <= p && At(tag, needle, p - |chunk|))
            || (|chunk + tag| <= p && At(rest, needle, p - |chunk + tag|))
  {
    hide Folded;
    var all, n := chunk + tag + rest, |needle|;
    var open, close := |chunk|, |chunk + tag| - 1;
    assert all[open] == '<' && all[close] == '>';
    if p + n <= open {
      assert all[p..p + n] == chunk[p..p + n];
    } else if close < p {
      assert all[p..p + n] == rest[p - close - 1..p - close - 1 + n];
    } else if open < p && p + n <= close {
      assert all[p..p + n] == tag[p - open..p - open + n];
    } else {
      NoBracketMatch(all, needle, p, if p <= open then open else close);
      assert false;
    }
  }

  lemma MatchInTail(hay: string, needle: string, from: nat, p: nat)
    requires from <= |hay|
    ensures At(hay[from..], needle, p) <==> At(hay, needle, from + p)
  {
    if p + |needle| <= |hay| - from {
      assert hay[from..][p..p + |needle|] == hay[from + p..from + p + |needle|];
    }
  }

  lemma NoMatchBefore(hay: string, needle: string, from: nat, p: nat)
    requires needle != "" && from <= |hay| && Search(hay, needle, from).Some?
    ensures !At(hay[from..Search(hay, needle, from).value], needle, p)
  {
    var chunk := hay[from..Search(hay, needle, from).value];
    if p + |needle| <= |chunk| {
      assert chunk[p..p + |needle|] == hay[from + p..from + p + |needle|];
      if At(hay, needle, from + p) {
        SearchFindsFirst(hay, needle, from, from + p);
      }
    }
  }

  /** A match in what was written can only lie inside one of the labels. */
  lemma {:induction false} MatchOnlyInTag(hay: string, needle: string, tag: string, from: nat, p: nat)
    requires IsLabel(tag) && needle != "" && '<' !in needle && '>' !in needle && from <= |hay|
    requires At(Replaced(hay, needle, tag, from), needle, p)
    ensures Occurs(tag, needle) && Search(hay, needle, from).Some?
    decreases |hay| - from
  {
    hide At, Folded, Search, IsLabel;
    match Search(hay, needle, from)
    case None =>
      MatchInTail(hay, needle, from, p);
      SearchFindsFirst(hay, needle, from, from + p);
    case Some(at) =>
      var chunk := hay[from..at];
      NoMatchBefore(hay, needle, from, p);
      MatchInOnePart(chunk, tag, Replaced(hay, needle, tag, at + |needle|), needle, p);
      if |chunk + tag| <= p && At(Replaced(hay, needle, tag, at + |needle|), needle, p - |chunk + tag|) {
        MatchOnlyInTag(hay, needle, tag, at + |needle|, p - |chunk + tag|);
      }
  }

  lemma TagInOutput(before: string, tag: string, rest: string, needle: string, q: nat)
    requires At(tag, needle, q)
    ensures At(before + tag + rest, needle, |before| + q)
  {
    var n := |needle|;
    assert (before + tag + rest)[|before| + q..|before| + q + n] == tag[q..q + n];
  }

  /**
   After the replacement the host is still to be read, in any case of letters, exactly when it
   stood there and the label itself holds it - as `<relay>` does for a host called `relay`.
   */
  lemma HostLeftIff(hay: string, needle: string, tag: string)
    requires IsLabel(tag) && needle != "" && '<' !in needle && '>' !in needle
    ensures Occurs(Replaced(hay, needle, tag, 0), needle) <==> Occurs(hay, needle) && Occurs(tag, needle)
  {
    hide At, Folded, Search;
    var out := Replaced(hay, needle, tag, 0);
    if Occurs(out, needle) {
      var p: nat :| At(out, needle, p);
      MatchOnlyInTag(hay, needle, tag, 0, p);
      SearchFinds(hay, needle, 0);
    }
    if Occurs(hay, needle) && Occurs(tag, needle) {
      var found: nat :| At(hay, needle, found);
      SearchFindsFirst(hay, needle, 0, found);
      var at := Search(hay, needle, 0).value;
      var q: nat :| At(tag, needle, q);
      TagInOutput(hay[0..at], tag, Replaced(hay, needle, tag, at + |needle|), needle, q);
    }
  }

  /** A relay called `relay` is still there to be read. */
  lemma RelayCalledRelayIsLeft()
    ensures Occurs(Replaced("relay", "relay", "<relay>", 0), "relay")
  {
    var tag := "<relay>";
    assert At("relay", "relay", 0);
    assert tag[1..6] == "relay";
    assert At(tag, "relay", 1);
    HostLeftIff("relay", "relay", tag);
  }

  /** A match of anything without brackets in what was written stood in the text before, or stands in the label. */
  lemma {:induction false} NothingElseAppears(hay: string, needle: string, tag: string, from: nat, other: string, p: nat)
    requires IsLabel(tag) && needle != "" && from <= |hay|
    requires other != "" && '<' !in other && '>' !in other
    requires At(Replaced(hay, needle, tag, from), other, p)
    ensures Occurs(tag, other) || Occurs(hay, other)
    decreases |hay| - from
  {
    hide At, Folded, Search, IsLabel;
    match Search(hay, needle, from)
    case None =>
      MatchInTail(hay, other, from, p);
    case Some(at) =>
      var chunk, rest := hay[from..at], Replaced(hay, needle, tag, at + |needle|);
      MatchInOnePart(chunk, tag, rest, other, p);
      if At(chunk, other, p) {
        MatchInHead(hay, from, at, other, p);
      } else if |chunk + tag| <= p && At(rest, other, p - |chunk + tag|) {
        NothingElseAppears(hay, needle, tag, at + |needle|, other, p - |chunk + tag|);
      }
  }

  lemma MatchInHead(hay: string, from: nat, to: nat, needle: string, p: nat)
    requires from <= to <= |hay| && At(hay[from..to], needle, p)
    ensures At(hay, needle, from + p)
  {
    var inPart, inHay := hay[from..to][p..p + |needle|], hay[from + p..from + p + |needle|];
    forall i | 0 <= i < |needle|
      ensures inPart[i] == inHay[i]
    {
    }
    assert inPart == inHay;
  }

  /** A host and the label put in its place. */
  datatype Host = Host(name: string, tag: string)

  function HostsHidden(line: string, hosts: seq<Host>): string {
    if hosts == [] then line
    else
      var l := HostsHidden(line, hosts[..|hosts| - 1]);
      var h := hosts[|hosts| - 1];
      if h.name == "" then l else Replaced(l, h.name, h.tag, 0)
  }

  method HideHosts(line: string, hosts: seq<Host>) returns (l: string)
    ensures l == HostsHidden(line, hosts)
  {
    l := line;
    for i := 0 to |hosts|
      invariant l == HostsHidden(line, hosts[..i])
    {
      assert hosts[..i + 1][..i] == hosts[..i];
      if hosts[i].name != "" {
        l := ReplaceIgnoreCase(l, hosts[i].name, hosts[i].tag);
      }
    }
    assert hosts[..|hosts|] == hosts;
  }

  /** A host on the list is left in no line when no label on the list holds it: no replacement puts back what another took out. */
  lemma {:induction false} HostsGone(line: string, hosts: seq<Host>, h: Host)
    requires h in hosts && h.name != "" && '<' !in h.name && '>' !in h.name
    requires forall k :: k in hosts ==> IsLabel(k.tag) && !Occurs(k.tag, h.name)
    ensures !Occurs(HostsHidden(line, hosts), h.name)
  {
    var before, last := hosts[..|hosts| - 1], hosts[|hosts| - 1];
    var l := HostsHidden(line, before);
    assert hosts == before + [last];
    hide At, IsLabel;
    if h in before {
      HostsGone(line, before, h);
      if last.name != "" && Occurs(Replaced(l, last.name, last.tag, 0), h.name) {
        var p: nat :| At(Replaced(l, last.name, last.tag, 0), h.name, p);
        NothingElseAppears(l, last.name, last.tag, 0, h.name, p);
      }
    } else {
      HostLeftIff(l, h.name, h.tag);
    }
  }

  // ---- user names in paths -----------------------------------------------------------

  const USER := "<user>"

  datatype Marker = Marker(text: string, separator: char)

  const WINDOWS := Marker("\\Users\\", '\\')
  const MAC := Marker("/Users/", '/')
  const UNIX := Marker("/home/", '/')

  predicate EndsName(c: char) {
    IsWhitespace(c) || c == '"' || c == '\''
  }

  function SkipTo(l: string, from: nat, stop: char -> bool): (end: nat)
    requires from <= |l|
    ensures from <= end <= |l| && (end < |l| ==> stop(l[end]))
    ensures forall i :: from <= i < end ==> !stop(l[i])
    decreases |l| - from
  {
    if from == |l| || stop(l[from]) then from else SkipTo(l, from + 1, stop)
  }

  /** Where the name that starts at `after` ends: at a separator, else at a space or a quote, else with the line. */
  function NameEnd(l: string, after: nat, separator: char): (end: nat)
    requires after <= |l|
    ensures after <= end <= |l|
  {
    var e := SkipTo(l, after, c => c == separator);
    if e < |l| then e else SkipTo(l, after, c => EndsName(c))
  }

  function Redacted(l: string, after: nat, end: nat): string
    requires after <= end <= |l|
  {
    l[..after] + USER + l[end..]
  }

  /** The walk of one marker through the line it rewrites. */
  function StripFrom(l: string, m: Marker, from: nat): string
    requires m.text != "" && from <= |l|
    decreases |l| - from
  {
    match Search(l, m.text, from)
    case None => l
    case Some(at) =>
      var after := at + |m.text|;
      var end := NameEnd(l, after, m.separator);
      if end <= after then StripFrom(l, m, after)
      else StripFrom(Redacted(l, after, end), m, after + |USER|)
  }

  function StripUserPaths(line: string): string {
    StripFrom(StripFrom(StripFrom(line, WINDOWS, 0), MAC, 0), UNIX, 0)
  }

  method Strip(line: string, m: Marker) returns (l: string)
    requires m.text != ""
    ensures l == StripFrom(line, m, 0)
  {
    hide Search, At, Folded, NameEnd;
    l := line;
    var from: nat := 0;
    var rel := Search(l, m.text, from);
    while rel.Some?
      invariant from <= |l| && rel == Search(l, m.text, from)
      invariant StripFrom(l, m, from) == StripFrom(line, m, 0)
      decreases |l| - from
    {
      var after := rel.value + |m.text|;
      var end := NameEnd(l, after, m.separator);
      if end <= after {
        from := after;
        rel := Search(l, m.text, from);
        continue;
      }
      l := Redacted(l, after, end);
      from := after + |USER|;
      rel := Search(l, m.text, from);
      if from >= |l| {
        SearchAtEnd(l, m.text, from);
        break;
      }
    }
  }

  method StripPaths(line: string) returns (l: string)
    ensures l == StripUserPaths(line)
  {
    l := line;
    var markers := [WINDOWS, MAC, UNIX];
    for i := 0 to |markers|
      invariant l == if i == 0 then line
                     else if i == 1 then StripFrom(line, WINDOWS, 0)
                     else if i == 2 then StripFrom(StripFrom(line, WINDOWS, 0), MAC, 0)
                     else StripUserPaths(line)
    {
      l := Strip(l, markers[i]);
    }
  }

  // ---- no name is left -----------------------------------------------------------------

  /** A separator at either end and letters between: what the walk relies on. */
  predicate IsMarker(m: Marker) {
    && |m.text| >= 6
    && (m.separator == '/' || m.separator == '\\')
    && m.text[0] == m.separator && m.text[|m.text| - 1] == m.separator
    && forall i :: 0 < i < |m.text| - 1 ==> 'a' <= Lower(m.text[i]) <= 'z'
  }

  predicate UserAt(l: string, i: nat) {
    i + |USER| <= |l| && l[i..i + |USER|] == USER
  }

  /** What stands at `after` is no name: `<user>`, or nothing. */
  predicate NamelessAt(l: string, after: nat, separator: char)
    requires after <= |l|
  {
    UserAt(l, after) || NameEnd(l, after, separator) == after
  }

  predicate Nameless(l: string, m: Marker, p: nat) {
    p + |m.text| <= |l| && NamelessAt(l, p + |m.text|, m.separator)
  }

  /** Every occurrence that starts before `from` has no name behind it. */
  ghost predicate Passed(l: string, m: Marker, from: nat) {
    forall p: nat :: p < from ==> At(l, m.text, p) ==> Nameless(l, m, p)
  }

  ghost predicate Clean(l: string, m: Marker) {
    forall p: nat :: At(l, m.text, p) ==> Nameless(l, m, p)
  }

  /** An occurrence never starts inside another one, except on its last separator. */
  lemma NoOverlap(l: string, m: Marker, at: nat, p: nat)
    requires IsMarker(m) && At(l, m.text, at) && at < p < at + |m.text| - 1
    ensures !At(l, m.text, p)
  {
    hide Folded;
    if At(l, m.text, p) {
      AtChar(l, m.text, p, 0);
      AtChar(l, m.text, at, p - at);
      assert false;
    }
  }

  /** No marker reaches into a `<user>` put in its way. */
  lemma NotAcrossUser(l: string, after: nat, end: nat, other: Marker, p: nat)
    requires IsMarker(other) && after < end <= |l| && At(Redacted(l, after, end), other.text, p)
    ensures p + |other.text| <= after || p >= after + |USER|
  {
    var r := Redacted(l, after, end);
    assert r[after] == '<' && r[after + 5] == '>';
    hide Folded, Redacted;
    var bracket := if p <= after then after else after + 5;
    if p <= bracket < p + |other.text| {
      AtChar(r, other.text, p, bracket - p);
    }
  }

  lemma AtBeforeName(l: string, after: nat, end: nat, needle: string, p: nat)
    requires after <= end <= |l| && p + |needle| <= after
    ensures At(Redacted(l, after, end), needle, p) <==> At(l, needle, p)
  {
    assert Redacted(l, after, end)[p..p + |needle|] == l[p..p + |needle|];
  }

  lemma RedactedTail(l: string, after: nat, end: nat, p: nat, q: nat, n: nat)
    requires after <= end <= |l| && after + |USER| <= p && q == p - (after + |USER|) + end && q + n <= |l|
    ensures p + n <= |Redacted(l, after, end)|
    ensures Redacted(l, after, end)[p..p + n] == l[q..q + n]
    ensures Redacted(l, after, end)[p + n..] == l[q + n..]
  {
  }

  lemma AtBehindName(l: string, after: nat, end: nat, needle: string, p: nat, q: nat)
    requires after <= end <= |l| && after + |USER| <= p && q == p - (after + |USER|) + end
    ensures At(Redacted(l, after, end), needle, p) <==> At(l, needle, q)
  {
    if q + |needle| <= |l| {
      RedactedTail(l, after, end, p, q, |needle|);
      hide Redacted;
      hide Folded;
    }
  }

  lemma NamelessBehindName(l: string, after: nat, end: nat, m: Marker, p: nat, q: nat)
    requires after <= end <= |l| && after + |USER| <= p && q == p - (after + |USER|) + end
    requires Nameless(l, m, q)
    ensures Nameless(Redacted(l, after, end), m, p)
  {
    hide NamelessAt;
    RedactedTail(l, after, end, p, q, |m.text|);
    SameTailSameEnd(Redacted(l, after, end), p + |m.text|, l, q + |m.text|, m.separator);
  }

  lemma NamelessAhead(l: string, m: Marker, after: nat, end: nat, other: Marker, p: nat)
    requires IsMarker(m) && IsMarker(other) && 0 < after < end <= |l| && l[after - 1] == m.separator
    requires p + |other.text| <= after && At(Redacted(l, after, end), other.text, p)
    requires At(l, other.text, p) ==> Nameless(l, other, p)
    ensures Nameless(Redacted(l, after, end), other, p)
  {
    hide NamelessAt, IsMarker, At;
    AtBeforeName(l, after, end, other.text, p);
    BeforeTheName(l, m, after, end, other, p + |other.text|);
  }

  /** A name taken out leaves every occurrence of any marker as nameless as it was. */
  lemma RedactedKeepsNameless(l: string, m: Marker, after: nat, end: nat, other: Marker, p: nat)
    requires IsMarker(m) && IsMarker(other) && 0 < after < end <= |l| && l[after - 1] == m.separator
    requires At(Redacted(l, after, end), other.text, p)
    requires At(l, other.text, p) ==> Nameless(l, other, p)
    requires p >= after + |USER| ==>
               At(l, other.text, p - (after + |USER|) + end) ==> Nameless(l, other, p - (after + |USER|) + end)
    ensures Nameless(Redacted(l, after, end), other, p)
  {
    hide *;
    var n := |other.text|;
    NotAcrossUser(l, after, end, other, p);
    if p + n <= after {
      NamelessAhead(l, m, after, end, other, p);
    } else {
      var q := p - (after + |USER|) + end;
      AtBehindName(l, after, end, other.text, p, q);
      NamelessBehindName(l, after, end, other, p, q);
    }
  }

  lemma SameTailSameEnd(a: string, i: nat, b: string, j: nat, separator: char)
    requires i <= |a| && j <= |b| && a[i..] == b[j..]
    ensures NamelessAt(a, i, separator) <==> NamelessAt(b, j, separator)
  {
    var s := a[i..];
    EmptyNameInTail(a, i, separator);
    EmptyNameInTail(b, j, separator);
    hide NameEnd;
    if |s| >= |USER| {
      assert a[i..i + |USER|] == s[..|USER|] && b[j..j + |USER|] == s[..|USER|];
    }
  }

  lemma EmptyNameInTail(l: string, i: nat, separator: char)
    requires i <= |l|
    ensures NameEnd(l, i, separator) == i <==>
            var s := l[i..];
            || (s != [] && s[0] == separator)
            || (separator !in s && (s == [] || EndsName(s[0])))
  {
    EmptyNameIff(l, i, separator);
    hide NameEnd;
    assert forall k :: i <= k < |l| ==> l[k] == l[i..][k - i];
    assert separator !in l[i..] <==> forall k :: 0 <= k < |l[i..]| ==> l[i..][k] != separator;
    if forall k :: i <= k < |l| ==> l[k] != separator {
      assert separator !in l[i..];
    }
    if separator !in l[i..] {
      forall k | i <= k < |l|
        ensures l[k] != separator
      {
        assert l[i..][k - i] in l[i..];
      }
    }
  }

  /** A name is empty at a separator, or when none follows at all and a space, a quote or the end stands there. */
  lemma EmptyNameIff(l: string, after: nat, separator: char)
    requires after <= |l|
    ensures NameEnd(l, after, separator) == after <==>
            || (after < |l| && l[after] == separator)
            || ((forall k :: after <= k < |l| ==> l[k] != separator) && (after == |l| || EndsName(l[after])))
  {
  }

  lemma SeparatorBehindUser(l: string, i: nat, k: nat)
    requires UserAt(l, i) && i <= k < |l| && (l[k] == '/' || l[k] == '\\')
    ensures i + |USER| <= k
  {
    if k < i + |USER| {
      UserChar(l, i, k);
    }
  }

  lemma UserChar(l: string, i: nat, k: nat)
    requires UserAt(l, i) && i <= k < i + |USER|
    ensures l[k] == USER[k - i]
  {
    assert l[i..i + |USER|][k - i] == l[k];
  }

  /** What stands in the line after a name was taken out: the head, `<user>`, the rest. */
  lemma RedactedChar(l: string, after: nat, end: nat, k: nat)
    requires after <= end <= |l| && k < |Redacted(l, after, end)|
    ensures Redacted(l, after, end)[k] ==
            if k < after then l[k] else if k < after + |USER| then USER[k - after] else l[k - (after + |USER|) + end]
  {
  }

  lemma EmptyBeforeTheName(l: string, after: nat, end: nat, i: nat, separator: char)
    requires i < after < end <= |l| && NameEnd(l, i, separator) == i && (separator == '/' || separator == '\\')
    ensures NameEnd(Redacted(l, after, end), i, separator) == i
  {
    var r := Redacted(l, after, end);
    EmptyNameIff(l, i, separator);
    EmptyNameIff(r, i, separator);
    hide NameEnd, EndsName, Redacted;
    RedactedChar(l, after, end, i);
    if l[i] != separator {
      forall k | i <= k < |r|
        ensures r[k] != separator
      {
        RedactedChar(l, after, end, k);
      }
    }
  }

  lemma BeforeTheName(l: string, m: Marker, after: nat, end: nat, other: Marker, i: nat)
    requires IsMarker(m) && IsMarker(other) && 0 < after < end <= |l| && l[after - 1] == m.separator && i <= after
    requires NamelessAt(l, i, other.separator)
    ensures NamelessAt(Redacted(l, after, end), i, other.separator)
  {
    var r := Redacted(l, after, end);
    hide NameEnd;
    if i == after {
      assert r[i..i + |USER|] == USER;
    } else if UserAt(l, i) {
      SeparatorBehindUser(l, i, after - 1);
      assert r[i..i + |USER|] == l[i..i + |USER|];
    } else {
      hide Redacted;
      EmptyBeforeTheName(l, after, end, i, other.separator);
    }
  }

  // ---- what one walk leaves ---------------------------------------------------------------

  lemma NothingBetween(l: string, m: Marker, from: nat, p: nat)
    requires IsMarker(m) && from <= p && Search(l, m.text, from).Some? && p < Search(l, m.text, from).value
    ensures !At(l, m.text, p)
  {
    if At(l, m.text, p) {
      SearchFindsFirst(l, m.text, from, p);
    }
  }

  /** Right behind an occurrence whose name is empty no other one starts on its last separator. */
  lemma NoneOnLastSeparator(l: string, m: Marker, after: nat)
    requires IsMarker(m) && 0 < after <= |l| && NamelessAt(l, after, m.separator)
    ensures !At(l, m.text, after - 1)
  {
    if At(l, m.text, after - 1) {
      AtChar(l, m.text, after - 1, 1);
      AtChar(l, m.text, after - 1, |m.text| - 1);
      EmptyNameIff(l, after, m.separator);
      if UserAt(l, after) {
        UserChar(l, after, after);
      }
      assert false;
    }
  }

  /** One step of the walk over an empty name. */
  lemma StepOver(l: string, m: Marker, from: nat)
    requires IsMarker(m) && from <= |l| && Passed(l, m, from) && Search(l, m.text, from).Some?
    requires var after := Search(l, m.text, from).value + |m.text|; NameEnd(l, after, m.separator) <= after
    ensures Passed(l, m, Search(l, m.text, from).value + |m.text|)
  {
    hide Search, At, IsMarker, NameEnd;
    var at := Search(l, m.text, from).value;
    SearchFinds(l, m.text, from);
    var after := at + |m.text|;
    assert NamelessAt(l, after, m.separator);
    hide NamelessAt;
    forall p: nat | p < after && At(l, m.text, p)
      ensures Nameless(l, m, p)
    {
      Where(l, m, from, at, p);
    }
  }

  lemma Where(l: string, m: Marker, from: nat, at: nat, p: nat)
    requires IsMarker(m) && Search(l, m.text, from) == Some(at) && At(l, m.text, at)
    requires At(l, m.text, p) && p < at + |m.text| && NamelessAt(l, at + |m.text|, m.separator)
    ensures p < from || p == at
  {
    hide At, NamelessAt, Search, IsMarker;
    if from <= p < at {
      NothingBetween(l, m, from, p);
    } else if at < p < at + |m.text| - 1 {
      NoOverlap(l, m, at, p);
    } else if p == at + |m.text| - 1 {
      NoneOnLastSeparator(l, m, at + |m.text|);
    }
  }

  /** One step of the walk that takes a name out. */
  lemma StepRedacts(l: string, m: Marker, from: nat, at: nat, end: nat)
    requires IsMarker(m) && from <= |l| && Passed(l, m, from) && Search(l, m.text, from) == Some(at)
    requires At(l, m.text, at) && at + |m.text| < end <= |l|
    ensures Passed(Redacted(l, at + |m.text|, end), m, at + |m.text| + |USER|)
  {
    hide At, Redacted, IsMarker, Search, Nameless;
    var after := at + |m.text|;
    var r := Redacted(l, after, end);
    forall p: nat | p < after + |USER| && At(r, m.text, p)
      ensures Nameless(r, m, p)
    {
      StepRedactsOne(l, m, from, at, end, p);
    }
  }

  lemma StepRedactsOne(l: string, m: Marker, from: nat, at: nat, end: nat, p: nat)
    requires IsMarker(m) && from <= |l| && Passed(l, m, from) && Search(l, m.text, from) == Some(at)
    requires At(l, m.text, at) && at + |m.text| < end <= |l| && p < at + |m.text| + |USER|
    requires At(Redacted(l, at + |m.text|, end), m.text, p)
    ensures Nameless(Redacted(l, at + |m.text|, end), m, p)
  {
    hide At, Redacted, NamelessAt, Search, IsMarker;
    var after := at + |m.text|;
    LastSeparator(l, m, at);
    NotAcrossUser(l, after, end, m, p);
    UserPutIn(l, after, end, m.separator);
    AtBeforeName(l, after, end, m.text, p);
    if p < at {
      if from <= p {
        NothingBetween(l, m, from, p);
      }
      BeforeTheName(l, m, after, end, m, p + |m.text|);
    }
  }

  lemma UserPutIn(l: string, after: nat, end: nat, separator: char)
    requires after <= end <= |l|
    ensures after + |USER| <= |Redacted(l, after, end)| && NamelessAt(Redacted(l, after, end), after, separator)
  {
    assert Redacted(l, after, end)[after..after + |USER|] == USER;
    hide NameEnd;
  }

  lemma LastSeparator(l: string, m: Marker, at: nat)
    requires IsMarker(m) && At(l, m.text, at)
    ensures l[at + |m.text| - 1] == m.separator
  {
    AtChar(l, m.text, at, |m.text| - 1);
  }

  /** A walk over the rest of a line leaves no name behind its marker. */
  lemma {:induction false} WalkCleans(l: string, m: Marker, from: nat)
    requires IsMarker(m) && from <= |l| && Passed(l, m, from)
    ensures Clean(StripFrom(l, m, from), m)
    decreases |l| - from
  {
    hide At, Redacted, Nameless, IsMarker;
    match Search(l, m.text, from)
    case None =>
      forall p: nat | At(l, m.text, p)
        ensures Nameless(l, m, p)
      {
        if from <= p {
          SearchFindsFirst(l, m.text, from, p);
        }
      }
    case Some(at) =>
      SearchFinds(l, m.text, from);
      var after := at + |m.text|;
      var end := NameEnd(l, after, m.separator);
      WalkMoves(l, m, from);
      if end <= after {
        StepOver(l, m, from);
        WalkCleans(l, m, after);
      } else {
        StepRedacts(l, m, from, at, end);
        WalkCleans(Redacted(l, after, end), m, after + |USER|);
      }
  }

  /** Each step leaves less of the line in front of the walk, though the line itself may grow. */
  lemma WalkMoves(l: string, m: Marker, from: nat)
    requires IsMarker(m) && from <= |l| && Search(l, m.text, from).Some?
    ensures var after := Search(l, m.text, from).value + |m.text|;
            var end := NameEnd(l, after, m.separator);
            && |l| - after < |l| - from
            && after + |USER| <= |Redacted(l, after, end)|
            && |Redacted(l, after, end)| - (after + |USER|) < |l| - from
  {
  }

  /** And leaves every other marker as clean as it found it. */
  lemma {:induction false} WalkKeepsClean(l: string, m: Marker, from: nat, other: Marker)
    requires IsMarker(m) && IsMarker(other) && from <= |l| && Clean(l, other)
    ensures Clean(StripFrom(l, m, from), other)
    decreases |l| - from
  {
    hide At, Redacted, Nameless, IsMarker;
    match Search(l, m.text, from)
    case None =>
    case Some(at) =>
      SearchFinds(l, m.text, from);
      var after := at + |m.text|;
      var end := NameEnd(l, after, m.separator);
      WalkMoves(l, m, from);
      if end <= after {
        WalkKeepsClean(l, m, after, other);
      } else {
        LastSeparator(l, m, at);
        forall p: nat | At(Redacted(l, after, end), other.text, p)
          ensures Nameless(Redacted(l, after, end), other, p)
        {
          RedactedKeepsNameless(l, m, after, end, other, p);
        }
        WalkKeepsClean(Redacted(l, after, end), m, after + |USER|, other);
      }
  }

  /** After all three walks, wherever any of the three markers stands, in any case of letters, no name follows it. */
  lemma NoNameLeft(line: string)
    ensures Clean(StripUserPaths(line), WINDOWS)
    ensures Clean(StripUserPaths(line), MAC)
    ensures Clean(StripUserPaths(line), UNIX)
  {
    assert IsMarker(WINDOWS) && IsMarker(MAC) && IsMarker(UNIX);
    hide StripFrom, IsMarker, Clean;
    var one := StripFrom(line, WINDOWS, 0);
    var two := StripFrom(one, MAC, 0);
    WalkCleans(line, WINDOWS, 0);
    WalkCleans(one, MAC, 0);
    WalkCleans(two, UNIX, 0);
    WalkKeepsClean(one, MAC, 0, WINDOWS);
    WalkKeepsClean(two, UNIX, 0, WINDOWS);
    WalkKeepsClean(two, UNIX, 0, MAC);
  }

  /** Taking user names out brings no host back, unless `<user>` itself holds it. */
  lemma {:induction false} WalkKeepsHidden(l: string, m: Marker, from: nat, host: string)
    requires IsMarker(m) && from <= |l| && host != "" && '<' !in host && '>' !in host
    requires !Occurs(USER, host) && !Occurs(l, host)
    ensures !Occurs(StripFrom(l, m, from), host)
    decreases |l| - from
  {
    hide At, Redacted, IsMarker, NameEnd;
    match Search(l, m.text, from)
    case None =>
    case Some(at) =>
      var after := at + |m.text|;
      var end := NameEnd(l, after, m.separator);
      WalkMoves(l, m, from);
      if end <= after {
        WalkKeepsHidden(l, m, after, host);
      } else {
        RedactedKeepsHidden(l, after, end, host);
        WalkKeepsHidden(Redacted(l, after, end), m, after + |USER|, host);
      }
  }

  lemma RedactedKeepsHidden(l: string, after: nat, end: nat, host: string)
    requires after <= end <= |l| && host != "" && '<' !in host && '>' !in host
    requires !Occurs(USER, host) && !Occurs(l, host)
    ensures !Occurs(Redacted(l, after, end), host)
  {
    assert IsLabel(USER);
    hide At, IsLabel;
    if Occurs(Redacted(l, after, end), host) {
      var p: nat :| At(Redacted(l, after, end), host, p);
      MatchInOnePart(l[..after], USER, l[end..], host, p);
      if At(l[..after], host, p) {
        MatchInHead(l, 0, after, host, p);
      } else if after + |USER| <= p && At(l[end..], host, p - (after + |USER|)) {
        MatchInTail(l, host, end, p - (after + |USER|));
      }
    }
  }

  lemma PathsKeepHostsHidden(line: string, host: string)
    requires host != "" && '<' !in host && '>' !in host && !Occurs(USER, host) && !Occurs(line, host)
    ensures !Occurs(StripUserPaths(line), host)
  {
    assert IsMarker(WINDOWS) && IsMarker(MAC) && IsMarker(UNIX);
    hide StripFrom, IsMarker, Occurs;
    var one := StripFrom(line, WINDOWS, 0);
    WalkKeepsHidden(line, WINDOWS, 0, host);
    WalkKeepsHidden(one, MAC, 0, host);
    WalkKeepsHidden(StripFrom(one, MAC, 0), UNIX, 0, host);
  }
}
