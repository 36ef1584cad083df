/** What grouping a config file promises: nothing lost, nothing reordered, and when it settles. */
module ConfLayoutResults {
  import opened Options
  import opened Text
  import opened ConfLayout

  // ---- the longest prefix decides ---------------------------------------------------

  predicate Matches(key: string, sections: seq<Section>, s: nat, p: nat) {
    s < |sections| && p < |sections[s].prefixes| && sections[s].prefixes[p] <= key
  }

  /** A longest match over the first `n` prefixes of the last section and all before; the first section on ties. */
  ghost predicate IsBest(best: Option<Match>, key: string, sections: seq<Section>) {
    match best
    case None => forall s: nat, p: nat :: !Matches(key, sections, s, p)
    case Some(m) =>
      && (exists p: nat :: Matches(key, sections, m.section, p) && |sections[m.section].prefixes[p]| == m.length)
      && (forall s: nat, p: nat :: Matches(key, sections, s, p) ==>
            |sections[s].prefixes[p]| < m.length || (|sections[s].prefixes[p]| == m.length && m.section <= s))
  }

  lemma BetterIsBest(before: Option<Match>, key: string, sections: seq<Section>, heading: string,
                     prefixes: seq<string>, prefix: string)
    requires IsBest(before, key, sections + [Section(heading, prefixes)])
    ensures IsBest(Better(before, key, prefix, |sections|), key, sections + [Section(heading, prefixes + [prefix])])
  {
    var shorter, longer := sections + [Section(heading, prefixes)], sections + [Section(heading, prefixes + [prefix])];
    var n := |prefixes|;
    forall s: nat, p: nat
      ensures Matches(key, longer, s, p) <==> Matches(key, shorter, s, p) || (s == |sections| && p == n && prefix <= key)
      ensures Matches(key, shorter, s, p) ==> longer[s].prefixes[p] == shorter[s].prefixes[p]
    {
    }
    var best := Better(before, key, prefix, |sections|);
    if best != before {
      assert Matches(key, longer, |sections|, n) && |longer[|sections|].prefixes[n]| == |prefix|;
    } else if best.Some? {
      var p: nat :| Matches(key, shorter, best.value.section, p)
                    && |shorter[best.value.section].prefixes[p]| == best.value.length;
      assert Matches(key, longer, best.value.section, p);
    }
  }

  lemma {:induction false} BestInIsBest(key: string, sections: seq<Section>, heading: string, prefixes: seq<string>)
    requires IsBest(Best(key, sections), key, sections)
    ensures IsBest(BestIn(Best(key, sections), key, prefixes, |sections|), key, sections + [Section(heading, prefixes)])
  {
    if prefixes == [] {
      var longer := sections + [Section(heading, [])];
      assert forall s: nat, p: nat :: Matches(key, longer, s, p) <==> Matches(key, sections, s, p);
    } else {
      var n := |prefixes| - 1;
      BestInIsBest(key, sections, heading, prefixes[..n]);
      BetterIsBest(BestIn(Best(key, sections), key, prefixes[..n], |sections|), key, sections, heading,
                   prefixes[..n], prefixes[n]);
      assert prefixes[..n] + [prefixes[n]] == prefixes;
    }
  }

  lemma {:induction false} BestIsBest(key: string, sections: seq<Section>)
    ensures IsBest(Best(key, sections), key, sections)
  {
    if sections != [] {
      var n := |sections| - 1;
      BestIsBest(key, sections[..n]);
      BestInIsBest(key, sections[..n], sections[n].heading, sections[n].prefixes);
      assert sections[..n] + [Section(sections[n].heading, sections[n].prefixes)] == sections;
    }
  }

  /** A key goes to the section with its longest matching prefix, the first one on ties; to none if none matches. */
  lemma LongestPrefixDecides(key: string, sections: seq<Section>)
    ensures match SectionFor(key, sections)
            case None => forall s: nat, p: nat :: !Matches(key, sections, s, p)
            case Some(section) =>
              exists p: nat :: Matches(key, sections, section, p) &&
                forall s: nat, q: nat :: Matches(key, sections, s, q) ==>
                  || |sections[s].prefixes[q]| < |sections[section].prefixes[p]|
                  || (|sections[s].prefixes[q]| == |sections[section].prefixes[p]| && section <= s)
  {
    BestIsBest(key, sections);
  }

  // ---- nothing lost -----------------------------------------------------------------

  /** The kept lines section by section, the leftovers last. */
  function InOrder(lines: seq<string>, sections: seq<Section>, n: nat): seq<string>
    requires n <= |sections|
  {
    if n == 0 then [] else InOrder(lines, sections, n - 1) + Bucket(lines, sections, Some(n - 1))
  }

  function Regrouped(lines: seq<string>, sections: seq<Section>): seq<string> {
    InOrder(lines, sections, |sections|) + Bucket(lines, sections, None)
  }

  predicate AllKept(lines: seq<string>) {
    forall l :: l in lines ==> IsKept(l)
  }

  lemma {:induction false} KeptOfConcat(a: seq<string>, b: seq<string>)
    ensures Kept(a + b) == Kept(a) + Kept(b)
  {
    if b == [] {
      assert a + b == a;
    } else {
      KeptOfConcat(a, b[..|b| - 1]);
      assert (a + b)[..|a + b| - 1] == a + b[..|b| - 1];
    }
  }

  lemma {:induction false} KeptOfKept(lines: seq<string>)
    requires AllKept(lines)
    ensures Kept(lines) == lines
  {
    if lines != [] {
      KeptOfKept(lines[..|lines| - 1]);
      assert lines[|lines| - 1] in lines;
    }
  }

  lemma {:induction false} KeptAreKept(lines: seq<string>)
    ensures AllKept(Kept(lines))
  {
    if lines != [] {
      KeptAreKept(lines[..|lines| - 1]);
    }
  }

  lemma {:induction false} BucketAll(lines: seq<string>, sections: seq<Section>, which: Option<nat>)
    ensures forall l :: l in Bucket(lines, sections, which) ==> l in lines && SectionOfLine(l, sections) == which
  {
    hide SectionOfLine, IsKept;
    if lines != [] {
      BucketAll(lines[..|lines| - 1], sections, which);
    }
  }

  lemma HeadingIsDropped(heading: string)
    ensures !IsKept(HeadingLine(heading)) && !IsKept("")
  {
    assert HeadingLine(heading)[0..1] == "#";
  }

  lemma UnderKeeps(above: seq<string>, heading: string, lines: seq<string>)
    requires AllKept(lines)
    ensures Kept(Under(above, heading, lines)) == Kept(above) + lines
  {
    KeptOfKept(lines);
    HeadingIsDropped(heading);
    if lines == [] {
      assert Kept(above) + lines == Kept(above);
    } else {
      var top := (if above == [] then [] else above + [""]);
      KeptOfConcat(above, [""]);
      KeptOfConcat(top, [HeadingLine(heading)]);
      KeptOfConcat(top + [HeadingLine(heading)], lines);
      assert Kept([""]) == [] && Kept([HeadingLine(heading)]) == [];
      assert Kept(top) == Kept(above);
    }
  }

  lemma {:induction false} BlocksKeep(lines: seq<string>, sections: seq<Section>, n: nat)
    requires n <= |sections| && AllKept(lines)
    ensures Kept(Blocks(lines, sections, n)) == InOrder(lines, sections, n)
  {
    if n > 0 {
      BlocksKeep(lines, sections, n - 1);
      BucketAll(lines, sections, Some(n - 1));
      UnderKeeps(Blocks(lines, sections, n - 1), sections[n - 1].heading, Bucket(lines, sections, Some(n - 1)));
    }
  }

  /** Read back, the layout gives the kept lines section by section. */
  lemma LayoutKeeps(lines: seq<string>, sections: seq<Section>, trailing: string)
    requires AllKept(lines)
    ensures Kept(Layout(lines, sections, trailing)) == Regrouped(lines, sections)
  {
    BlocksKeep(lines, sections, |sections|);
    BucketAll(lines, sections, None);
    UnderKeeps(Blocks(lines, sections, |sections|), trailing, Bucket(lines, sections, None));
  }

  lemma {:induction false} BucketCount(lines: seq<string>, sections: seq<Section>, which: Option<nat>, l: string)
    ensures multiset(Bucket(lines, sections, which))[l] ==
            if SectionOfLine(l, sections) == which then multiset(lines)[l] else 0
  {
    hide SectionOfLine;
    if lines != [] {
      var rest, last := lines[..|lines| - 1], lines[|lines| - 1];
      BucketCount(rest, sections, which, l);
      assert lines == rest + [last];
    }
  }

  lemma {:induction false} InOrderCount(lines: seq<string>, sections: seq<Section>, n: nat, l: string)
    requires n <= |sections|
    ensures var which := SectionOfLine(l, sections);
            multiset(InOrder(lines, sections, n))[l] == if which.Some? && which.value < n then multiset(lines)[l] else 0
  {
    hide SectionOfLine, Bucket;
    if n > 0 {
      InOrderCount(lines, sections, n - 1, l);
      BucketCount(lines, sections, Some(n - 1), l);
    }
  }

  /** Every kept line comes out exactly once. */
  lemma NothingLost(lines: seq<string>, sections: seq<Section>)
    ensures multiset(Regrouped(lines, sections)) == multiset(lines)
  {
    forall l: string
      ensures multiset(Regrouped(lines, sections))[l] == multiset(lines)[l]
    {
      InOrderCount(lines, sections, |sections|, l);
      BucketCount(lines, sections, None, l);
      SectionInTable(l, sections);
      hide SectionOfLine, Bucket, InOrder;
    }
  }

  lemma SectionInTable(line: string, sections: seq<Section>)
    ensures SectionOfLine(line, sections).Some? ==> SectionOfLine(line, sections).value < |sections|
  {
    var i := Find(line, '=');
    if i < |line| {
      LongestPrefixDecides(Trim(line[..i]), sections);
    }
  }

  // ---- it settles ---------------------------------------------------------------------

  lemma {:induction false} BucketOfConcat(a: seq<string>, b: seq<string>, sections: seq<Section>, which: Option<nat>)
    ensures Bucket(a + b, sections, which) == Bucket(a, sections, which) + Bucket(b, sections, which)
  {
    hide SectionOfLine, IsKept;
    if b == [] {
      assert a + b == a;
    } else {
      BucketOfConcat(a, b[..|b| - 1], sections, which);
      assert (a + b)[..|a + b| - 1] == a + b[..|b| - 1];
    }
  }

  lemma {:induction false} BucketOfOne(lines: seq<string>, sections: seq<Section>, one: Option<nat>, which: Option<nat>)
    requires forall l :: l in lines ==> SectionOfLine(l, sections) == one
    ensures Bucket(lines, sections, which) == if one == which then lines else []
  {
    hide SectionOfLine, IsKept;
    if lines != [] {
      BucketOfOne(lines[..|lines| - 1], sections, one, which);
      assert lines[|lines| - 1] in lines;
    }
  }

  lemma {:induction false} BucketOfInOrder(lines: seq<string>, sections: seq<Section>, n: nat, which: Option<nat>)
    requires n <= |sections|
    ensures Bucket(InOrder(lines, sections, n), sections, which) ==
            if which.Some? && which.value < n then Bucket(lines, sections, which) else []
  {
    hide SectionOfLine, IsKept;
    if n > 0 {
      BucketOfInOrder(lines, sections, n - 1, which);
      BucketAll(lines, sections, Some(n - 1));
      BucketOfOne(Bucket(lines, sections, Some(n - 1)), sections, Some(n - 1), which);
      BucketOfConcat(InOrder(lines, sections, n - 1), Bucket(lines, sections, Some(n - 1)), sections, which);
    }
  }

  /** Within each section, and among the leftovers, the order is the one the lines came in. */
  lemma OrderUntouched(lines: seq<string>, sections: seq<Section>, which: Option<nat>)
    requires which.Some? ==> which.value < |sections|
    ensures Bucket(Regrouped(lines, sections), sections, which) == Bucket(lines, sections, which)
  {
    hide SectionOfLine, IsKept;
    BucketOfInOrder(lines, sections, |sections|, which);
    BucketAll(lines, sections, None);
    BucketOfOne(Bucket(lines, sections, None), sections, None, which);
    BucketOfConcat(InOrder(lines, sections, |sections|), Bucket(lines, sections, None), sections, which);
    hide InOrder, Bucket;
    var sorted := Bucket(InOrder(lines, sections, |sections|), sections, which);
    var rest := Bucket(Bucket(lines, sections, None), sections, which);
    if which.None? {
      assert sorted == [] && rest == Bucket(lines, sections, None);
    } else {
      assert sorted == Bucket(lines, sections, which) && rest == [];
    }
  }

  lemma {:induction false} SameBucketsSameBlocks(a: seq<string>, b: seq<string>, sections: seq<Section>, n: nat)
    requires n <= |sections|
    requires forall which: Option<nat> :: (which.Some? ==> which.value < |sections|) ==>
               Bucket(a, sections, which) == Bucket(b, sections, which)
    ensures Blocks(a, sections, n) == Blocks(b, sections, n)
  {
    hide SectionOfLine, IsKept;
    if n > 0 {
      SameBucketsSameBlocks(a, b, sections, n - 1);
      assert Bucket(a, sections, Some(n - 1)) == Bucket(b, sections, Some(n - 1));
    }
  }

  /** As lines, laying out a layout changes nothing. */
  lemma LayoutSettles(lines: seq<string>, sections: seq<Section>, trailing: string)
    requires AllKept(lines)
    ensures Layout(Kept(Layout(lines, sections, trailing)), sections, trailing) == Layout(lines, sections, trailing)
  {
    hide SectionOfLine, IsKept;
    LayoutKeeps(lines, sections, trailing);
    forall which: Option<nat> | which.Some? ==> which.value < |sections| {
      OrderUntouched(lines, sections, which);
    }
    SameBucketsSameBlocks(Regrouped(lines, sections), lines, sections, |sections|);
    OrderUntouched(lines, sections, None);
  }

  // ---- as text -------------------------------------------------------------------------

  predicate EndsWithCr(line: string) {
    line != [] && line[|line| - 1] == '\r'
  }

  predicate NoLf(lines: seq<string>) {
    forall l :: l in lines ==> '\n' !in l
  }

  function Stripped(lines: seq<string>): (after: seq<string>)
    ensures |after| == |lines|
    ensures forall i :: 0 <= i < |lines| ==> after[i] == WithoutCr(lines[i])
  {
    seq(|lines|, i requires 0 <= i < |lines| => WithoutCr(lines[i]))
  }

  lemma {:induction false} UnlinesFront(line: string, rest: seq<string>)
    ensures Unlines([line] + rest) == line + "\n" + Unlines(rest)
  {
    if rest == [] {
      assert [line] + rest == [line];
      assert Unlines([line]) == Unlines([]) + line + "\n";
    } else {
      var n := |rest| - 1;
      UnlinesFront(line, rest[..n]);
      assert ([line] + rest)[..n + 1] == [line] + rest[..n];
    }
  }

  lemma {:induction false} FindIs(s: string, c: char, i: nat)
    requires i <= |s| && c !in s[..i] && (i < |s| ==> s[i] == c)
    ensures Find(s, c) == i
  {
    if i > 0 {
      assert s[0] in s[..i] && s[1..][..i - 1] == s[..i][1..];
      FindIs(s[1..], c, i - 1);
    }
  }

  lemma FirstLine(line: string, rest: string)
    requires '\n' !in line
    ensures Lines(line + "\n" + rest) == [WithoutCr(line)] + Lines(rest)
  {
    var text := line + "\n" + rest;
    assert text[..|line|] == line && text[|line| + 1..] == rest;
    FindIs(text, '\n', |line|);
    hide WithoutCr, Find;
  }

  lemma StrippedFront(line: string, rest: seq<string>)
    ensures Stripped([line] + rest) == [WithoutCr(line)] + Stripped(rest)
  {
    hide WithoutCr;
  }

  lemma {:induction false} LinesOfUnlines(lines: seq<string>)
    requires NoLf(lines)
    ensures Lines(Unlines(lines)) == Stripped(lines)
  {
    if lines != [] {
      hide WithoutCr, Stripped, Find;
      var line, rest := lines[0], lines[1..];
      assert lines == [line] + rest;
      LinesOfUnlines(rest);
      UnlinesFront(line, rest);
      hide Unlines, Lines;
      FirstLine(line, Unlines(rest));
      StrippedFront(line, rest);
    }
  }

  lemma {:induction false} LinesHaveNoLf(text: string)
    ensures NoLf(Lines(text))
    decreases |text|
  {
    if text != [] {
      var i := Find(text, '\n');
      if i < |text| {
        LinesHaveNoLf(text[i + 1..]);
      }
    }
  }

  lemma {:induction false} TrimBlank(s: string)
    ensures Trim(s) == [] <==> forall c :: c in s ==> IsWhitespace(c)
  {
    TrimStartBlank(s);
    TrimEndBlank(TrimStart(s));
  }

  lemma {:induction false} TrimStartBlank(s: string)
    ensures (forall c :: c in TrimStart(s) ==> IsWhitespace(c)) <==> (forall c :: c in s ==> IsWhitespace(c))
    decreases |s|
  {
    if s != [] && IsWhitespace(s[0]) {
      TrimStartBlank(s[1..]);
      assert s == [s[0]] + s[1..];
    }
  }

  lemma {:induction false} TrimEndBlank(s: string)
    ensures TrimEnd(s) == [] <==> forall c :: c in s ==> IsWhitespace(c)
    decreases |s|
  {
    if s != [] {
      var n := |s| - 1;
      assert s == s[..n] + [s[n]];
      if IsWhitespace(s[n]) {
        TrimEndBlank(s[..n]);
      } else {
        assert s[n] in s;
      }
    }
  }

  lemma KeptWithoutCr(line: string)
    ensures IsKept(WithoutCr(line)) <==> IsKept(line)
  {
    TrimBlank(line);
    TrimBlank(WithoutCr(line));
    if EndsWithCr(line) {
      assert line == WithoutCr(line) + ['\r'];
      assert IsWhitespace('\r');
    }
    hide Trim, IsWhitespace;
  }

  lemma SectionWithoutCr(line: string, sections: seq<Section>)
    ensures SectionOfLine(WithoutCr(line), sections) == SectionOfLine(line, sections)
  {
    if EndsWithCr(line) {
      var n := |line| - 1;
      var i := Find(line, '=');
      if i < |line| {
        assert line[..n][..i] == line[..i];
        FindIs(line[..n], '=', i);
      } else {
        assert line[..|line|] == line;
        FindIs(line[..n], '=', n);
      }
    }
  }

  lemma StrippedSnoc(lines: seq<string>)
    requires lines != []
    ensures Stripped(lines)[..|lines| - 1] == Stripped(lines[..|lines| - 1])
  {
  }

  lemma {:induction false} StrippedKept(lines: seq<string>)
    ensures Kept(Stripped(lines)) == Stripped(Kept(lines))
  {
    hide IsKept, WithoutCr;
    if lines != [] {
      StrippedKept(lines[..|lines| - 1]);
      StrippedSnoc(lines);
      KeptWithoutCr(lines[|lines| - 1]);
    }
  }

  lemma {:induction false} StrippedBucket(lines: seq<string>, sections: seq<Section>, which: Option<nat>)
    ensures Bucket(Stripped(lines), sections, which) == Stripped(Bucket(lines, sections, which))
  {
    hide SectionOfLine, WithoutCr;
    if lines != [] {
      StrippedBucket(lines[..|lines| - 1], sections, which);
      StrippedSnoc(lines);
      SectionWithoutCr(lines[|lines| - 1], sections);
    }
  }

  lemma HeadingHasNoCr(heading: string)
    ensures !EndsWithCr(HeadingLine(heading)) && !EndsWithCr("")
  {
    assert HeadingLine(heading)[|HeadingLine(heading)| - 1] == '-';
  }

  lemma StrippedConcat(a: seq<string>, b: seq<string>)
    ensures Stripped(a + b) == Stripped(a) + Stripped(b)
  {
    hide WithoutCr;
  }

  lemma StrippedUnder(above: seq<string>, heading: string, lines: seq<string>)
    ensures Under(Stripped(above), heading, Stripped(lines)) == Stripped(Under(above, heading, lines))
  {
    HeadingHasNoCr(heading);
    assert Stripped([""]) == [""] && Stripped([HeadingLine(heading)]) == [HeadingLine(heading)];
    hide HeadingLine, WithoutCr, EndsWithCr;
    var top := if above == [] then [] else above + [""];
    StrippedConcat(above, [""]);
    StrippedConcat(top, [HeadingLine(heading)]);
    StrippedConcat(top + [HeadingLine(heading)], lines);
  }

  lemma {:induction false} StrippedBlocks(lines: seq<string>, sections: seq<Section>, n: nat)
    requires n <= |sections|
    ensures Blocks(Stripped(lines), sections, n) == Stripped(Blocks(lines, sections, n))
  {
    hide Under, Bucket, Stripped;
    if n > 0 {
      StrippedBlocks(lines, sections, n - 1);
      StrippedBucket(lines, sections, Some(n - 1));
      StrippedUnder(Blocks(lines, sections, n - 1), sections[n - 1].heading, Bucket(lines, sections, Some(n - 1)));
    } else {
      assert Stripped([]) == [];
    }
  }

  lemma StrippedLayout(lines: seq<string>, sections: seq<Section>, trailing: string)
    ensures Layout(Stripped(lines), sections, trailing) == Stripped(Layout(lines, sections, trailing))
  {
    hide Under, Bucket, Blocks;
    StrippedBlocks(lines, sections, |sections|);
    StrippedBucket(lines, sections, None);
    StrippedUnder(Blocks(lines, sections, |sections|), trailing, Bucket(lines, sections, None));
  }

  lemma {:induction false} StrippingShortens(lines: seq<string>)
    ensures |Unlines(Stripped(lines))| <= |Unlines(lines)|
    ensures |Unlines(Stripped(lines))| == |Unlines(lines)| ==> forall l :: l in lines ==> !EndsWithCr(l)
  {
    if lines != [] {
      StrippingShortens(lines[..|lines| - 1]);
      StrippedSnoc(lines);
    }
  }

  /** A table whose headings are single lines. */
  predicate SingleLineHeadings(sections: seq<Section>, trailing: string) {
    '\n' !in trailing && forall s :: s in sections ==> '\n' !in s.heading
  }

  /** A line of the layout is one that was kept, or one that ends in no CR. */
  predicate FromKept(out: seq<string>, lines: seq<string>) {
    forall l :: l in out ==> '\n' !in l && (l in lines || !EndsWithCr(l))
  }

  lemma UnderFromKept(above: seq<string>, heading: string, some: seq<string>, lines: seq<string>)
    requires FromKept(above, lines) && NoLf(lines) && '\n' !in heading
    requires forall l :: l in some ==> l in lines
    ensures FromKept(Under(above, heading, some), lines)
  {
    HeadingHasNoCr(heading);
    assert '\n' !in HeadingLine(heading);
    hide HeadingLine, EndsWithCr;
  }

  lemma {:induction false} BlocksFromKept(lines: seq<string>, sections: seq<Section>, n: nat)
    requires n <= |sections| && NoLf(lines) && forall s :: s in sections ==> '\n' !in s.heading
    ensures FromKept(Blocks(lines, sections, n), lines)
  {
    hide Under, Bucket, SectionOfLine, EndsWithCr;
    if n > 0 {
      BlocksFromKept(lines, sections, n - 1);
      BucketAll(lines, sections, Some(n - 1));
      UnderFromKept(Blocks(lines, sections, n - 1), sections[n - 1].heading, Bucket(lines, sections, Some(n - 1)), lines);
    }
  }

  lemma LayoutFromKept(lines: seq<string>, sections: seq<Section>, trailing: string)
    requires NoLf(lines) && SingleLineHeadings(sections, trailing)
    ensures FromKept(Layout(lines, sections, trailing), lines)
  {
    BlocksFromKept(lines, sections, |sections|);
    BucketAll(lines, sections, None);
    UnderFromKept(Blocks(lines, sections, |sections|), trailing, Bucket(lines, sections, None), lines);
  }

  lemma {:induction false} KeptMembers(lines: seq<string>)
    ensures forall l :: l in Kept(lines) ==> l in lines
  {
    if lines != [] {
      KeptMembers(lines[..|lines| - 1]);
    }
  }

  /** The text of a grouped file, read back: every kept line once, section by section, but for a CR at its end. */
  lemma GroupReadsBack(content: string, sections: seq<Section>, trailing: string)
    requires SingleLineHeadings(sections, trailing)
    ensures var kept := Kept(Lines(content));
            && Lines(Group(content, sections, trailing)) == Stripped(Layout(kept, sections, trailing))
            && Kept(Lines(Group(content, sections, trailing))) == Stripped(Regrouped(kept, sections))
  {
    var kept := Kept(Lines(content));
    LinesHaveNoLf(content);
    KeptMembers(Lines(content));
    KeptAreKept(Lines(content));
    hide Kept, Lines, Layout, IsKept;
    LayoutFromKept(kept, sections, trailing);
    LinesOfUnlines(Layout(kept, sections, trailing));
    StrippedKept(Layout(kept, sections, trailing));
    LayoutKeeps(kept, sections, trailing);
  }

  lemma GroupTwice(content: string, sections: seq<Section>, trailing: string)
    requires SingleLineHeadings(sections, trailing)
    ensures Group(Group(content, sections, trailing), sections, trailing) ==
            Unlines(Stripped(Layout(Kept(Lines(content)), sections, trailing)))
  {
    var kept := Kept(Lines(content));
    GroupReadsBack(content, sections, trailing);
    KeptAreKept(Lines(content));
    LayoutKeeps(kept, sections, trailing);
    LayoutSettles(kept, sections, trailing);
    StrippedLayout(Regrouped(kept, sections), sections, trailing);
  }

  lemma UnstrippedIff(out: seq<string>)
    ensures Unlines(Stripped(out)) == Unlines(out) <==> forall l :: l in out ==> !EndsWithCr(l)
  {
    StrippingShortens(out);
    hide Unlines;
    if forall l :: l in out ==> !EndsWithCr(l) {
      assert forall i :: 0 <= i < |out| ==> out[i] in out;
      assert Stripped(out) == out;
    }
  }

  lemma {:induction false} MemberCount(lines: seq<string>, l: string)
    ensures l in lines <==> multiset(lines)[l] > 0
  {
    if lines != [] {
      MemberCount(lines[1..], l);
      assert lines == [lines[0]] + lines[1..];
    }
  }

  /** The lines of a layout end in no CR exactly when the kept lines do not. */
  lemma LayoutCrIff(kept: seq<string>, sections: seq<Section>, trailing: string)
    requires AllKept(kept) && NoLf(kept) && SingleLineHeadings(sections, trailing)
    ensures (forall l :: l in Layout(kept, sections, trailing) ==> !EndsWithCr(l)) <==>
            (forall l :: l in kept ==> !EndsWithCr(l))
  {
    var out := Layout(kept, sections, trailing);
    LayoutFromKept(kept, sections, trailing);
    LayoutKeeps(kept, sections, trailing);
    KeptMembers(out);
    NothingLost(kept, sections);
    hide Kept, Layout, Regrouped, EndsWithCr;
    forall l | l in kept
      ensures l in out
    {
      MemberCount(kept, l);
      MemberCount(Regrouped(kept, sections), l);
    }
  }

  /**
   Grouping a grouped file changes nothing exactly when no kept line of it ends in a CR that
   `lines` left there, as the first of two before a LF or the last character of the file.
   */
  lemma SettlesIff(content: string, sections: seq<Section>, trailing: string)
    requires SingleLineHeadings(sections, trailing)
    ensures Group(Group(content, sections, trailing), sections, trailing) == Group(content, sections, trailing)
            <==> forall l :: l in Kept(Lines(content)) ==> !EndsWithCr(l)
  {
    GroupTwice(content, sections, trailing);
    UnstrippedIff(Layout(Kept(Lines(content)), sections, trailing));
    LinesHaveNoLf(content);
    KeptMembers(Lines(content));
    KeptAreKept(Lines(content));
    LayoutCrIff(Kept(Lines(content)), sections, trailing);
  }

  lemma TwoCrs()
    ensures Lines("a\r\r\n") == ["a\r"] && IsKept("a\r")
  {
    var content, line := "a\r\r\n", "a\r";
    assert content[..3] == "a\r\r" && content[4..] == [];
    FindIs(content, '\n', 3);
    assert WithoutCr("a\r\r") == line;
    hide Lines;
    TrimBlank(line);
    assert line[0] in line && !IsWhitespace(line[0]);
    assert line[0..1] == "a";
  }

  /** So the claim that it always changes nothing fails on a line with two CRs. */
  lemma StrayCrDoesNotSettle(trailing: string)
    requires '\n' !in trailing
    ensures Group(Group("a\r\r\n", [], trailing), [], trailing) != Group("a\r\r\n", [], trailing)
  {
    hide Group, Lines, IsKept;
    TwoCrs();
    SettlesIff("a\r\r\n", [], trailing);
    assert Kept(["a\r"]) == Kept([]) + ["a\r"];
    assert EndsWithCr("a\r") && "a\r" in Kept(Lines("a\r\r\n"));
  }
}
