/** Grouping a config file, told on the text itself: which lines there are, which come out, and where. */
module ConfLayoutText {
  import opened Options
  import opened Text
  import opened ConfLayout
  import opened ConfLayoutResults

  // ---- lines and keys -------------------------------------------------------------------

  /** A text is its first line, up to a LF and without one CR before it, and the rest; what has no LF is one line, unless empty. */
  lemma LinesSplit(line: string, rest: string)
    requires '\n' !in line
    ensures Lines(line + "\n" + rest) ==
            [if |line| > 0 && line[|line| - 1] == '\r' then line[..|line| - 1] else line] + Lines(rest)
    ensures Lines(line) == if line == "" then [] else [line]
  {
    FirstLine(line, rest);
    assert line[..|line|] == line;
    FindIs(line, '\n', |line|);
  }

  predicate AllWhite(s: string) {
    forall i :: 0 <= i < |s| ==> IsWhitespace(s[i])
  }

  lemma {:induction false} TrimStartTakes(white: string, core: string)
    requires AllWhite(white) && (core == "" || !IsWhitespace(core[0]))
    ensures TrimStart(white + core) == core
  {
    hide IsWhitespace;
    if white == "" {
      assert white + core == core;
    } else {
      TrimStartTakes(white[1..], core);
      assert (white + core)[1..] == white[1..] + core;
    }
  }

  lemma {:induction false} TrimEndTakes(core: string, white: string)
    requires AllWhite(white) && (core == "" || !IsWhitespace(core[|core| - 1]))
    ensures TrimEnd(core + white) == core
  {
    hide IsWhitespace;
    if white == "" {
      assert core + white == core;
    } else {
      var n := |white| - 1;
      TrimEndTakes(core, white[..n]);
      assert (core + white)[..|core| + n] == core + white[..n];
      assert (core + white)[|core| + n] == white[n];
    }
  }

  /** A word, without blanks at its ends. */
  predicate IsWord(s: string) {
    s == "" || (!IsWhitespace(s[0]) && !IsWhitespace(s[|s| - 1]))
  }

  lemma TrimIs(before: string, core: string, behind: string)
    requires AllWhite(before) && AllWhite(behind) && IsWord(core)
    ensures Trim(before + core + behind) == core
  {
    hide IsWhitespace;
    if core == "" {
      assert before + core + behind == (before + behind) + "";
      TrimStartTakes(before + behind, "");
    } else {
      assert before + core + behind == before + (core + behind);
      TrimStartTakes(before, core + behind);
      TrimEndTakes(core, behind);
    }
  }

  /** A line goes by what stands before its first `=`, without the blanks around it. */
  lemma KeyDecides(before: string, key: string, behind: string, value: string, sections: seq<Section>)
    requires AllWhite(before) && AllWhite(behind) && IsWord(key)
    requires '=' !in before && '=' !in key && '=' !in behind
    ensures SectionOfLine(before + key + behind + "=" + value, sections) == SectionFor(key, sections)
  {
    hide IsWhitespace;
    var left := before + key + behind;
    var line := left + "=" + value;
    assert line[..|left|] == left;
    FindIs(line, '=', |left|);
    TrimIs(before, key, behind);
    hide SectionFor;
  }

  /** A line without `=` belongs to no section. */
  lemma NoKeyNoSection(line: string, sections: seq<Section>)
    requires '=' !in line
    ensures SectionOfLine(line, sections) == None
  {
    assert line[..|line|] == line;
    FindIs(line, '=', |line|);
  }

  // ---- what comes out ---------------------------------------------------------------------

  /** Something stands on the line, and no `#` in front. */
  predicate Speaks(line: string) {
    (exists i :: 0 <= i < |line| && !IsWhitespace(line[i])) && line[0] != '#'
  }

  lemma KeptIffSpeaks(line: string)
    ensures IsKept(line) <==> Speaks(line)
  {
    TrimBlank(line);
    hide Trim, IsWhitespace;
    if line != [] {
      assert line[0..1] == [line[0]];
    }
    if forall c :: c in line ==> IsWhitespace(c) {
      assert forall i :: 0 <= i < |line| ==> line[i] in line;
    }
  }

  /** How often a line stands there, a CR at its end taken for part of the line break. */
  function Occurrences(lines: seq<string>, line: string): nat {
    (if |line| > 0 && line[|line| - 1] == '\r' then 0 else multiset(lines)[line]) + multiset(lines)[line + "\r"]
  }

  lemma OccurrencesMore(lines: seq<string>, line: string, t: string)
    ensures Occurrences(lines + [line], t) == Occurrences(lines, t) + if WithoutCr(line) == t then 1 else 0
  {
    WithoutCrIs(line, t);
    hide WithoutCr;
  }

  lemma {:induction false} StrippedCount(lines: seq<string>, t: string)
    ensures multiset(Stripped(lines))[t] == Occurrences(lines, t)
  {
    if lines != [] {
      var n := |lines| - 1;
      var before, last := lines[..n], lines[n];
      assert lines == before + [last];
      hide WithoutCr, Occurrences, Stripped;
      StrippedCount(before, t);
      StrippedMore(before, last);
      OccurrencesMore(before, last, t);
    }
  }

  lemma StrippedMore(lines: seq<string>, line: string)
    ensures Stripped(lines + [line]) == Stripped(lines) + [WithoutCr(line)]
  {
  }

  lemma WithoutCrIs(line: string, t: string)
    ensures WithoutCr(line) == t <==> (line == t && !EndsWithCr(t)) || line == t + "\r"
    ensures t != t + "\r"
  {
    assert |t + "\r"| == |t| + 1;
    if EndsWithCr(line) {
      assert line == line[..|line| - 1] + "\r";
    }
  }

  lemma {:induction false} KeptCount(lines: seq<string>, t: string)
    requires IsKept(t)
    ensures multiset(Kept(lines))[t] == multiset(lines)[t]
  {
    hide IsKept;
    if lines != [] {
      var n := |lines| - 1;
      KeptCount(lines[..n], t);
      assert lines == lines[..n] + [lines[n]];
    }
  }

  lemma SpeaksWithCr(t: string)
    requires Speaks(t)
    ensures Speaks(t + "\r")
  {
    var i :| 0 <= i < |t| && !IsWhitespace(t[i]);
    assert (t + "\r")[i] == t[i];
  }

  /** Every line on which something stands, and no heading, comes out as often as it stands in the file. */
  lemma NothingThrownAway(content: string, sections: seq<Section>, trailing: string, line: string)
    requires SingleLineHeadings(sections, trailing) && Speaks(line)
    ensures multiset(Lines(Group(content, sections, trailing)))[line] == Occurrences(Lines(content), line)
  {
    GroupReadsBack(content, sections, trailing);
    KeptIffSpeaks(line);
    SpeaksWithCr(line);
    KeptIffSpeaks(line + "\r");
    hide IsKept, Speaks, Lines, Group, Layout;
    var kept := Kept(Lines(content));
    KeptCount(Lines(Group(content, sections, trailing)), line);
    StrippedCount(Regrouped(kept, sections), line);
    NothingLost(kept, sections);
    KeptCount(Lines(content), line);
    KeptCount(Lines(content), line + "\r");
  }

  /** A heading as it stands in the file. */
  predicate IsHeading(line: string, sections: seq<Section>, trailing: string) {
    line == "# ---- " + trailing + " ----" || exists n :: 0 <= n < |sections| && line == "# ---- " + sections[n].heading + " ----"
  }

  predicate Accounted(line: string, lines: seq<string>, sections: seq<Section>, trailing: string) {
    line in lines || line == "" || IsHeading(line, sections, trailing)
  }

  lemma {:induction false} BlocksAccounted(lines: seq<string>, sections: seq<Section>, trailing: string, n: nat)
    requires n <= |sections|
    ensures forall l :: l in Blocks(lines, sections, n) ==> Accounted(l, lines, sections, trailing)
  {
    hide SectionOfLine;
    if n > 0 {
      BlocksAccounted(lines, sections, trailing, n - 1);
      BucketAll(lines, sections, Some(n - 1));
      assert IsHeading(HeadingLine(sections[n - 1].heading), sections, trailing);
      hide Bucket, IsHeading, HeadingLine;
    }
  }

  lemma LayoutAccounted(lines: seq<string>, sections: seq<Section>, trailing: string)
    ensures forall l :: l in Layout(lines, sections, trailing) ==> Accounted(l, lines, sections, trailing)
  {
    BlocksAccounted(lines, sections, trailing, |sections|);
    BucketAll(lines, sections, None);
    assert IsHeading(HeadingLine(trailing), sections, trailing);
    hide Bucket, IsHeading, HeadingLine, SectionOfLine;
  }

  /** And nothing else is written but headings and blank lines. */
  lemma OnlyHeadingsAdded(content: string, sections: seq<Section>, trailing: string, line: string)
    requires SingleLineHeadings(sections, trailing) && line in Lines(Group(content, sections, trailing))
    ensures Speaks(line) || line == "" || IsHeading(line, sections, trailing)
  {
    var kept := Kept(Lines(content));
    GroupReadsBack(content, sections, trailing);
    KeptAreKept(Lines(content));
    LayoutAccounted(kept, sections, trailing);
    hide Lines, Group, Layout, Kept, IsKept, Speaks;
    var out := Layout(kept, sections, trailing);
    var i :| 0 <= i < |out| && Stripped(out)[i] == line;
    assert out[i] in out;
    if out[i] in kept {
      KeptWithoutCr(out[i]);
      KeptIffSpeaks(line);
    } else {
      NotKeptStays(out[i], kept, sections, trailing);
    }
  }

  lemma NotKeptStays(l: string, lines: seq<string>, sections: seq<Section>, trailing: string)
    requires Accounted(l, lines, sections, trailing) && l !in lines
    ensures WithoutCr(l) == l
  {
    if IsHeading(l, sections, trailing) {
      assert l[|l| - 1] == '-';
    }
  }

  // ---- where it comes out -------------------------------------------------------------------

  /** A block stands in the layout: its heading, its lines, and a blank line between it and any other. */
  predicate StandsIn(layout: seq<string>, before: seq<string>, heading: string, lines: seq<string>, behind: seq<string>) {
    && layout == before + ["# ---- " + heading + " ----"] + lines + behind
    && (before == [] || before[|before| - 1] == "")
    && (behind == [] || behind[0] == "")
  }

  lemma UnderStands(above: seq<string>, heading: string, lines: seq<string>) returns (before: seq<string>)
    requires lines != []
    ensures StandsIn(Under(above, heading, lines), before, heading, lines, [])
  {
    before := if above == [] then [] else above + [""];
    assert Under(above, heading, lines) == before + [HeadingLine(heading)] + lines + [];
  }

  /** What stands in the layout stands in it when more comes under it. */
  lemma StillStands(layout: seq<string>, before: seq<string>, heading: string, lines: seq<string>, behind: seq<string>,
                    next: string, more: seq<string>) returns (farther: seq<string>)
    requires StandsIn(layout, before, heading, lines, behind)
    ensures StandsIn(Under(layout, next, more), before, heading, lines, farther)
  {
    if more == [] {
      farther := behind;
    } else {
      farther := behind + [""] + [HeadingLine(next)] + more;
      assert layout != [];
      assert Under(layout, next, more) == layout + [""] + [HeadingLine(next)] + more;
      assert layout + [""] + [HeadingLine(next)] + more
             == before + ["# ---- " + heading + " ----"] + lines + farther;
    }
  }

  lemma {:induction false} SectionInBlocks(lines: seq<string>, sections: seq<Section>, s: nat, n: nat)
    returns (before: seq<string>, behind: seq<string>)
    requires s < n <= |sections| && Bucket(lines, sections, Some(s)) != []
    ensures StandsIn(Blocks(lines, sections, n), before, sections[s].heading, Bucket(lines, sections, Some(s)), behind)
  {
    hide Bucket, Under, StandsIn;
    if s == n - 1 {
      before := UnderStands(Blocks(lines, sections, n - 1), sections[s].heading, Bucket(lines, sections, Some(s)));
      behind := [];
    } else {
      before, behind := SectionInBlocks(lines, sections, s, n - 1);
      behind := StillStands(Blocks(lines, sections, n - 1), before, sections[s].heading, Bucket(lines, sections, Some(s)),
                            behind, sections[n - 1].heading, Bucket(lines, sections, Some(n - 1)));
    }
  }

  /** The lines of a section stand together under its heading, the unclassified ones under theirs at the end. */
  lemma LinesUnderTheirHeading(lines: seq<string>, sections: seq<Section>, trailing: string, which: Option<nat>)
    returns (before: seq<string>, behind: seq<string>)
    requires (which.Some? ==> which.value < |sections|) && Bucket(lines, sections, which) != []
    ensures StandsIn(Layout(lines, sections, trailing), before,
                     if which.Some? then sections[which.value].heading else trailing,
                     Bucket(lines, sections, which), behind)
    ensures which.None? ==> behind == []
  {
    hide Bucket, Under, StandsIn;
    var blocks, rest := Blocks(lines, sections, |sections|), Bucket(lines, sections, None);
    match which
    case None =>
      before := UnderStands(blocks, trailing, rest);
      behind := [];
    case Some(s) =>
      before, behind := SectionInBlocks(lines, sections, s, |sections|);
      behind := StillStands(blocks, before, sections[s].heading, Bucket(lines, sections, which), behind, trailing, rest);
  }

  /** How many sections have a line. */
  function Filled(lines: seq<string>, sections: seq<Section>, n: nat): nat
    requires n <= |sections|
  {
    if n == 0 then 0
    else Filled(lines, sections, n - 1) + if Bucket(lines, sections, Some(n - 1)) == [] then 0 else 1
  }

  lemma UnderLength(above: seq<string>, heading: string, lines: seq<string>)
    ensures |Under(above, heading, lines)| ==
            |above| + |lines| + if lines == [] then 0 else if above == [] then 1 else 2
    ensures Under(above, heading, lines) == [] <==> above == [] && lines == []
  {
  }

  lemma {:induction false} BlocksLength(lines: seq<string>, sections: seq<Section>, n: nat)
    requires n <= |sections|
    ensures var filled := Filled(lines, sections, n);
            |Blocks(lines, sections, n)| == |InOrder(lines, sections, n)| + if filled == 0 then 0 else 2 * filled - 1
    ensures Filled(lines, sections, n) == 0 ==> Blocks(lines, sections, n) == []
  {
    hide Bucket, Under;
    if n > 0 {
      var above, bucket := Blocks(lines, sections, n - 1), Bucket(lines, sections, Some(n - 1));
      BlocksLength(lines, sections, n - 1);
      assert Blocks(lines, sections, n) == Under(above, sections[n - 1].heading, bucket);
      assert |InOrder(lines, sections, n)| == |InOrder(lines, sections, n - 1)| + |bucket|;
      assert Filled(lines, sections, n) == Filled(lines, sections, n - 1) + if bucket == [] then 0 else 1;
      hide Blocks, InOrder, Filled;
      UnderLength(above, sections[n - 1].heading, bucket);
    }
  }

  /** There is one heading for each section that has a line and one for the rest, and a blank line between two blocks; no more. */
  lemma LayoutLength(lines: seq<string>, sections: seq<Section>, trailing: string)
    ensures var filled := Filled(lines, sections, |sections|) + if Bucket(lines, sections, None) == [] then 0 else 1;
            |Layout(lines, sections, trailing)| == |lines| + if filled == 0 then 0 else 2 * filled - 1
  {
    BlocksLength(lines, sections, |sections|);
    NothingLost(lines, sections);
    assert |multiset(Regrouped(lines, sections))| == |multiset(lines)|;
    UnderLength(Blocks(lines, sections, |sections|), trailing, Bucket(lines, sections, None));
    hide Bucket, Blocks, InOrder, Filled, Under;
  }
}
