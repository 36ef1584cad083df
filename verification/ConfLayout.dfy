/** Grouping the `key=value` lines of a config file under headings. */
module ConfLayout {
  import opened Options
  import opened Text

  datatype Section = Section(heading: string, prefixes: seq<string>)

  // ---- text and lines -----------------------------------------------------------

  function TrimStart(s: string): string {
    if s != [] && IsWhitespace(s[0]) then TrimStart(s[1..]) else s
  }

  function TrimEnd(s: string): string {
    if s != [] && IsWhitespace(s[|s| - 1]) then TrimEnd(s[..|s| - 1]) else s
  }

  function Trim(s: string): (r: string)
    ensures s == [] ==> r == []
  {
    TrimEnd(TrimStart(s))
  }

  /** The place of the first `c`, or the length. */
  function Find(s: string, c: char): (i: nat)
    ensures i <= |s| && c !in s[..i]
    ensures i < |s| ==> s[i] == c
  {
    if s == [] || s[0] == c then 0 else 1 + Find(s[1..], c)
  }

  function WithoutCr(line: string): string {
    if line != [] && line[|line| - 1] == '\r' then line[..|line| - 1] else line
  }

  /** `str::lines`: split after each LF, which goes, with one CR before it. */
  function Lines(text: string): seq<string> {
    if text == [] then []
    else
      var i := Find(text, '\n');
      if i < |text| then [WithoutCr(text[..i])] + Lines(text[i + 1..]) else [text]
  }

  function Unlines(lines: seq<string>): string {
    if lines == [] then [] else Unlines(lines[..|lines| - 1]) + lines[|lines| - 1] + "\n"
  }

  // ---- which section a line belongs to --------------------------------------------

  datatype Match = Match(length: nat, section: nat)

  /** A longer match wins; an equal one does not. */
  function Better(best: Option<Match>, key: string, prefix: string, section: nat): Option<Match> {
    if prefix <= key && (best.None? || |prefix| > best.value.length) then Some(Match(|prefix|, section)) else best
  }

  function BestIn(best: Option<Match>, key: string, prefixes: seq<string>, section: nat): Option<Match> {
    if prefixes == [] then best
    else Better(BestIn(best, key, prefixes[..|prefixes| - 1], section), key, prefixes[|prefixes| - 1], section)
  }

  function Best(key: string, sections: seq<Section>): Option<Match> {
    if sections == [] then None
    else
      var n := |sections| - 1;
      BestIn(Best(key, sections[..n]), key, sections[n].prefixes, n)
  }

  function SectionFor(key: string, sections: seq<Section>): Option<nat> {
    match Best(key, sections)
    case None => None
    case Some(m) => Some(m.section)
  }

  predicate IsKept(line: string) {
    Trim(line) != [] && line[0..1] != "#"
  }

  function SectionOfLine(line: string, sections: seq<Section>): Option<nat> {
    var i := Find(line, '=');
    if i < |line| then SectionFor(Trim(line[..i]), sections) else None
  }

  // ---- the layout -----------------------------------------------------------------

  function Kept(lines: seq<string>): seq<string> {
    if lines == [] then []
    else
      var rest := Kept(lines[..|lines| - 1]);
      if IsKept(lines[|lines| - 1]) then rest + [lines[|lines| - 1]] else rest
  }

  /** The lines of one section, or of none, in the order they came. */
  function Bucket(lines: seq<string>, sections: seq<Section>, which: Option<nat>): seq<string> {
    if lines == [] then []
    else
      var rest := Bucket(lines[..|lines| - 1], sections, which);
      if SectionOfLine(lines[|lines| - 1], sections) == which then rest + [lines[|lines| - 1]] else rest
  }

  function HeadingLine(heading: string): string {
    "# ---- " + heading + " ----"
  }

  /** A block under its heading, after a blank line unless it comes first; nothing for no lines. */
  function Under(above: seq<string>, heading: string, lines: seq<string>): seq<string> {
    if lines == [] then above
    else (if above == [] then [] else above + [""]) + [HeadingLine(heading)] + lines
  }

  function Blocks(lines: seq<string>, sections: seq<Section>, n: nat): seq<string>
    requires n <= |sections|
  {
    if n == 0 then []
    else Under(Blocks(lines, sections, n - 1), sections[n - 1].heading, Bucket(lines, sections, Some(n - 1)))
  }

  function Layout(lines: seq<string>, sections: seq<Section>, trailing: string): seq<string> {
    Under(Blocks(lines, sections, |sections|), trailing, Bucket(lines, sections, None))
  }

  function Group(content: string, sections: seq<Section>, trailing: string): string {
    Unlines(Layout(Kept(Lines(content)), sections, trailing))
  }

  // ---- the loops ------------------------------------------------------------------

  method FindSection(key: string, sections: seq<Section>) returns (section: Option<nat>)
    ensures section == SectionFor(key, sections)
    ensures section.Some? ==> section.value < |sections|
  {
    var best: Option<Match> := None;
    for idx := 0 to |sections|
      invariant best == Best(key, sections[..idx])
      invariant best.Some? ==> best.value.section < idx
    {
      assert sections[..idx + 1][..idx] == sections[..idx];
      var prefixes := sections[idx].prefixes;
      for j := 0 to |prefixes|
        invariant best == BestIn(Best(key, sections[..idx]), key, prefixes[..j], idx)
        invariant best.Some? ==> best.value.section <= idx
      {
        assert prefixes[..j + 1][..j] == prefixes[..j];
        if prefixes[j] <= key {
          var length := |prefixes[j]|;
          if best.None? || length > best.value.length {
            best := Some(Match(length, idx));
          }
        }
      }
      assert prefixes[..|prefixes|] == prefixes;
    }
    assert sections[..|sections|] == sections;
    section := if best.Some? then Some(best.value.section) else None;
  }

  /** One bucket a section and the leftovers, each in the order the lines came. */
  method Distribute(lines: seq<string>, sections: seq<Section>)
    returns (buckets: seq<seq<string>>, leftovers: seq<string>)
    ensures |buckets| == |sections|
    ensures forall s :: 0 <= s < |sections| ==> buckets[s] == Bucket(Kept(lines), sections, Some(s))
    ensures leftovers == Bucket(Kept(lines), sections, None)
  {
    hide SectionFor, Trim, Bucket;
    buckets := seq(|sections|, _ => []);
    leftovers := [];
    NothingInBuckets(sections);
    for i := 0 to |lines|
      invariant |buckets| == |sections|
      invariant forall s :: 0 <= s < |sections| ==> buckets[s] == Bucket(Kept(lines[..i]), sections, Some(s))
      invariant leftovers == Bucket(Kept(lines[..i]), sections, None)
    {
      assert lines[..i + 1][..i] == lines[..i];
      var line := lines[i];
      if Trim(line) == [] || line[0..1] == "#" {
        continue;
      }
      var at := Find(line, '=');
      var section: Option<nat> := None;
      if at < |line| {
        section := FindSection(Trim(line[..at]), sections);
      }
      assert section == SectionOfLine(line, sections) && IsKept(line);
      hide SectionOfLine, IsKept;
      BucketsSnoc(Kept(lines[..i]), line, sections);
      match section {
        case Some(idx) => buckets := buckets[idx := buckets[idx] + [line]];
        case None => leftovers := leftovers + [line];
      }
    }
    assert lines[..|lines|] == lines;
  }

  lemma NothingInBuckets(sections: seq<Section>)
    ensures forall which: Option<nat> :: Bucket([], sections, which) == []
  {
  }

  lemma BucketSnoc(lines: seq<string>, line: string, sections: seq<Section>, which: Option<nat>)
    ensures Bucket(lines + [line], sections, which) ==
            if SectionOfLine(line, sections) == which then Bucket(lines, sections, which) + [line]
            else Bucket(lines, sections, which)
  {
    assert (lines + [line])[..|lines|] == lines;
  }

  lemma BucketsSnoc(lines: seq<string>, line: string, sections: seq<Section>)
    ensures forall which: Option<nat> ::
              Bucket(lines + [line], sections, which) ==
              if SectionOfLine(line, sections) == which then Bucket(lines, sections, which) + [line]
              else Bucket(lines, sections, which)
  {
    hide Bucket, SectionOfLine;
    forall which: Option<nat> {
      BucketSnoc(lines, line, sections, which);
    }
  }

  method Regroup(content: string, sections: seq<Section>, trailing: string) returns (out: string)
    ensures out == Group(content, sections, trailing)
  {
    var buckets, leftovers := Distribute(Lines(content), sections);
    ghost var kept := Kept(Lines(content));
    out := "";
    assert Unlines([]) == "";
    hide Unlines, Bucket, Kept, Lines;
    for idx := 0 to |sections|
      invariant out == Unlines(Blocks(kept, sections, idx))
    {
      if buckets[idx] == [] {
        continue;
      }
      out := AddBlock(out, Blocks(kept, sections, idx), sections[idx].heading, buckets[idx]);
    }
    if leftovers != [] {
      out := AddBlock(out, Blocks(kept, sections, |sections|), trailing, leftovers);
    }
  }

  method AddBlock(before: string, ghost above: seq<string>, heading: string, lines: seq<string>) returns (out: string)
    requires before == Unlines(above) && lines != []
    ensures out == Unlines(Under(above, heading, lines))
  {
    out := before;
    ghost var shown := above;
    if out != "" {
      out := out + "\n";
      UnlinesSnoc(above, "");
      shown := above + [""];
    }
    assert above == [] <==> before == "";
    out := out + HeadingLine(heading) + "\n";
    UnlinesSnoc(shown, HeadingLine(heading));
    shown := shown + [HeadingLine(heading)];
    assert shown + lines[..0] == shown;
    for i := 0 to |lines|
      invariant out == Unlines(shown + lines[..i])
    {
      UnlinesSnoc(shown + lines[..i], lines[i]);
      assert shown + lines[..i + 1] == shown + lines[..i] + [lines[i]];
      out := out + lines[i] + "\n";
    }
    assert shown + lines[..|lines|] == Under(above, heading, lines);
  }

  lemma UnlinesSnoc(lines: seq<string>, line: string)
    ensures Unlines(lines + [line]) == Unlines(lines) + line + "\n"
  {
    assert (lines + [line])[..|lines|] == lines;
  }
}
