/** The experience section: a line that looks like it carries a date (a
    month abbreviation anywhere, in any case, or `20` and two digits) and is
    shorter than 100 UTF-16 units starts an entry whose company is the text
    before the first dash or bar; bullet lines of the open entry become its
    highlights and its first other line becomes its position. */
module ExperienceParser {
  import opened Seqs
  import opened Text
  import opened Schema
  import opened Accumulator

  /** The month alternatives of the date test, lower-cased. */
  const Months: seq<string> :=
    ["jan", "feb", "mar", "apr", "may", "jun", "jul", "aug", "sep", "oct", "nov", "dec"]

  /** `s` begins with `20` and two digits. */
  predicate YearStart(s: string)
  {
    |s| >= 4 && s[0] == '2' && s[1] == '0' && IsDigit(s[2]) && IsDigit(s[3])
  }

  /** `20\d{2}` occurs somewhere in `s`. */
  predicate HasYear(s: string)
  {
    YearStart(s) || (s != [] && HasYear(s[1..]))
  }

  /** The date test `/(Jan|...|Dec|20\d{2})/i`. The regex is case-insensitive
      without the Unicode flag, under which no non-ASCII character folds to
      an ASCII letter, so ASCII lower-casing decides it exactly. */
  predicate IsDateLike(line: string)
  {
    ContainsAny(Lower(line), Months) || HasYear(line)
  }

  /** A line that starts an experience entry. */
  predicate IsExperienceStart(line: string)
  {
    IsDateLike(line) && Utf16Len(line) < 100
  }

  /** The characters of `[-–—|]`. */
  predicate IsDash(c: char)
  {
    c == '-' || c == '–' || c == '—' || c == '|'
  }

  /** The first piece of `line.split(/[-–—|]/)`: the longest prefix with no
      dash or bar, which is the whole line when there is none. */
  function BeforeDash(line: string): (r: string)
    ensures |r| <= |line| && r == line[..|r|]
    ensures forall k :: 0 <= k < |r| ==> !IsDash(r[k])
    ensures |r| < |line| ==> IsDash(line[|r|])
  {
    if line == [] || IsDash(line[0]) then []
    else
      var r := BeforeDash(line[1..]);
      assert [line[0]] + r == line[..|r| + 1];
      [line[0]] + r
  }

  /** The company of an entry's start line. */
  function CompanyOf(line: string): string
  {
    Trim(BeforeDash(line))
  }

  /** The start line mentions `present`, in any case. ASCII lower-casing
      decides this exactly: the only non-ASCII characters `toLowerCase`
      maps to ASCII are the Kelvin sign (to `k`) and the capital I with dot
      above (to `i` and a combining dot), and `present` has neither letter. */
  predicate IsCurrentLine(line: string)
  {
    Contains(Lower(line), "present")
  }

  /** `line.startsWith("•") || line.startsWith("-") || line.startsWith("*")` */
  predicate IsBullet(line: string)
  {
    line != [] && (line[0] == '•' || line[0] == '-' || line[0] == '*')
  }

  /** `line.replace(/^[•\-*]\s*\/, "")` on a bullet line: the marker and the
      whitespace after it are removed. What is left is a suffix of the line
      that does not start with whitespace, and everything removed after the
      marker is whitespace. */
  function StripBullet(line: string): (r: string)
    ensures line != [] ==> |r| < |line| && r == line[|line| - |r|..]
    ensures line != [] ==> AllSpace(line[1..|line| - |r|])
    ensures r == [] || !IsSpace(r[0])
  {
    if line == [] then []
    else
      var r := TrimStart(line[1..]);
      assert line[1..][|line[1..]| - |r|..] == line[|line| - |r|..];
      assert line[1..][..|line[1..]| - |r|] == line[1..|line| - |r|];
      r
  }

  /** The entry a start line opens: company and current flag from the line,
      every other field empty. */
  function OpenExperience(line: string): Experience
  {
    Experience(CompanyOf(line), "", "", "", IsCurrentLine(line), "", [])
  }

  /** A following line of the open entry: a bullet adds a highlight; any
      other line becomes the position while the position is still empty. */
  function AbsorbExperience(e: Experience, line: string): (r: Experience)
    ensures r.company == e.company && r.isCurrent == e.isCurrent
    ensures r.startDate == e.startDate && r.endDate == e.endDate && r.location == e.location
  {
    if IsBullet(line) then e.(highlights := e.highlights + [StripBullet(line)])
    else if e.position == [] then e.(position := line)
    else e
  }

  const ExperienceMachine: Machine<Experience> := Machine(IsExperienceStart, OpenExperience, AbsorbExperience)

  /** The experience entries of the section's lines. */
  function ParseExperience(lines: seq<string>): seq<Experience>
  {
    Entries(ExperienceMachine, lines)
  }

  /** A line that can become a position: not a bullet, not empty. */
  predicate IsPositionLine(line: string)
  {
    !IsBullet(line) && line != []
  }

  /** The entry of start line `head` and the lines `body` after it, stated
      without the loop: the position is the first position line of the
      body, and the highlights are its bullet lines, markers removed. */
  function BuildExperience(head: string, body: seq<string>): Experience
  {
    Experience(
      CompanyOf(head),
      FirstOr(Filter(IsPositionLine, body), []),
      [], [],
      IsCurrentLine(head),
      [],
      Map(StripBullet, Filter(IsBullet, body)))
  }

  /** Absorbing one more line into the described entry describes the
      entry of the longer body. */
  lemma AbsorbBuild(head: string, body: seq<string>, x: string)
    ensures AbsorbExperience(BuildExperience(head, body), x) == BuildExperience(head, body + [x])
  {
    var e := BuildExperience(head, body);
    var e' := BuildExperience(head, body + [x]);
    var F := Filter(IsPositionLine, body);
    var B := Filter(IsBullet, body);
    FilterSnoc(IsPositionLine, body, x);
    FilterSnoc(IsBullet, body, x);
    if IsBullet(x) {
      MapAppend(StripBullet, B, [x]);
      assert Map(StripBullet, [x]) == [StripBullet(x)];
      assert e'.highlights == e.highlights + [StripBullet(x)];
      assert e'.position == e.position;
    } else {
      assert e'.highlights == e.highlights;
      PositionSnoc(body, x);
    }
  }

  /** How the position of the description changes with one more non-bullet line. */
  lemma PositionSnoc(body: seq<string>, x: string)
    requires !IsBullet(x)
    ensures var p := FirstOr(Filter(IsPositionLine, body), []);
      FirstOr(Filter(IsPositionLine, body + [x]), []) == if p == [] then x else p
  {
    var F := Filter(IsPositionLine, body);
    FilterSnoc(IsPositionLine, body, x);
    if F != [] {
      assert IsPositionLine(F[0]);
      assert (F + (if IsPositionLine(x) then [x] else []))[0] == F[0];
    }
  }

  /** Absorbing the body line by line builds the entry `BuildExperience` describes. */
  lemma {:induction false} FillIsBuild(head: string, body: seq<string>)
    ensures Fill(ExperienceMachine, OpenExperience(head), body) == BuildExperience(head, body)
  {
    if body != [] {
      var pre, x := body[..|body| - 1], body[|body| - 1];
      assert body == pre + [x];
      FillIsBuild(head, pre);
      AbsorbBuild(head, pre, x);
    }
  }

  /** The experience entries described without the loop: one per start
      line, in order, entry `k` built from start line `S[k]` and the lines
      after it up to the next start line. */
  function DescribedExperience(lines: seq<string>): (r: seq<Experience>)
    ensures |r| == |Starts(IsExperienceStart, lines)|
  {
    var S := Starts(IsExperienceStart, lines);
    seq(|S|, k requires 0 <= k < |S| => BuildExperience(lines[S[k]], BlockBody(lines, S, k)))
  }

  /** The accumulator loop computes the described entries. */
  lemma ExperienceEntries(lines: seq<string>)
    ensures ParseExperience(lines) == DescribedExperience(lines)
  {
    var m := ExperienceMachine;
    EntriesAreBlocks(m, lines);
    var S := Starts(IsExperienceStart, lines);
    var bs, ds := Blocks(m, lines), DescribedExperience(lines);
    assert m.isStart == IsExperienceStart && m.open == OpenExperience;
    assert Starts(m.isStart, lines) == S;
    forall k | 0 <= k < |S| ensures bs[k] == ds[k] {
      var j := BlockEnd(S, k, |lines|);
      var body := lines[S[k] + 1..j];
      assert bs[k] == Block(m, lines, S[k], j);
      assert Block(m, lines, S[k], j) == Fill(m, OpenExperience(lines[S[k]]), body);
      FillIsBuild(lines[S[k]], body);
      assert ds[k] == BuildExperience(lines[S[k]], BlockBody(lines, S, k));
    }
  }

  /** There are as many entries as start lines, and entry `k` takes its
      company and current flag from the `k`-th start line; its dates and
      location stay empty. */
  lemma ExperienceHeads(lines: seq<string>)
    ensures |ParseExperience(lines)| == CountIf(IsExperienceStart, lines)
    ensures forall k :: 0 <= k < |ParseExperience(lines)| ==>
      var e, head := ParseExperience(lines)[k], Filter(IsExperienceStart, lines)[k];
      e.company == CompanyOf(head) && e.isCurrent == IsCurrentLine(head)
      && e.startDate == [] && e.endDate == [] && e.location == []
  {
    ExperienceEntries(lines);
    StartsAreFilter(IsExperienceStart, lines);
  }

  /** Lines before the first start line are dropped. */
  lemma LeadingExperienceLinesDropped(lead: seq<string>, rest: seq<string>)
    requires forall k :: 0 <= k < |lead| ==> !IsExperienceStart(lead[k])
    ensures ParseExperience(lead + rest) == ParseExperience(rest)
  {
    LeadingLinesIgnored(ExperienceMachine, lead, rest);
  }

  /** The date test is made before the bullet test: a bullet line that
      passes it starts a new entry instead of becoming a highlight. */
  lemma DateBeforeBullet(lines: seq<string>, line: string)
    requires IsExperienceStart(line)
    ensures ParseExperience(lines + [line]) == ParseExperience(lines) + [OpenExperience(line)]
  {
    assert (lines + [line])[..|lines|] == lines;
  }

  /** The company is the trimmed text before the first dash or bar, so it
      holds no dash or bar and no outer whitespace. */
  lemma CompanyHasNoDash(line: string)
    ensures forall k :: 0 <= k < |CompanyOf(line)| ==> !IsDash(CompanyOf(line)[k])
    ensures CompanyOf(line) == [] || (!IsSpace(CompanyOf(line)[0]) && !IsSpace(CompanyOf(line)[|CompanyOf(line)| - 1]))
  {
    var b := BeforeDash(line);
    var i := LeadLen(b);
    var j := i + |Trim(b)|;
    forall k | 0 <= k < |CompanyOf(line)| ensures !IsDash(CompanyOf(line)[k]) {
      assert CompanyOf(line)[k] == b[i + k];
    }
  }

  /** A start line with no dash or bar gives its whole trimmed self as the company. */
  lemma CompanyWithoutDash(line: string)
    requires forall k :: 0 <= k < |line| ==> !IsDash(line[k])
    ensures CompanyOf(line) == Trim(line)
  {
    WholeBeforeDash(line);
  }

  lemma {:induction false} WholeBeforeDash(line: string)
    requires forall k :: 0 <= k < |line| ==> !IsDash(line[k])
    ensures BeforeDash(line) == line
  {
    if line != [] {
      WholeBeforeDash(line[1..]);
    }
  }

  /** A year `20dd` makes a line date-like, whatever else it holds. */
  lemma HasYearAt(s: string, i: nat)
    requires i + 4 <= |s| && YearStart(s[i..])
    ensures HasYear(s)
    decreases i
  {
    if i > 0 {
      assert s[1..][i - 1..] == s[i..];
      HasYearAt(s[1..], i - 1);
    }
  }

  /** Lines that agree up to ASCII case agree on the year test. */
  lemma {:induction false} HasYearIgnoresCase(a: string, b: string)
    requires Lower(a) == Lower(b)
    ensures HasYear(a) == HasYear(b)
    decreases |a|
  {
    assert |a| == |Lower(a)| == |b|;
    assert forall k :: 0 <= k < |a| ==> LowerChar(a[k]) == LowerChar(b[k]);
    assert forall k :: 0 <= k < |a| && (IsDigit(a[k]) || IsDigit(b[k])) ==> a[k] == b[k];
    if a != [] {
      assert Lower(a[1..]) == Lower(b[1..]) by {
        assert Lower(a[1..]) == Lower(a)[1..];
        assert Lower(b[1..]) == Lower(b)[1..];
      }
      HasYearIgnoresCase(a[1..], b[1..]);
    }
  }

  /** The date test ignores ASCII case. */
  lemma DateTestIgnoresCase(a: string, b: string)
    requires Lower(a) == Lower(b)
    ensures IsDateLike(a) == IsDateLike(b)
  {
    HasYearIgnoresCase(a, b);
  }

  /** An entry with a title line and two bullets. */
  lemma TitleAndTwoBullets(h: string, t: string, b1: string, b2: string)
    requires IsPositionLine(t) && IsBullet(b1) && IsBullet(b2)
    ensures AbsorbExperience(AbsorbExperience(AbsorbExperience(OpenExperience(h), t), b1), b2)
      == Experience(CompanyOf(h), t, "", "", IsCurrentLine(h), "", [StripBullet(b1), StripBullet(b2)])
  {
    var e1 := AbsorbExperience(OpenExperience(h), t);
    var s1, s2 := StripBullet(b1), StripBullet(b2);
    var e2 := AbsorbExperience(e1, b1);
    var e3 := AbsorbExperience(e2, b2);
    assert e3.highlights == [s1, s2] by {
      assert e2.highlights == [s1];
      assert [s1] + [s2] == [s1, s2];
    }
  }

  /** The shape of a two-job section: a date line, a title, two bullets,
      another date line and a title give two entries, the bullets going to
      the first. */
  lemma TwoJobs(h1: string, p1: string, b1: string, b2: string, h2: string, p2: string)
    requires IsExperienceStart(h1) && IsExperienceStart(h2)
    requires !IsExperienceStart(p1) && !IsExperienceStart(p2)
    requires !IsExperienceStart(b1) && !IsExperienceStart(b2)
    requires IsBullet(b1) && IsBullet(b2)
    requires IsPositionLine(p1) && IsPositionLine(p2)
    ensures ParseExperience([h1, p1, b1, b2, h2, p2]) ==
      [ Experience(CompanyOf(h1), p1, "", "", IsCurrentLine(h1), "", [StripBullet(b1), StripBullet(b2)]),
        Experience(CompanyOf(h2), p2, "", "", IsCurrentLine(h2), "", []) ]
  {
    var m := ExperienceMachine;
    assert m.isStart == IsExperienceStart && m.open == OpenExperience && m.absorb == AbsorbExperience;
    TwoBlocksOfFour(m, h1, p1, b1, b2, h2, p2);
    TitleAndTwoBullets(h1, p1, b1, b2);
    assert AbsorbExperience(OpenExperience(h2), p2) == Experience(CompanyOf(h2), p2, "", "", IsCurrentLine(h2), "", []);
  }
}
