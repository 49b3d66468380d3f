/** `parseCVText`: the whole pipeline from one plain-text string to the CV
    record. The text is cut into trimmed, non-empty lines; the first email
    and the first phone number are taken from the lines joined back with
    line feeds; the first line is the name; the lines are routed to
    sections by their headers; and each section's lines are interpreted by
    the list splitter or the entry accumulators. Every other field keeps its
    default. */
module Parser {
  import opened Seqs
  import opened Text
  import opened Regex
  import opened Schema
  import opened Sections
  import opened Lists
  import opened ExperienceParser
  import opened EducationParser
  import opened Accumulator

  /** A normalised line: non-empty, trimmed, and free of line feeds. */
  predicate IsLine(x: string)
  {
    x != [] && IsTrimmed(x) && '\n' !in x
  }

  /** A trimmed piece of a split on line feeds is a line unless it is empty. */
  lemma TrimmedPiece(x: string)
    requires '\n' !in x && Trim(x) != []
    ensures IsLine(Trim(x))
  {
    var i := LeadLen(x);
    var j := i + |Trim(x)|;
    forall k | 0 <= k < j - i ensures Trim(x)[k] != '\n' {
      assert Trim(x)[k] == x[i + k];
    }
  }

  /** `text.split('\n').map(line => line.trim()).filter(line => line.length > 0)` */
  function NormalizeLines(text: string): (lines: seq<string>)
    ensures forall k :: 0 <= k < |lines| ==> IsLine(lines[k])
  {
    var pieces := SplitOn(text, '\n');
    var trimmed := TrimAll(pieces);
    var lines := Filter(NonEmpty, trimmed);
    assert forall k :: 0 <= k < |lines| ==> IsLine(lines[k]) by {
      forall k | 0 <= k < |lines| ensures IsLine(lines[k]) {
        assert lines[k] in trimmed;
        var i :| 0 <= i < |trimmed| && trimmed[i] == lines[k];
        TrimmedPiece(pieces[i]);
      }
    }
    lines
  }

  /** `lines.join('\n')`, the text the contact patterns are searched in. */
  function FullText(text: string): string
  {
    JoinOn(NormalizeLines(text), '\n')
  }

  /** The first line, which the parser takes as the name. */
  function FirstLine(lines: seq<string>): string
  {
    if |lines| > 0 then lines[0] else []
  }

  /** The segmentation pass over the normalised lines of `text`. */
  function SegmentText(text: string): Sections.Segmentation
  {
    var lines := NormalizeLines(text);
    Segment(StartState(FirstLine(lines)), lines)
  }

  /** The lines of `text` routed to section `s`. */
  function SectionLines(text: string, s: Section): seq<string>
  {
    Content(SegmentText(text), s)
  }

  /** `parseCVText(text)`. The summary, the projects, the certifications,
      the location and the links are never written, so they keep their
      defaults for every input. */
  function ParseCVText(text: string): (cv: CVData)
    ensures cv.summary == [] && cv.projects == [] && cv.certifications == []
    ensures cv.personalInfo.location == [] && cv.personalInfo.links == []
  {
    var full := FullText(text);
    var st := SegmentText(text);
    var init := InitialCVData();
    init.(
      personalInfo := init.personalInfo.(
        name := st.name,
        email := FirstMatchOrEmpty(EmailPattern, full),
        phone := FirstMatchOrEmpty(PhonePattern, full)),
      skills := Skills(Content(st, SkillsSection)),
      languages := Languages(Content(st, LanguagesSection)),
      experience := ParseExperience(Content(st, ExperienceSection)),
      education := ParseEducation(Content(st, EducationSection)))
  }

  /** Normalising the joined lines gives the same lines back. */
  lemma NormalizeStable(text: string)
    ensures NormalizeLines(FullText(text)) == NormalizeLines(text)
  {
    var lines := NormalizeLines(text);
    if lines == [] {
      assert FullText(text) == [];
      assert SplitOn([], '\n') == [[]];
      TrimAllSpace([]);
      assert TrimAll([[]]) == [[]];
    } else {
      SplitJoin(lines, '\n');
      TrimAllFixed(lines);
      FilterAll(NonEmpty, lines);
    }
  }

  /** Parsing is unchanged by normalising the text first. */
  lemma ParseNormalized(text: string)
    ensures ParseCVText(FullText(text)) == ParseCVText(text)
  {
    NormalizeStable(text);
  }

  /** Trimming and dropping empty pieces keeps every character that is not
      whitespace. */
  lemma {:induction false} PiecesCount(p: char -> bool, pieces: seq<string>)
    requires forall c :: p(c) ==> !IsSpace(c)
    ensures CountIf(p, Concat(Filter(NonEmpty, TrimAll(pieces)))) == CountIf(p, Concat(pieces))
  {
    if pieces != [] {
      var x, rest := pieces[0], pieces[1..];
      var t := Trim(x);
      PiecesCount(p, rest);
      var kept := if NonEmpty(t) then [t] else [];
      assert TrimAll(pieces) == [t] + TrimAll(rest);
      assert Filter(NonEmpty, TrimAll(pieces)) == kept + Filter(NonEmpty, TrimAll(rest));
      ConcatAppend(kept, Filter(NonEmpty, TrimAll(rest)));
      assert Concat(kept) == t by {
        if NonEmpty(t) {
          assert Concat([t]) == t + Concat([]);
        }
      }
      CountAppend(p, t, Concat(Filter(NonEmpty, TrimAll(rest))));
      CountAppend(p, x, Concat(rest));
      TrimKeepsCount(p, x);
    }
  }

  /** Splitting on line feeds keeps every character other than the line feed. */
  lemma SplitCount(p: char -> bool, text: string)
    requires !p('\n')
    ensures CountIf(p, Concat(SplitOn(text, '\n'))) == CountIf(p, text)
  {
    JoinSplit(text, '\n');
    JoinCount(p, SplitOn(text, '\n'), '\n');
  }

  /** The joined lines hold every non-whitespace character of the input,
      the same number of times. */
  lemma NormalizeCount(p: char -> bool, text: string)
    requires forall c :: p(c) ==> !IsSpace(c)
    ensures CountIf(p, FullText(text)) == CountIf(p, text)
  {
    assert !p('\n');
    SplitCount(p, text);
    JoinCount(p, NormalizeLines(text), '\n');
    PiecesCount(p, SplitOn(text, '\n'));
  }

  /** Joined lines that are not all absent hold a non-whitespace character. */
  lemma FirstLineShows(lines: seq<string>)
    requires lines != [] && IsLine(lines[0])
    ensures CountIf(NotSpace, JoinOn(lines, '\n')) >= 1
  {
    var x := lines[0];
    assert NotSpace(x[0]);
    CountFirst(NotSpace, x);
    if |lines| > 1 {
      CountAppend(NotSpace, x + ['\n'], JoinOn(lines[1..], '\n'));
      CountAppend(NotSpace, x, ['\n']);
    }
  }

  /** Text made only of whitespace has no lines. */
  lemma BlankHasNoLines(text: string)
    requires AllSpace(text)
    ensures NormalizeLines(text) == []
  {
    forall k | 0 <= k < |text| ensures !NotSpace(text[k]) {
    }
    CountNone(NotSpace, text);
    NormalizeCount(NotSpace, text);
    var lines := NormalizeLines(text);
    if lines != [] {
      FirstLineShows(lines);
    }
  }

  /** Text with no lines is made only of whitespace. */
  lemma NoLinesIsBlank(text: string)
    requires NormalizeLines(text) == []
    ensures AllSpace(text)
  {
    NormalizeCount(NotSpace, text);
    assert FullText(text) == [];
    CountZero(NotSpace, text);
  }

  /** Empty or whitespace-only input gives exactly the default record. */
  lemma BlankInputGivesDefault(text: string)
    requires AllSpace(text)
    ensures ParseCVText(text) == InitialCVData()
  {
    BlankHasNoLines(text);
    NoLinesGiveDefault(text);
  }

  /** Input without lines gives the default record. */
  lemma NoLinesGiveDefault(text: string)
    requires NormalizeLines(text) == []
    ensures ParseCVText(text) == InitialCVData()
  {
    assert FullText(text) == [];
    NothingMatchesEmpty(EmailPattern);
    NothingMatchesEmpty(PhonePattern);
    assert SegmentText(text) == StartState([]);
    EmptySectionsParse();
  }

  /** Sections without lines yield no entries. */
  lemma EmptySectionsParse()
    ensures Skills([]) == [] && Languages([]) == []
    ensures ParseExperience([]) == [] && ParseEducation([]) == []
  {
    assert SplitAll([], true) == [] && SplitAll([], false) == [];
    assert Run(ExperienceMachine, Initial(), []) == Initial();
    assert Run(EducationMachine, Initial(), []) == Initial();
  }

  /** The name is the first line, and it is empty exactly when the input is
      blank; the short-line fallback of the segmentation never fires. */
  lemma NameIsFirstLine(text: string)
    ensures NormalizeLines(text) != [] ==> ParseCVText(text).personalInfo.name == NormalizeLines(text)[0]
    ensures ParseCVText(text).personalInfo.name == [] <==> AllSpace(text)
  {
    var lines := NormalizeLines(text);
    if lines != [] {
      NameKept(StartState(lines[0]), lines);
      if AllSpace(text) {
        BlankHasNoLines(text);
      }
    } else {
      PreambleNameBlank(lines);
      NoLinesIsBlank(text);
    }
  }

  /** With no lines, the segmentation leaves the name empty. */
  lemma PreambleNameBlank(lines: seq<string>)
    requires lines == []
    ensures Segment(StartState(FirstLine(lines)), lines).name == []
  {
  }

  /** No email match is empty: each holds an `@`. */
  lemma EmailMatchNotEmpty()
    ensures !InAny(EmailPattern, [])
  {
    if InAny(EmailPattern, []) {
      EmailHasAt([]);
    }
  }

  /** No phone match is empty: each holds ten digits. */
  lemma PhoneMatchNotEmpty()
    ensures !InAny(PhonePattern, [])
  {
    if InAny(PhonePattern, []) {
      PhoneHasTenDigits([]);
    }
  }

  /** The email is the match a backtracking engine reports in the joined
      lines: the leftmost start, the first alternative that matches there,
      and that alternative's greatest runs (`Regex.ReportedUnique` shows
      this fixes both ends). It is empty exactly when nothing matches. */
  lemma EmailIsReportedMatch(text: string)
    ensures var full, m := FullText(text), ParseCVText(text).personalInfo.email;
      m != [] ==> exists s: nat, c: Choice :: Reported(EmailPattern, full, s, c) && s + Total(c.runs) <= |full|
                                             && m == full[s..s + Total(c.runs)]
    ensures var full, m := FullText(text), ParseCVText(text).personalInfo.email;
      m == [] <==> forall s :: 0 <= s <= |full| ==> NoMatchAt(EmailPattern, full, s)
  {
    EmailMatchNotEmpty();
    EmptyIffNoMatch(EmailPattern, FullText(text));
  }

  /** The phone number is the match a backtracking engine reports in the joined
      lines: the leftmost start, the first alternative that matches there,
      and that alternative's greatest runs (`Regex.ReportedUnique` shows
      this fixes both ends). It is empty exactly when nothing matches. */
  lemma PhoneIsReportedMatch(text: string)
    ensures var full, m := FullText(text), ParseCVText(text).personalInfo.phone;
      m != [] ==> exists s: nat, c: Choice :: Reported(PhonePattern, full, s, c) && s + Total(c.runs) <= |full|
                                             && m == full[s..s + Total(c.runs)]
    ensures var full, m := FullText(text), ParseCVText(text).personalInfo.phone;
      m == [] <==> forall s :: 0 <= s <= |full| ==> NoMatchAt(PhonePattern, full, s)
  {
    PhoneMatchNotEmpty();
    EmptyIffNoMatch(PhonePattern, FullText(text));
  }

  /** An email is only found in text that holds an `@`. */
  lemma EmailNeedsAt(text: string)
    ensures ParseCVText(text).personalInfo.email != [] ==> CountIf(IsAt, text) >= 1
  {
    forall w | InAny(EmailPattern, w) ensures CountIf(IsAt, w) >= 1 {
      EmailHasAt(w);
    }
    MatchCount(EmailPattern, FullText(text), IsAt, 1);
    NormalizeCount(IsAt, text);
  }

  /** A phone number is only found in text that holds ten digits. */
  lemma PhoneNeedsTenDigits(text: string)
    ensures ParseCVText(text).personalInfo.phone != [] ==> CountIf(IsDigit, text) >= 10
  {
    forall w | InAny(PhonePattern, w) ensures CountIf(IsDigit, w) >= 10 {
      PhoneHasTenDigits(w);
    }
    MatchCount(PhonePattern, FullText(text), IsDigit, 10);
    NormalizeCount(IsDigit, text);
  }

  /** The skills are the list items of the skills section's lines, each
      trimmed, longer than one unit, and free of delimiters and whitespace
      runs. */
  lemma SkillsOfText(text: string)
    ensures ParseCVText(text).skills == Skills(SectionLines(text, SkillsSection))
    ensures AllItems(ParseCVText(text).skills, true)
  {
    ItemsWellFormed(SectionLines(text, SkillsSection), true);
  }

  /** The languages are the list items of the languages section's lines;
      they are split on delimiters but not on whitespace runs. */
  lemma LanguagesOfText(text: string)
    ensures ParseCVText(text).languages == Languages(SectionLines(text, LanguagesSection))
    ensures AllItems(ParseCVText(text).languages, false)
  {
    ItemsWellFormed(SectionLines(text, LanguagesSection), false);
  }

  /** One experience entry per date line of the experience section, in
      order, each built from its block of lines. */
  lemma ExperienceOfText(text: string)
    ensures ParseCVText(text).experience == DescribedExperience(SectionLines(text, ExperienceSection))
    ensures |ParseCVText(text).experience| == CountIf(IsExperienceStart, SectionLines(text, ExperienceSection))
  {
    ExperienceEntries(SectionLines(text, ExperienceSection));
    ExperienceHeads(SectionLines(text, ExperienceSection));
  }

  /** One education entry per keyword line of the education section, in
      order, each built from its block of lines. */
  lemma EducationOfText(text: string)
    ensures ParseCVText(text).education == DescribedEducation(SectionLines(text, EducationSection))
    ensures |ParseCVText(text).education| == CountIf(IsEducationStart, SectionLines(text, EducationSection))
  {
    EducationEntries(SectionLines(text, EducationSection));
    EducationHeads(SectionLines(text, EducationSection));
  }

  /** Every line of a section is a normalised line of the input and never a
      header. */
  lemma SectionLinesFromInput(text: string, s: Section)
    ensures forall x :: x in SectionLines(text, s) ==> x in NormalizeLines(text) && HeaderOf(x).None?
  {
    var lines := NormalizeLines(text);
    ContentFromInput(StartState(FirstLine(lines)), lines, s);
    HeadersNeverContent(FirstLine(lines), lines, s);
  }
}
