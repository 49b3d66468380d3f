/** Section segmentation: the fixed, ordered header table, the header test,
    and the single pass that routes every non-header line to the section of
    the most recent header (and, before any header, offers it as a name). */
module Sections {
  import opened Seqs
  import opened Text

  datatype Section =
    | ExperienceSection
    | EducationSection
    | SkillsSection
    | ProjectsSection
    | LanguagesSection
    | CertificationsSection

  /** The table's iteration order: the first section whose header matches wins. */
  const TableOrder: seq<Section> :=
    [ExperienceSection, EducationSection, SkillsSection, ProjectsSection, LanguagesSection, CertificationsSection]

  /** The position of a section in the table. */
  function Rank(s: Section): (k: nat)
    ensures k < |TableOrder| && TableOrder[k] == s
  {
    match s
    case ExperienceSection => 0
    case EducationSection => 1
    case SkillsSection => 2
    case ProjectsSection => 3
    case LanguagesSection => 4
    case CertificationsSection => 5
  }

  /** The lower-case header strings that open each section. */
  function Headers(s: Section): seq<string>
  {
    match s
    case ExperienceSection => ["experience", "work history", "professional experience", "employment history"]
    case EducationSection => ["education", "academic background", "qualifications"]
    case SkillsSection => ["skills", "technical skills", "competencies", "expertise"]
    case ProjectsSection => ["projects", "personal projects", "portfolio"]
    case LanguagesSection => ["languages"]
    case CertificationsSection => ["certifications", "awards", "licenses"]
  }

  /** `lower === header || lower.startsWith(header + ":")` */
  predicate HeaderMatches(lower: string, header: string)
  {
    lower == header || StartsWith(lower, header + ":")
  }

  /** Some header of the list matches. */
  predicate AnyHeader(lower: string, headers: seq<string>)
  {
    exists k :: 0 <= k < |headers| && HeaderMatches(lower, headers[k])
  }

  /** The lower-cased line opens section `s`. */
  predicate OpensSection(line: string, s: Section)
  {
    AnyHeader(Lower(line), Headers(s))
  }

  /** `order[k]` is the first section of `order` that `line` opens. */
  predicate FirstOpenedAt(line: string, order: seq<Section>, k: int)
  {
    0 <= k < |order| && OpensSection(line, order[k])
    && forall j :: 0 <= j < k ==> !OpensSection(line, order[j])
  }

  /** The first section of `order` that `line` opens. */
  function FirstOpened(line: string, order: seq<Section>): (r: Option<Section>)
    ensures r.Some? ==> exists k :: FirstOpenedAt(line, order, k) && order[k] == r.value
    ensures r.None? ==> forall j :: 0 <= j < |order| ==> !OpensSection(line, order[j])
  {
    if order == [] then None
    else if OpensSection(line, order[0]) then
      assert FirstOpenedAt(line, order, 0);
      Some(order[0])
    else
      var r := FirstOpened(line, order[1..]);
      assert r.Some? ==> exists k :: FirstOpenedAt(line, order, k) && order[k] == r.value by {
        if r.Some? {
          var k :| FirstOpenedAt(line, order[1..], k) && order[1..][k] == r.value;
          FirstOpenedLater(line, order, k);
        }
      }
      assert r.None? ==> forall j :: 0 <= j < |order| ==> !OpensSection(line, order[j]) by {
        if r.None? {
          NoneOpenedLater(line, order);
        }
      }
      r
  }

  /** Past a first section the line does not open, the first opened section
      of the rest is the first opened one of the whole order. */
  lemma FirstOpenedLater(line: string, order: seq<Section>, k: int)
    requires order != [] && !OpensSection(line, order[0])
    requires FirstOpenedAt(line, order[1..], k)
    ensures FirstOpenedAt(line, order, k + 1) && order[k + 1] == order[1..][k]
  {
    forall j | 0 <= j < k + 1 ensures !OpensSection(line, order[j]) {
      if j > 0 {
        assert order[j] == order[1..][j - 1];
      }
    }
  }

  /** A line that opens neither the first section nor any of the rest opens
      none of the order. */
  lemma NoneOpenedLater(line: string, order: seq<Section>)
    requires order != [] && !OpensSection(line, order[0])
    requires forall j :: 0 <= j < |order[1..]| ==> !OpensSection(line, order[1..][j])
    ensures forall j :: 0 <= j < |order| ==> !OpensSection(line, order[j])
  {
    forall j | 0 < j < |order| ensures !OpensSection(line, order[j]) {
      assert order[j] == order[1..][j - 1];
    }
  }

  /** The section a line is a header of, if any: the first in table order
      among those it opens, and none when it opens no section. */
  function HeaderOf(line: string): (r: Option<Section>)
    ensures r.Some? ==> OpensSection(line, r.value)
    ensures r.Some? ==> forall t :: Rank(t) < Rank(r.value) ==> !OpensSection(line, t)
    ensures r.None? ==> forall t :: !OpensSection(line, t)
  {
    NoneInTable(line);
    FirstInTable(line);
    FirstOpened(line, TableOrder)
  }

  /** A line that opens no section of the table opens no section at all. */
  lemma NoneInTable(line: string)
    ensures FirstOpened(line, TableOrder).None? ==> forall t :: !OpensSection(line, t)
  {
    if FirstOpened(line, TableOrder).None? {
      forall t ensures !OpensSection(line, t) {
        assert TableOrder[Rank(t)] == t;
      }
    }
  }

  /** The section found first in the table is opened by no section of
      lower rank. */
  lemma FirstInTable(line: string)
    ensures FirstOpened(line, TableOrder).Some? ==>
      forall t :: Rank(t) < Rank(FirstOpened(line, TableOrder).value) ==> !OpensSection(line, t)
  {
    var r := FirstOpened(line, TableOrder);
    if r.Some? {
      var k :| FirstOpenedAt(line, TableOrder, k) && TableOrder[k] == r.value;
      assert Rank(r.value) == k;
      forall t | Rank(t) < Rank(r.value) ensures !OpensSection(line, t) {
        assert TableOrder[Rank(t)] == t;
      }
    }
  }

  /** No header contains a colon. */
  lemma HeadersHaveNoColon(s: Section, h: string)
    requires h in Headers(s)
    ensures ':' !in h
  {
    match s
    case ExperienceSection => NoColonInExperience(h);
    case EducationSection => NoColonInEducation(h);
    case SkillsSection => NoColonInSkills(h);
    case ProjectsSection => NoColonInProjects(h);
    case LanguagesSection => NoColonInLanguages(h);
    case CertificationsSection => NoColonInCertifications(h);
  }

  // One lemma per header list keeps each proof to the strings of one list.
  lemma NoColonInExperience(h: string) requires h in Headers(ExperienceSection) ensures ':' !in h {}
  lemma NoColonInEducation(h: string) requires h in Headers(EducationSection) ensures ':' !in h {}
  lemma NoColonInSkills(h: string) requires h in Headers(SkillsSection) ensures ':' !in h {}
  lemma NoColonInProjects(h: string) requires h in Headers(ProjectsSection) ensures ':' !in h {}
  lemma NoColonInLanguages(h: string) requires h in Headers(LanguagesSection) ensures ':' !in h {}
  lemma NoColonInCertifications(h: string) requires h in Headers(CertificationsSection) ensures ':' !in h {}

  /** When two headers match one line, the longer one has a colon where the
      shorter one ends. */
  lemma ColonWhereShorterEnds(lower: string, h1: string, h2: string)
    requires HeaderMatches(lower, h1) && HeaderMatches(lower, h2)
    requires |h1| < |h2|
    ensures ':' in h2
  {
    assert h2[|h1|] == lower[|h1|];
  }

  /** Two colon-free headers that both match one line are the same header. */
  lemma SameHeader(lower: string, h1: string, h2: string)
    requires ':' !in h1 && ':' !in h2
    requires HeaderMatches(lower, h1) && HeaderMatches(lower, h2)
    ensures h1 == h2
  {
    if |h1| < |h2| {
      ColonWhereShorterEnds(lower, h1, h2);
    } else if |h2| < |h1| {
      ColonWhereShorterEnds(lower, h2, h1);
    } else {
      assert h1 == lower[..|h1|] || h1 == lower;
      assert h2 == lower[..|h2|] || h2 == lower;
    }
  }

  /** The header lists of different sections share no header. */
  lemma HeaderListsDisjoint(s: Section, t: Section, h: string)
    requires h in Headers(s) && h in Headers(t)
    ensures s == t
  {
  }

  /** The table is unambiguous: no line opens two different sections, so
      the table-order tie-break never decides anything. */
  lemma NoLineOpensTwoSections(line: string, s: Section, t: Section)
    requires OpensSection(line, s) && OpensSection(line, t)
    ensures s == t
  {
    var lower := Lower(line);
    var k1 :| 0 <= k1 < |Headers(s)| && HeaderMatches(lower, Headers(s)[k1]);
    var k2 :| 0 <= k2 < |Headers(t)| && HeaderMatches(lower, Headers(t)[k2]);
    var h1, h2 := Headers(s)[k1], Headers(t)[k2];
    HeadersHaveNoColon(s, h1);
    HeadersHaveNoColon(t, h2);
    SameHeader(lower, h1, h2);
    HeaderListsDisjoint(s, t, h1);
  }

  /** The state of the segmentation pass: the current section (none before
      the first header), the lines collected per section (a section's list
      exists once a line has been routed to it), and the name guess. */
  datatype Segmentation = Segmentation(
    current: Option<Section>,
    content: map<Section, seq<string>>,
    name: string)

  /** The lines routed to `s` so far; an absent list reads as empty. */
  function Content(st: Segmentation, s: Section): seq<string>
  {
    if s in st.content then st.content[s] else []
  }

  /** One line of the segmentation loop. A header switches the current
      section and is not recorded; any other line is appended to the current
      section, or, before the first header, becomes the name when the name is
      still empty and the line is shorter than 50 UTF-16 units. */
  function SegmentStep(st: Segmentation, line: string): (r: Segmentation)
    ensures HeaderOf(line).Some? ==> r.current == HeaderOf(line) && r.content == st.content && r.name == st.name
    ensures HeaderOf(line).None? ==> r.current == st.current
    ensures HeaderOf(line).None? && st.current.Some? ==>
      r.name == st.name
      && Content(r, st.current.value) == Content(st, st.current.value) + [line]
      && forall t :: t != st.current.value ==> Content(r, t) == Content(st, t)
    ensures st.current.None? ==> r.content == st.content
    ensures st.name != [] ==> r.name == st.name
  {
    match HeaderOf(line)
    case Some(s) => st.(current := Some(s))
    case None =>
      match st.current
      case Some(s) => st.(content := st.content[s := Content(st, s) + [line]])
      case None =>
        if st.name == [] && Utf16Len(line) < 50 then st.(name := line) else st
  }

  /** The segmentation loop over `lines`, from state `st`. */
  function Segment(st: Segmentation, lines: seq<string>): Segmentation
  {
    if lines == [] then st else SegmentStep(Segment(st, lines[..|lines| - 1]), lines[|lines| - 1])
  }

  /** The state the loop starts in: no section, nothing collected. */
  function StartState(name: string): Segmentation
  {
    Segmentation(None, map[], name)
  }

  /** Running the loop over two stretches of lines in turn. */
  lemma {:induction false} SegmentAppend(st: Segmentation, a: seq<string>, b: seq<string>)
    ensures Segment(st, a + b) == Segment(Segment(st, a), b)
    decreases |b|
  {
    if b != [] {
      var b' := b[..|b| - 1];
      assert (a + b)[..|a + b| - 1] == a + b';
      assert (a + b)[|a + b| - 1] == b[|b| - 1];
      SegmentAppend(st, a, b');
    } else {
      assert a + b == a;
    }
  }

  /** A stretch without headers, met while section `s` is current, is
      appended to `s` and to no other section; the current section stays. */
  lemma {:induction false} BlockGoesToCurrent(st: Segmentation, block: seq<string>, s: Section)
    requires st.current == Some(s)
    requires forall k :: 0 <= k < |block| ==> HeaderOf(block[k]).None?
    ensures Segment(st, block).current == Some(s)
    ensures Content(Segment(st, block), s) == Content(st, s) + block
    ensures forall t :: t != s ==> Content(Segment(st, block), t) == Content(st, t)
    ensures Segment(st, block).name == st.name
    decreases |block|
  {
    if block != [] {
      var pre := block[..|block| - 1];
      var x := block[|block| - 1];
      BlockGoesToCurrent(st, pre, s);
      assert HeaderOf(x).None?;
      assert block == pre + [x];
      BlockStep(st, pre, x, s);
    }
  }

  /** The inductive step of `BlockGoesToCurrent`: one more line that is not
      a header. */
  lemma BlockStep(st: Segmentation, pre: seq<string>, x: string, s: Section)
    requires Segment(st, pre).current == Some(s) && HeaderOf(x).None?
    requires Content(Segment(st, pre), s) == Content(st, s) + pre
    requires forall t :: t != s ==> Content(Segment(st, pre), t) == Content(st, t)
    requires Segment(st, pre).name == st.name
    ensures Segment(st, pre + [x]).current == Some(s)
    ensures Content(Segment(st, pre + [x]), s) == Content(st, s) + (pre + [x])
    ensures forall t :: t != s ==> Content(Segment(st, pre + [x]), t) == Content(st, t)
    ensures Segment(st, pre + [x]).name == st.name
  {
    assert (pre + [x])[..|pre|] == pre;
    StepInCurrent(Segment(st, pre), x, s);
    assert Content(st, s) + pre + [x] == Content(st, s) + (pre + [x]);
  }

  /** A line that is not a header, met while `s` is current, is appended
      to `s` alone. */
  lemma StepInCurrent(st: Segmentation, x: string, s: Section)
    requires st.current == Some(s) && HeaderOf(x).None?
    ensures SegmentStep(st, x).current == Some(s) && SegmentStep(st, x).name == st.name
    ensures Content(SegmentStep(st, x), s) == Content(st, s) + [x]
    ensures forall t :: t != s ==> Content(SegmentStep(st, x), t) == Content(st, t)
  {
  }

  /** Routing: after a header of section `s` followed by lines that are not
      headers, those lines have been appended to `s`, every other section is
      as it was before the header, and `s` is the current section. */
  lemma SectionRouting(st: Segmentation, before: seq<string>, header: string, block: seq<string>, s: Section)
    requires HeaderOf(header) == Some(s)
    requires forall k :: 0 <= k < |block| ==> HeaderOf(block[k]).None?
    ensures Segment(st, before + [header] + block).current == Some(s)
    ensures Content(Segment(st, before + [header] + block), s) == Content(Segment(st, before), s) + block
    ensures forall t :: t != s ==> Content(Segment(st, before + [header] + block), t) == Content(Segment(st, before), t)
  {
    var pre := Segment(st, before);
    var mid := pre.(current := Some(s));
    assert Segment(st, before + [header]) == mid by {
      SegmentAppend(st, before, [header]);
      SegmentOne(pre, header);
    }
    SegmentAppend(st, before + [header], block);
    BlockGoesToCurrent(mid, block, s);
    assert forall t :: Content(mid, t) == Content(pre, t);
  }

  /** The loop over one line is one step. */
  lemma SegmentOne(st: Segmentation, x: string)
    ensures Segment(st, [x]) == SegmentStep(st, x)
  {
    assert [x][..0] == [];
  }

  /** Lines before the first header go to no section. */
  lemma {:induction false} PreambleGoesNowhere(name: string, lines: seq<string>)
    requires forall k :: 0 <= k < |lines| ==> HeaderOf(lines[k]).None?
    ensures Segment(StartState(name), lines).current == None
    ensures Segment(StartState(name), lines).content == map[]
  {
    if lines != [] {
      PreambleGoesNowhere(name, lines[..|lines| - 1]);
    }
  }

  /** A header line is never recorded as content of any section. */
  lemma {:induction false} HeadersNeverContent(name: string, lines: seq<string>, s: Section)
    ensures forall k :: 0 <= k < |Content(Segment(StartState(name), lines), s)| ==>
      HeaderOf(Content(Segment(StartState(name), lines), s)[k]).None?
  {
    if lines != [] {
      var pre := lines[..|lines| - 1];
      HeadersNeverContent(name, pre, s);
      StepAddsNoHeader(Segment(StartState(name), pre), lines[|lines| - 1], s);
    }
  }

  /** One step keeps header lines out of a section's content. */
  lemma StepAddsNoHeader(st: Segmentation, x: string, s: Section)
    requires forall k :: 0 <= k < |Content(st, s)| ==> HeaderOf(Content(st, s)[k]).None?
    ensures forall k :: 0 <= k < |Content(SegmentStep(st, x), s)| ==> HeaderOf(Content(SegmentStep(st, x), s)[k]).None?
  {
    var r := SegmentStep(st, x);
    if HeaderOf(x).None? && st.current == Some(s) {
      assert Content(r, s) == Content(st, s) + [x];
    } else {
      assert Content(r, s) == Content(st, s);
    }
  }

  /** Every line routed to a section is one of the input lines. */
  lemma {:induction false} ContentFromInput(st: Segmentation, lines: seq<string>, s: Section)
    ensures forall x :: x in Content(Segment(st, lines), s) ==> x in Content(st, s) || x in lines
  {
    if lines != [] {
      var pre, x := lines[..|lines| - 1], lines[|lines| - 1];
      ContentFromInput(st, pre, s);
      StepContentFrom(Segment(st, pre), x, s);
      forall y | y in Content(Segment(st, lines), s) && y != x && y !in Content(st, s) ensures y in lines {
        var k :| 0 <= k < |pre| && pre[k] == y;
        assert lines[k] == y;
      }
    }
  }

  /** One step adds at most its own line to a section's content. */
  lemma StepContentFrom(st: Segmentation, x: string, s: Section)
    ensures forall y :: y in Content(SegmentStep(st, x), s) ==> y in Content(st, s) || y == x
  {
    if HeaderOf(x).None? && st.current == Some(s) {
      assert Content(SegmentStep(st, x), s) == Content(st, s) + [x];
    } else {
      assert Content(SegmentStep(st, x), s) == Content(st, s);
    }
  }

  /** A name that is already set survives the whole pass. */
  lemma {:induction false} NameKept(st: Segmentation, lines: seq<string>)
    requires st.name != []
    ensures Segment(st, lines).name == st.name
  {
    if lines != [] {
      NameKept(st, lines[..|lines| - 1]);
    }
  }
}
