/** The education section: a line naming a kind of institution or degree
    (in any case) starts an entry and is its institution; the first line
    after it that does not start an entry becomes its degree. */
module EducationParser {
  import opened Seqs
  import opened Text
  import opened Schema
  import opened Accumulator

  /** The alternatives of `/(University|College|...|PhD)/i`, lower-cased. */
  const Keywords: seq<string> :=
    ["university", "college", "institute", "school", "degree", "bachelor", "master", "phd"]

  /** A line that starts an education entry. As for the date test, the
      regex's case-insensitivity is exactly ASCII lower-casing. */
  predicate IsEducationStart(line: string)
  {
    ContainsAny(Lower(line), Keywords)
  }

  /** The entry a keyword line opens: the whole line is the institution. */
  function OpenEducation(line: string): Education
  {
    Education(line, "", "", "", "", "")
  }

  /** A following line becomes the degree while the degree is empty. */
  function AbsorbEducation(e: Education, line: string): (r: Education)
    ensures r.institution == e.institution && r.fieldOfStudy == e.fieldOfStudy
    ensures r.startDate == e.startDate && r.endDate == e.endDate && r.description == e.description
  {
    if e.degree == [] then e.(degree := line) else e
  }

  const EducationMachine: Machine<Education> := Machine(IsEducationStart, OpenEducation, AbsorbEducation)

  /** The education entries of the section's lines. */
  function ParseEducation(lines: seq<string>): seq<Education>
  {
    Entries(EducationMachine, lines)
  }

  /** The entry of keyword line `head` and the lines `body` after it, stated
      without the loop: the degree is the first non-empty line of the body. */
  function BuildEducation(head: string, body: seq<string>): Education
  {
    Education(head, FirstOr(Filter(NonEmpty, body), []), [], [], [], [])
  }

  /** Absorbing one more line into the described entry describes the entry
      of the longer body. */
  lemma AbsorbBuild(head: string, body: seq<string>, x: string)
    ensures AbsorbEducation(BuildEducation(head, body), x) == BuildEducation(head, body + [x])
  {
    var F := Filter(NonEmpty, body);
    FilterSnoc(NonEmpty, body, x);
    if F != [] {
      assert NonEmpty(F[0]);
      assert (F + (if NonEmpty(x) then [x] else []))[0] == F[0];
    }
  }

  /** Absorbing the body line by line builds the entry `BuildEducation` describes. */
  lemma {:induction false} FillIsBuild(head: string, body: seq<string>)
    ensures Fill(EducationMachine, OpenEducation(head), body) == BuildEducation(head, body)
  {
    if body != [] {
      var pre, x := body[..|body| - 1], body[|body| - 1];
      assert body == pre + [x];
      FillIsBuild(head, pre);
      AbsorbBuild(head, pre, x);
    }
  }

  /** The education entries described without the loop: one per keyword
      line, in order, entry `k` built from keyword line `S[k]` and the lines
      after it up to the next keyword line. */
  function DescribedEducation(lines: seq<string>): (r: seq<Education>)
    ensures |r| == |Starts(IsEducationStart, lines)|
  {
    var S := Starts(IsEducationStart, lines);
    seq(|S|, k requires 0 <= k < |S| => BuildEducation(lines[S[k]], BlockBody(lines, S, k)))
  }

  /** The accumulator loop computes the described entries. */
  lemma EducationEntries(lines: seq<string>)
    ensures ParseEducation(lines) == DescribedEducation(lines)
  {
    var m := EducationMachine;
    EntriesAreBlocks(m, lines);
    var S := Starts(IsEducationStart, lines);
    var bs, ds := Blocks(m, lines), DescribedEducation(lines);
    assert m.isStart == IsEducationStart && m.open == OpenEducation;
    assert Starts(m.isStart, lines) == S;
    forall k | 0 <= k < |S| ensures bs[k] == ds[k] {
      var j := BlockEnd(S, k, |lines|);
      var body := lines[S[k] + 1..j];
      assert bs[k] == Block(m, lines, S[k], j);
      assert Block(m, lines, S[k], j) == Fill(m, OpenEducation(lines[S[k]]), body);
      FillIsBuild(lines[S[k]], body);
      assert ds[k] == BuildEducation(lines[S[k]], BlockBody(lines, S, k));
    }
  }

  /** There are as many entries as keyword lines, entry `k`'s institution is
      the `k`-th keyword line, and its other fields but the degree stay empty. */
  lemma EducationHeads(lines: seq<string>)
    ensures |ParseEducation(lines)| == CountIf(IsEducationStart, lines)
    ensures forall k :: 0 <= k < |ParseEducation(lines)| ==>
      var e := ParseEducation(lines)[k];
      e.institution == Filter(IsEducationStart, lines)[k]
      && e.fieldOfStudy == [] && e.startDate == [] && e.endDate == [] && e.description == []
  {
    EducationEntries(lines);
    StartsAreFilter(IsEducationStart, lines);
  }

  /** Every degree is a line of the section that is not a keyword line, and
      it follows its entry's keyword line before the next one. */
  lemma DegreeFromBlock(lines: seq<string>, k: nat)
    requires k < |Starts(IsEducationStart, lines)|
    ensures |ParseEducation(lines)| == |Starts(IsEducationStart, lines)|
    ensures var S := Starts(IsEducationStart, lines);
      var d := ParseEducation(lines)[k].degree;
      d == [] || (d in BlockBody(lines, S, k) && !IsEducationStart(d))
  {
    EducationEntries(lines);
    var S := Starts(IsEducationStart, lines);
    var body := BlockBody(lines, S, k);
    var F := Filter(NonEmpty, body);
    if F != [] {
      BodyHasNoStart(IsEducationStart, lines, k, F[0]);
    }
  }

  /** Lines before the first keyword line are dropped. */
  lemma LeadingEducationLinesDropped(lead: seq<string>, rest: seq<string>)
    requires forall k :: 0 <= k < |lead| ==> !IsEducationStart(lead[k])
    ensures ParseEducation(lead + rest) == ParseEducation(rest)
  {
    LeadingLinesIgnored(EducationMachine, lead, rest);
  }

  /** The education keyword test ignores ASCII case. */
  lemma EducationTestIgnoresCase(a: string, b: string)
    requires Lower(a) == Lower(b)
    ensures IsEducationStart(a) == IsEducationStart(b)
  {
  }
}
