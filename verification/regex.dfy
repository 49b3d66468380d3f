/** The two contact-detail regular expressions of the parser, modelled as a
    backtracking matcher. Both patterns are sequences of greedy character-
    class repetitions; the phone pattern's optional leading group is
    expressed as two alternatives tried in order (with the group, then
    without), which is the order a backtracking engine explores them in.
    `MatchReps` is checked against a declarative description of the run
    lengths a match can take (`Runs`) and of the one the engine settles on
    (the greatest in `LexAtMost` order); `FirstMatchOrEmpty` reports the
    engine's choice at the leftmost start where any alternative matches, as
    `String.prototype.match` with the `g` flag reports first. */
module Regex {
  import opened Seqs
  import opened Text

  /** The character classes the two patterns use. */
  datatype CharClass =
    | EmailLocal      // [a-zA-Z0-9._%+-]
    | AtSign          // @
    | DomainChar      // [a-zA-Z0-9.-]
    | Dot             // \.
    | Letter          // [a-zA-Z]
    | Plus            // \+
    | Digit           // \d
    | PhoneSeparator  // [-.\s]
    | OpenParen       // \(
    | CloseParen      // \)

  predicate InClass(cls: CharClass, c: char)
  {
    match cls
    case EmailLocal => IsAsciiLetter(c) || IsDigit(c) || c in "._%+-"
    case AtSign => c == '@'
    case DomainChar => IsAsciiLetter(c) || IsDigit(c) || c == '.' || c == '-'
    case Dot => c == '.'
    case Letter => IsAsciiLetter(c)
    case Plus => c == '+'
    case Digit => IsDigit(c)
    case PhoneSeparator => c == '-' || c == '.' || IsSpace(c)
    case OpenParen => c == '('
    case CloseParen => c == ')'
  }

  /** Upper bound of a repetition: `{m,n}` or `{m,}`. */
  datatype Bound = AtMost(n: nat) | Unbounded

  /** A greedy repetition `cls{min,max}`. */
  datatype Rep = Rep(cls: CharClass, min: nat, max: Bound)

  predicate WithinMax(b: Bound, n: nat)
  {
    b.Unbounded? || n <= b.n
  }

  /** `u` is one admissible run of the repetition `r`. */
  predicate Fits(r: Rep, u: string)
  {
    r.min <= |u| && WithinMax(r.max, |u|) && forall k :: 0 <= k < |u| ==> InClass(r.cls, u[k])
  }

  /** The strings the repetition sequence `pat` matches as a whole. */
  ghost predicate InLang(pat: seq<Rep>, w: string)
    decreases |pat|
  {
    if pat == [] then w == []
    else exists c :: 0 <= c <= |w| && Fits(pat[0], w[..c]) && InLang(pat[1..], w[c..])
  }

  /** Some alternative of `alts` matches `w` as a whole. */
  ghost predicate InAny(alts: seq<seq<Rep>>, w: string)
  {
    exists a :: 0 <= a < |alts| && InLang(alts[a], w)
  }

  /** No alternative matches any substring of `t` starting at `i`. */
  ghost predicate NoMatchAt(alts: seq<seq<Rep>>, t: string, i: nat)
    requires i <= |t|
  {
    forall e :: i <= e <= |t| ==> !InAny(alts, t[i..e])
  }

  /** How many characters the repetition `r` consumes greedily at `t[i..]`:
      the longest run of class characters, capped at the upper bound. */
  function GreedyRun(r: Rep, t: string, i: nat): (n: nat)
    requires i <= |t|
    ensures i + n <= |t| && WithinMax(r.max, n)
    ensures forall k :: i <= k < i + n ==> InClass(r.cls, t[k])
    ensures i + n == |t| || !InClass(r.cls, t[i + n]) || (r.max.AtMost? && n == r.max.n)
    decreases |t| - i
  {
    if i == |t| || !InClass(r.cls, t[i]) || (r.max.AtMost? && r.max.n == 0) then 0
    else
      var rest := GreedyRun(Rep(r.cls, r.min, if r.max.AtMost? then AtMost(r.max.n - 1) else Unbounded), t, i + 1);
      1 + rest
  }

  /** Any admissible run of `r` at `i` is no longer than the greedy one. */
  lemma GreedyRunIsLongest(r: Rep, t: string, i: nat, c: nat)
    requires i + c <= |t|
    ensures Fits(r, t[i..i + c]) ==> c <= GreedyRun(r, t, i)
  {
  }

  /** A run of the first repetition followed by a match of the rest is a match. */
  lemma InLangCons(pat: seq<Rep>, t: string, i: nat, c: nat, e: nat)
    requires pat != [] && i + c <= e <= |t|
    requires Fits(pat[0], t[i..i + c]) && InLang(pat[1..], t[i + c..e])
    ensures InLang(pat, t[i..e])
  {
    var w := t[i..e];
    assert w[..c] == t[i..i + c];
    assert w[c..] == t[i + c..e];
  }

  /** A match splits into a run of the first repetition and a match of the rest. */
  lemma InLangUncons(pat: seq<Rep>, t: string, i: nat, e: nat) returns (c: nat)
    requires pat != [] && i <= e <= |t|
    requires InLang(pat, t[i..e])
    ensures i + c <= e && Fits(pat[0], t[i..i + c]) && InLang(pat[1..], t[i + c..e])
  {
    var w := t[i..e];
    c :| 0 <= c <= |w| && Fits(pat[0], w[..c]) && InLang(pat[1..], w[c..]);
    assert w[..c] == t[i..i + c];
    assert w[c..] == t[i + c..e];
  }

  /** `cs` gives one run length per repetition of `pat`, the runs laid end
      to end from `t[i]` and each admissible for its repetition: one way
      the whole pattern can match at `t[i]`. */
  ghost predicate Runs(pat: seq<Rep>, t: string, i: nat, cs: seq<nat>)
    decreases |pat|
  {
    |cs| == |pat| && i <= |t|
    && (pat != [] ==>
          i + cs[0] <= |t| && Fits(pat[0], t[i..i + cs[0]]) && Runs(pat[1..], t, i + cs[0], cs[1..]))
  }

  /** The number of characters the runs cover together. */
  function Total(cs: seq<nat>): nat
  {
    if cs == [] then 0 else cs[0] + Total(cs[1..])
  }

  /** `a` comes no later than `b` in the lexicographic order that ranks the
      first run highest: the order in which a backtracking engine whose
      repetitions are all greedy gives up run lengths, longest first. */
  predicate LexAtMost(a: seq<nat>, b: seq<nat>)
    requires |a| == |b|
  {
    a == [] || a[0] < b[0] || (a[0] == b[0] && LexAtMost(a[1..], b[1..]))
  }

  /** Two run vectors that each come no later than the other are equal. */
  lemma {:induction false} LexAntisymmetric(a: seq<nat>, b: seq<nat>)
    requires |a| == |b| && LexAtMost(a, b) && LexAtMost(b, a)
    ensures a == b
  {
    if a != [] {
      LexAntisymmetric(a[1..], b[1..]);
      assert a == [a[0]] + a[1..] && b == [b[0]] + b[1..];
    }
  }

  /** Runs of a pattern mark out a match of it. */
  lemma {:induction false} RunsInLang(pat: seq<Rep>, t: string, i: nat, cs: seq<nat>)
    requires Runs(pat, t, i, cs)
    ensures i + Total(cs) <= |t| && InLang(pat, t[i..i + Total(cs)])
    decreases |pat|
  {
    if pat == [] {
      assert t[i..i] == [];
    } else {
      RunsInLang(pat[1..], t, i + cs[0], cs[1..]);
      InLangCons(pat, t, i, cs[0], i + Total(cs));
    }
  }

  /** Every match of a pattern is marked out by runs. */
  lemma {:induction false} InLangRuns(pat: seq<Rep>, t: string, i: nat, e: nat) returns (cs: seq<nat>)
    requires i <= e <= |t| && InLang(pat, t[i..e])
    ensures Runs(pat, t, i, cs) && i + Total(cs) == e
    decreases |pat|
  {
    if pat == [] {
      cs := [];
    } else {
      var c := InLangUncons(pat, t, i, e);
      var rest := InLangRuns(pat[1..], t, i + c, e);
      cs := [c] + rest;
      assert cs[0] == c && cs[1..] == rest;
    }
  }

  /** A first run of `n` characters followed by the greatest runs of the
      rest are the greatest runs of `pat` whose first run is at most `n`. */
  lemma FirstRunTaken(pat: seq<Rep>, t: string, i: nat, n: nat, rest: seq<nat>)
    requires pat != [] && i + n <= |t| && Fits(pat[0], t[i..i + n])
    requires Runs(pat[1..], t, i + n, rest)
    requires forall cs :: Runs(pat[1..], t, i + n, cs) ==> LexAtMost(cs, rest)
    ensures Runs(pat, t, i, [n] + rest)
    ensures forall cs :: Runs(pat, t, i, cs) && cs[0] <= n ==> LexAtMost(cs, [n] + rest)
  {
    var top := [n] + rest;
    assert top[0] == n && top[1..] == rest;
    forall cs | Runs(pat, t, i, cs) && cs[0] <= n ensures LexAtMost(cs, top) {
      if cs[0] == n {
        assert Runs(pat[1..], t, i + n, cs[1..]);
      }
    }
  }

  /** When the rest cannot match after a first run of `n` characters, no
      runs of `pat` start with a run of `n`. */
  lemma FirstRunFails(pat: seq<Rep>, t: string, i: nat, n: nat, j: nat)
    requires pat != [] && j == i + n <= |t|
    requires forall cs :: !Runs(pat[1..], t, j, cs)
    ensures forall cs :: Runs(pat, t, i, cs) ==> cs[0] != n
  {
    forall cs | Runs(pat, t, i, cs) ensures cs[0] != n {
      assert !Runs(pat[1..], t, j, cs[1..]);
    }
  }

  /** Class characters within the bounds make an admissible run. */
  lemma RunFits(r: Rep, t: string, i: nat, n: nat)
    requires i + n <= |t| && r.min <= n && WithinMax(r.max, n)
    requires forall k :: i <= k < i + n ==> InClass(r.cls, t[k])
    ensures Fits(r, t[i..i + n])
  {
    var u := t[i..i + n];
    forall k | 0 <= k < |u| ensures InClass(r.cls, u[k]) {
      assert u[k] == t[i + k];
    }
  }

  /** The backtracking match of `pat` anchored at `t[i]`, as the run length
      each repetition took. Every repetition tries its longest run first and
      gives back one character at a time, so the runs found are the greatest
      of all runs of `pat` at `t[i]` in `LexAtMost` order; there are none
      exactly when the engine fails. */
  function MatchReps(pat: seq<Rep>, t: string, i: nat): (r: Option<seq<nat>>)
    requires i <= |t|
    ensures r.Some? ==> Runs(pat, t, i, r.value)
    ensures r.Some? ==> forall cs :: Runs(pat, t, i, cs) ==> LexAtMost(cs, r.value)
    ensures r.None? ==> forall cs :: !Runs(pat, t, i, cs)
    decreases |pat|, 1, 0
  {
    if pat == [] then Some([])
    else
      var n := GreedyRun(pat[0], t, i);
      assert forall cs :: Runs(pat, t, i, cs) ==> cs[0] <= n by {
        forall cs | Runs(pat, t, i, cs) ensures cs[0] <= n {
          GreedyRunIsLongest(pat[0], t, i, cs[0]);
        }
      }
      if n < pat[0].min then None
      else TryCounts(pat, t, i, n)
  }

  /** Backtracking over the run length of `pat[0]`: try `n` characters,
      then `n - 1`, down to the repetition's minimum, and keep the first
      length after which the rest of the pattern matches. */
  function TryCounts(pat: seq<Rep>, t: string, i: nat, n: nat): (r: Option<seq<nat>>)
    requires pat != [] && i + n <= |t|
    requires pat[0].min <= n && WithinMax(pat[0].max, n)
    requires forall k :: i <= k < i + n ==> InClass(pat[0].cls, t[k])
    ensures r.Some? ==> Runs(pat, t, i, r.value) && r.value[0] <= n
    ensures r.Some? ==> forall cs :: Runs(pat, t, i, cs) && cs[0] <= n ==> LexAtMost(cs, r.value)
    ensures r.None? ==> forall cs :: Runs(pat, t, i, cs) ==> n < cs[0]
    decreases |pat|, 0, n
  {
    match MatchReps(pat[1..], t, i + n)
    case Some(rest) =>
      RunFits(pat[0], t, i, n);
      FirstRunTaken(pat, t, i, n, rest);
      Some([n] + rest)
    case None =>
      FirstRunFails(pat, t, i, n, i + n);
      if n == pat[0].min then None
      else TryCounts(pat, t, i, n - 1)
  }

  /** The alternative the engine commits to, and the runs it found. */
  datatype Choice = Choice(alt: nat, runs: seq<nat>)

  /** `c` is what a backtracking engine settles on at `t[i]` for the
      alternatives `alts`, tried in order: the first alternative that can
      match there, with its greatest runs. */
  ghost predicate ChosenAt(alts: seq<seq<Rep>>, t: string, i: nat, c: Choice)
  {
    c.alt < |alts| && Runs(alts[c.alt], t, i, c.runs)
    && (forall b, cs :: 0 <= b < c.alt ==> !Runs(alts[b], t, i, cs))
    && (forall cs :: Runs(alts[c.alt], t, i, cs) ==> LexAtMost(cs, c.runs))
  }

  /** A choice among the later alternatives, when the first cannot match,
      is the choice among all of them. */
  lemma ChoiceShift(alts: seq<seq<Rep>>, t: string, i: nat, c: Choice)
    requires alts != [] && forall cs :: !Runs(alts[0], t, i, cs)
    requires ChosenAt(alts[1..], t, i, c)
    ensures ChosenAt(alts, t, i, Choice(c.alt + 1, c.runs))
  {
    assert alts[c.alt + 1] == alts[1..][c.alt];
    forall b, cs | 0 <= b < c.alt + 1 ensures !Runs(alts[b], t, i, cs) {
      if b > 0 {
        assert alts[b] == alts[1..][b - 1];
      }
    }
  }

  /** The engine's choice at `t[i]`, or nothing when no alternative can match. */
  function MatchAt(alts: seq<seq<Rep>>, t: string, i: nat): (r: Option<Choice>)
    requires i <= |t|
    ensures r.Some? ==> ChosenAt(alts, t, i, r.value)
    ensures r.None? ==> forall a, cs :: 0 <= a < |alts| ==> !Runs(alts[a], t, i, cs)
  {
    if alts == [] then None
    else
      match MatchReps(alts[0], t, i)
      case Some(cs) => Some(Choice(0, cs))
      case None =>
        match MatchAt(alts[1..], t, i)
        case Some(c) =>
          ChoiceShift(alts, t, i, c);
          Some(Choice(c.alt + 1, c.runs))
        case None =>
          assert forall a, cs :: 0 <= a < |alts| ==> !Runs(alts[a], t, i, cs) by {
            forall a, cs | 0 < a < |alts| ensures !Runs(alts[a], t, i, cs) {
              assert alts[a] == alts[1..][a - 1];
            }
          }
          None
  }

  /** What the engine settles on is a match of the chosen alternative. */
  lemma ChoiceMatches(alts: seq<seq<Rep>>, t: string, i: nat, c: Choice)
    requires ChosenAt(alts, t, i, c)
    ensures i + Total(c.runs) <= |t| && InAny(alts, t[i..i + Total(c.runs)])
  {
    RunsInLang(alts[c.alt], t, i, c.runs);
  }

  /** Where no alternative has runs, no substring starting there matches. */
  lemma NoRunsNoMatch(alts: seq<seq<Rep>>, t: string, i: nat)
    requires i <= |t|
    requires forall a, cs :: 0 <= a < |alts| ==> !Runs(alts[a], t, i, cs)
    ensures NoMatchAt(alts, t, i)
  {
    forall e | i <= e <= |t| && InAny(alts, t[i..e]) ensures false {
      var a :| 0 <= a < |alts| && InLang(alts[a], t[i..e]);
      var cs := InLangRuns(alts[a], t, i, e);
    }
  }

  /** The leftmost position at or after `i` where the engine finds a
      match, with its choice there. */
  function FirstMatchFrom(alts: seq<seq<Rep>>, t: string, i: nat): (r: Option<(nat, Choice)>)
    requires i <= |t|
    ensures r.Some? ==> i <= r.value.0 <= |t| && ChosenAt(alts, t, r.value.0, r.value.1)
    ensures r.Some? ==> forall s :: i <= s < r.value.0 ==> NoMatchAt(alts, t, s)
    ensures r.None? ==> forall s :: i <= s <= |t| ==> NoMatchAt(alts, t, s)
    decreases |t| - i
  {
    match MatchAt(alts, t, i)
    case Some(c) => Some((i, c))
    case None =>
      NoRunsNoMatch(alts, t, i);
      if i == |t| then None else FirstMatchFrom(alts, t, i + 1)
  }

  /** The match `t.match(re)[0]` reports: nothing matches before `s`, and
      at `s` the engine settles on `c`. */
  ghost predicate Reported(alts: seq<seq<Rep>>, t: string, s: nat, c: Choice)
  {
    s <= |t| && ChosenAt(alts, t, s, c) && forall s' :: 0 <= s' < s ==> NoMatchAt(alts, t, s')
  }

  /** The engine finds no match before a reported start. */
  lemma NoEarlierChoice(alts: seq<seq<Rep>>, t: string, s1: nat, c1: Choice, s2: nat, c2: Choice)
    requires s1 <= |t| && ChosenAt(alts, t, s1, c1) && Reported(alts, t, s2, c2)
    ensures s2 <= s1
  {
    ChoiceMatches(alts, t, s1, c1);
    assert s1 < s2 ==> NoMatchAt(alts, t, s1);
  }

  /** What the engine reports is determined by the text: two reports agree
      on the start, the alternative and every run. */
  lemma ReportedUnique(alts: seq<seq<Rep>>, t: string, s1: nat, c1: Choice, s2: nat, c2: Choice)
    requires Reported(alts, t, s1, c1) && Reported(alts, t, s2, c2)
    ensures s1 == s2 && c1 == c2
  {
    NoEarlierChoice(alts, t, s1, c1, s2, c2);
    NoEarlierChoice(alts, t, s2, c2, s1, c1);
    assert c1.alt == c2.alt;
    LexAntisymmetric(c1.runs, c2.runs);
  }

  /** `(t.match(re) || [""])[0]` for a global regex: the reported match, or
      the empty string when nothing matches anywhere. */
  function FirstMatchOrEmpty(alts: seq<seq<Rep>>, t: string): (m: string)
    ensures (m == [] && forall s :: 0 <= s <= |t| ==> NoMatchAt(alts, t, s))
         || exists s: nat, c: Choice :: Reported(alts, t, s, c) && s + Total(c.runs) <= |t|
                                          && m == t[s..s + Total(c.runs)]
  {
    match FirstMatchFrom(alts, t, 0)
    case Some((s, c)) =>
      ChoiceMatches(alts, t, s, c);
      assert Reported(alts, t, s, c);
      t[s..s + Total(c.runs)]
    case None => []
  }

  /** The empty text yields the empty string. */
  lemma NothingMatchesEmpty(alts: seq<seq<Rep>>)
    ensures FirstMatchOrEmpty(alts, []) == []
  {
  }

  /** For patterns that never match the empty string, the result is empty
      exactly when no substring of `t` matches. */
  lemma EmptyIffNoMatch(alts: seq<seq<Rep>>, t: string)
    requires !InAny(alts, [])
    ensures FirstMatchOrEmpty(alts, t) == [] <==> forall s :: 0 <= s <= |t| ==> NoMatchAt(alts, t, s)
  {
    var m := FirstMatchOrEmpty(alts, t);
    if exists s: nat, c: Choice :: Reported(alts, t, s, c) && s + Total(c.runs) <= |t|
                                   && m == t[s..s + Total(c.runs)] {
      var s: nat, c: Choice :| Reported(alts, t, s, c) && s + Total(c.runs) <= |t|
                               && m == t[s..s + Total(c.runs)];
      ChoiceMatches(alts, t, s, c);
      assert !NoMatchAt(alts, t, s);
      assert m != [];
    }
  }

  /** When every match holds at least `n` characters satisfying `p`, so
      does any text in which a match is found. */
  lemma MatchCount(alts: seq<seq<Rep>>, t: string, p: char -> bool, n: nat)
    requires forall w :: InAny(alts, w) ==> CountIf(p, w) >= n
    ensures FirstMatchOrEmpty(alts, t) != [] ==> CountIf(p, t) >= n
  {
    var m := FirstMatchOrEmpty(alts, t);
    if m != [] {
      var s: nat, c: Choice :| Reported(alts, t, s, c) && s + Total(c.runs) <= |t|
                               && m == t[s..s + Total(c.runs)];
      ChoiceMatches(alts, t, s, c);
      CountSlice(p, t, s, s + Total(c.runs));
    }
  }

  /** `/[a-zA-Z0-9._%+-]+@[a-zA-Z0-9.-]+\.[a-zA-Z]{2,}/g` */
  const EmailPattern: seq<seq<Rep>> :=
    [[Rep(EmailLocal, 1, Unbounded), Rep(AtSign, 1, AtMost(1)), Rep(DomainChar, 1, Unbounded),
      Rep(Dot, 1, AtMost(1)), Rep(Letter, 2, Unbounded)]]

  /** The optional group `(\+?\d{1,3}[-.\s]?)` of the phone pattern. */
  const PhonePrefix: seq<Rep> :=
    [Rep(Plus, 0, AtMost(1)), Rep(Digit, 1, AtMost(3)), Rep(PhoneSeparator, 0, AtMost(1))]

  /** `\(?\d{3}\)?[-.\s]?\d{3}[-.\s]?\d{4,6}` */
  const PhoneBody: seq<Rep> :=
    [Rep(OpenParen, 0, AtMost(1)), Rep(Digit, 3, AtMost(3)), Rep(CloseParen, 0, AtMost(1)),
     Rep(PhoneSeparator, 0, AtMost(1)), Rep(Digit, 3, AtMost(3)), Rep(PhoneSeparator, 0, AtMost(1)),
     Rep(Digit, 4, AtMost(6))]

  /** `/(\+?\d{1,3}[-.\s]?)?\(?\d{3}\)?[-.\s]?\d{3}[-.\s]?\d{4,6}/g`: the greedy
      optional group is tried before skipping it. */
  const PhonePattern: seq<seq<Rep>> := [PhonePrefix + PhoneBody, PhoneBody]

  /** The sum of the minimum run lengths of the repetitions of class `cls`. */
  function MinOf(pat: seq<Rep>, cls: CharClass): nat
  {
    if pat == [] then 0 else (if pat[0].cls == cls then pat[0].min else 0) + MinOf(pat[1..], cls)
  }

  /** A matched string holds at least as many characters of a class as the
      pattern's repetitions of that class demand. */
  lemma {:induction false} LangCount(pat: seq<Rep>, w: string, cls: CharClass, p: char -> bool)
    requires InLang(pat, w)
    requires forall c :: InClass(cls, c) ==> p(c)
    ensures CountIf(p, w) >= MinOf(pat, cls)
    decreases |pat|
  {
    if pat != [] {
      var c :| 0 <= c <= |w| && Fits(pat[0], w[..c]) && InLang(pat[1..], w[c..]);
      LangCount(pat[1..], w[c..], cls, p);
      assert w == w[..c] + w[c..];
      CountAppend(p, w[..c], w[c..]);
      if pat[0].cls == cls {
        var u := w[..c];
        forall k | 0 <= k < |u| ensures p(u[k]) {
          assert InClass(cls, u[k]);
        }
        CountAll(p, u);
      }
    }
  }

  predicate IsAt(c: char)
  {
    c == '@'
  }

  /** Every email match contains an `@`. */
  lemma EmailHasAt(w: string)
    requires InAny(EmailPattern, w)
    ensures CountIf(IsAt, w) >= 1
  {
    var a :| 0 <= a < |EmailPattern| && InLang(EmailPattern[a], w);
    assert MinOf(EmailPattern[0][2..], AtSign) == 0;
    assert MinOf(EmailPattern[0][1..], AtSign) == 1;
    assert MinOf(EmailPattern[0], AtSign) == 1;
    LangCount(EmailPattern[0], w, AtSign, IsAt);
  }

  /** Both phone alternatives demand at least ten digits. */
  lemma PhoneDigitMinimum()
    ensures MinOf(PhonePattern[0], Digit) >= 10 && MinOf(PhonePattern[1], Digit) >= 10
  {
    assert MinOf(PhoneBody[6..], Digit) == 4;
    assert MinOf(PhoneBody[4..], Digit) == 7;
    assert MinOf(PhoneBody, Digit) == 10;
    var full := PhonePrefix + PhoneBody;
    assert full[3..] == PhoneBody;
    assert MinOf(full[2..], Digit) == 10;
    assert MinOf(full[1..], Digit) == 11;
    assert MinOf(full, Digit) == 11;
    assert PhonePattern[0] == full && PhonePattern[1] == PhoneBody;
  }

  /** Every phone match contains at least ten digits. */
  lemma PhoneHasTenDigits(w: string)
    requires InAny(PhonePattern, w)
    ensures CountIf(IsDigit, w) >= 10
  {
    var a :| 0 <= a < |PhonePattern| && InLang(PhonePattern[a], w);
    PhoneDigitMinimum();
    if a == 0 {
      LangCount(PhonePattern[0], w, Digit, IsDigit);
    } else {
      LangCount(PhonePattern[1], w, Digit, IsDigit);
    }
  }
}
