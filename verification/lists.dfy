/** The skills and languages lists: every line of the section is split on
    `,`, `|` and `•` (skills also on runs of two or more whitespace
    characters), the pieces are trimmed, and pieces of at most one UTF-16
    unit are dropped. Order and duplicates are kept. */
module Lists {
  import opened Seqs
  import opened Text

  /** The one-character delimiters `[,|•]`. */
  predicate IsListDelimiter(c: char)
  {
    c == ',' || c == '|' || c == '\U{2022}'
  }

  /** The length of the whitespace run that starts `s`. */
  function SpaceRun(s: string): (n: nat)
    ensures n <= |s| && AllSpace(s[..n])
    ensures n == |s| || !IsSpace(s[n])
  {
    if s != [] && IsSpace(s[0]) then
      var n := 1 + SpaceRun(s[1..]);
      assert s[..n] == [s[0]] + s[1..][..n - 1];
      n
    else 0
  }

  /** The pieces of a split together with the separators found between them. */
  datatype Split = Split(pieces: seq<string>, seps: seq<string>)

  /** A separator the split recognises: one delimiter character, or (when
      splitting on whitespace runs) two or more whitespace characters. */
  predicate IsSeparator(sep: string, runs: bool)
  {
    (|sep| == 1 && IsListDelimiter(sep[0])) || (runs && |sep| >= 2 && AllSpace(sep))
  }

  /** No delimiter character and, when splitting on whitespace runs, no two
      adjacent whitespace characters. */
  predicate Clean(x: string, runs: bool)
  {
    && (forall k :: 0 <= k < |x| ==> !IsListDelimiter(x[k]))
    && (runs ==> forall k :: 0 < k < |x| ==> !(IsSpace(x[k - 1]) && IsSpace(x[k])))
  }

  /** The pieces laid out with the separators between them. */
  function Interleave(pieces: seq<string>, seps: seq<string>): string
    requires |pieces| == |seps| + 1
  {
    if seps == [] then pieces[0] else pieces[0] + seps[0] + Interleave(pieces[1..], seps[1..])
  }

  predicate AllClean(pieces: seq<string>, runs: bool)
  {
    forall k :: 0 <= k < |pieces| ==> Clean(pieces[k], runs)
  }

  predicate AllSeparators(seps: seq<string>, runs: bool)
  {
    forall k :: 0 <= k < |seps| ==> IsSeparator(seps[k], runs)
  }

  predicate SpaceAtStart(x: string)
  {
    x != [] && IsSpace(x[0])
  }

  predicate SpaceAtEnd(x: string)
  {
    x != [] && IsSpace(x[|x| - 1])
  }

  /** Every whitespace separator is a whole run: no whitespace on either
      side of it, and no second whitespace separator straight after it. */
  predicate WholeRuns(pieces: seq<string>, seps: seq<string>)
    requires |pieces| == |seps| + 1
  {
    forall k :: 0 <= k < |seps| && AllSpace(seps[k]) ==>
      && !SpaceAtEnd(pieces[k]) && !SpaceAtStart(pieces[k + 1])
      && (pieces[k + 1] == [] && k + 1 < |seps| ==> !AllSpace(seps[k + 1]))
  }

  /** What a split of `s` must satisfy: clean pieces, genuine separators,
      each whitespace separator a whole run, and together they give `s`.
      `TokenizeUnique` shows only one split satisfies it. */
  predicate SplitsAs(q: Split, s: string, runs: bool)
  {
    && |q.pieces| == |q.seps| + 1
    && AllClean(q.pieces, runs) && AllSeparators(q.seps, runs)
    && WholeRuns(q.pieces, q.seps)
    && Interleave(q.pieces, q.seps) == s
  }

  /** `line.split(/[,|•]|\s{2,}/)` when `runs` holds, `line.split(/[,|•]/)`
      otherwise. Scanning left to right, a delimiter character ends the
      current piece; with `runs`, so does a whitespace character followed by
      another, the whole run being the separator. The pieces are clean, the
      separators are genuine, every whitespace separator is a whole run, and
      putting them back together gives `s`. */
  function Tokenize(s: string, runs: bool): (r: Split)
    ensures SplitsAs(r, s, runs)
    ensures |r.pieces[0]| <= |s| && r.pieces[0] == s[..|r.pieces[0]|]
    decreases |s|
  {
    if s == [] then Split([[]], [])
    else if IsListDelimiter(s[0]) then
      assert [s[0]] + s[1..] == s;
      Cut([s[0]], s[1..], Tokenize(s[1..], runs), runs)
    else if runs && |s| >= 2 && IsSpace(s[0]) && IsSpace(s[1]) then
      var n := SpaceRun(s);
      assert s[..n] + s[n..] == s;
      assert n < |s| ==> s[n..][0] == s[n];
      Cut(s[..n], s[n..], Tokenize(s[n..], runs), runs)
    else
      Grow(s, Tokenize(s[1..], runs), runs)
  }

  /** The split of `sep + rest` from the split `r` of `rest`: an empty piece
      before the separator. */
  function Cut(sep: string, rest: string, r: Split, runs: bool): (q: Split)
    requires IsSeparator(sep, runs) && (AllSpace(sep) ==> !SpaceAtStart(rest))
    requires |r.pieces| == |r.seps| + 1
    requires AllClean(r.pieces, runs) && AllSeparators(r.seps, runs) && WholeRuns(r.pieces, r.seps)
    requires Interleave(r.pieces, r.seps) == rest
    requires |r.pieces[0]| <= |rest| && r.pieces[0] == rest[..|r.pieces[0]|]
    ensures |q.pieces| == |q.seps| + 1 && q.pieces[0] == []
    ensures AllClean(q.pieces, runs) && AllSeparators(q.seps, runs) && WholeRuns(q.pieces, q.seps)
    ensures Interleave(q.pieces, q.seps) == sep + rest
  {
    StartPiece(sep, rest, r, runs);
    WholeRunsCut(sep, rest, r, runs);
    Split([[]] + r.pieces, [sep] + r.seps)
  }

  /** The split of `s` from the split `r` of `s[1..]` when `s[0]` starts no
      separator: `s[0]` joins the first piece. */
  function Grow(s: string, r: Split, runs: bool): (q: Split)
    requires s != [] && !IsListDelimiter(s[0])
    requires !(runs && |s| >= 2 && IsSpace(s[0]) && IsSpace(s[1]))
    requires |r.pieces| == |r.seps| + 1
    requires AllClean(r.pieces, runs) && AllSeparators(r.seps, runs) && WholeRuns(r.pieces, r.seps)
    requires Interleave(r.pieces, r.seps) == s[1..]
    requires |r.pieces[0]| <= |s[1..]| && r.pieces[0] == s[1..][..|r.pieces[0]|]
    ensures |q.pieces| == |q.seps| + 1 && q.pieces[0] == [s[0]] + r.pieces[0]
    ensures AllClean(q.pieces, runs) && AllSeparators(q.seps, runs) && WholeRuns(q.pieces, q.seps)
    ensures Interleave(q.pieces, q.seps) == s
    ensures |q.pieces[0]| <= |s| && q.pieces[0] == s[..|q.pieces[0]|]
  {
    GrowPiece(s, r, runs);
    WholeRunsGrow(s, r, runs);
    Split([[s[0]] + r.pieces[0]] + r.pieces[1..], r.seps)
  }

  /** A separator followed by the split of the rest. */
  lemma StartPiece(sep: string, rest: string, r: Split, runs: bool)
    requires IsSeparator(sep, runs)
    requires |r.pieces| == |r.seps| + 1
    requires AllClean(r.pieces, runs) && AllSeparators(r.seps, runs)
    requires Interleave(r.pieces, r.seps) == rest
    ensures AllClean([[]] + r.pieces, runs) && AllSeparators([sep] + r.seps, runs)
    ensures Interleave([[]] + r.pieces, [sep] + r.seps) == sep + rest
  {
    assert ([[]] + r.pieces)[1..] == r.pieces;
    assert ([sep] + r.seps)[1..] == r.seps;
    forall k | 0 <= k < |[[]] + r.pieces| ensures Clean(([[]] + r.pieces)[k], runs) {
      if k > 0 {
        assert ([[]] + r.pieces)[k] == r.pieces[k - 1];
      }
    }
    forall k | 0 <= k < |[sep] + r.seps| ensures IsSeparator(([sep] + r.seps)[k], runs) {
      if k > 0 {
        assert ([sep] + r.seps)[k] == r.seps[k - 1];
      }
    }
  }

  /** A separator in front keeps the whitespace separators whole, provided a
      whitespace one is not followed by more whitespace. */
  lemma WholeRunsCut(sep: string, rest: string, r: Split, runs: bool)
    requires IsSeparator(sep, runs) && (AllSpace(sep) ==> !SpaceAtStart(rest))
    requires |r.pieces| == |r.seps| + 1 && AllSeparators(r.seps, runs) && WholeRuns(r.pieces, r.seps)
    requires Interleave(r.pieces, r.seps) == rest
    requires |r.pieces[0]| <= |rest| && r.pieces[0] == rest[..|r.pieces[0]|]
    ensures WholeRuns([[]] + r.pieces, [sep] + r.seps)
  {
    var pieces, seps := [[]] + r.pieces, [sep] + r.seps;
    if r.seps != [] && r.pieces[0] == [] {
      assert rest == r.seps[0] + Interleave(r.pieces[1..], r.seps[1..]);
      assert IsSeparator(r.seps[0], runs);
      assert r.seps[0][0] == rest[0];
    }
    if r.pieces[0] != [] {
      assert r.pieces[0][0] == rest[0];
    }
    forall k | 0 <= k < |seps| && AllSpace(seps[k])
      ensures !SpaceAtEnd(pieces[k]) && !SpaceAtStart(pieces[k + 1])
      ensures pieces[k + 1] == [] && k + 1 < |seps| ==> !AllSpace(seps[k + 1])
    {
      assert pieces[k + 1] == r.pieces[k];
      if k + 1 < |seps| {
        assert seps[k + 1] == r.seps[k];
      }
      if k > 0 {
        assert pieces[k] == r.pieces[k - 1] && seps[k] == r.seps[k - 1];
      }
    }
  }

  /** A character that starts no separator, put before the first piece,
      keeps the whitespace separators whole. */
  lemma WholeRunsGrow(s: string, r: Split, runs: bool)
    requires s != [] && !IsListDelimiter(s[0])
    requires !(runs && |s| >= 2 && IsSpace(s[0]) && IsSpace(s[1]))
    requires |r.pieces| == |r.seps| + 1 && AllSeparators(r.seps, runs) && WholeRuns(r.pieces, r.seps)
    requires Interleave(r.pieces, r.seps) == s[1..]
    ensures WholeRuns([[s[0]] + r.pieces[0]] + r.pieces[1..], r.seps)
  {
    var p := [s[0]] + r.pieces[0];
    var pieces := [p] + r.pieces[1..];
    if r.seps != [] && r.pieces[0] == [] {
      assert s[1..] == r.seps[0] + Interleave(r.pieces[1..], r.seps[1..]);
      assert IsSeparator(r.seps[0], runs);
      assert r.seps[0][0] == s[1];
    }
    forall k | 0 <= k < |r.seps| && AllSpace(r.seps[k])
      ensures !SpaceAtEnd(pieces[k]) && !SpaceAtStart(pieces[k + 1])
      ensures pieces[k + 1] == [] && k + 1 < |r.seps| ==> !AllSpace(r.seps[k + 1])
    {
      assert pieces[k + 1] == r.pieces[k + 1];
      if k == 0 {
        if r.pieces[0] != [] {
          assert p[|p| - 1] == r.pieces[0][|r.pieces[0]| - 1];
        }
      } else {
        assert pieces[k] == r.pieces[k];
      }
    }
  }

  /** A character that starts no separator joins the first piece of the rest. */
  lemma GrowPiece(s: string, r: Split, runs: bool)
    requires s != [] && !IsListDelimiter(s[0])
    requires !(runs && |s| >= 2 && IsSpace(s[0]) && IsSpace(s[1]))
    requires |r.pieces| == |r.seps| + 1
    requires AllClean(r.pieces, runs) && AllSeparators(r.seps, runs)
    requires Interleave(r.pieces, r.seps) == s[1..]
    requires |r.pieces[0]| <= |s[1..]| && r.pieces[0] == s[1..][..|r.pieces[0]|]
    ensures var pieces := [[s[0]] + r.pieces[0]] + r.pieces[1..];
      && AllClean(pieces, runs)
      && Interleave(pieces, r.seps) == s
      && |pieces[0]| <= |s| && pieces[0] == s[..|pieces[0]|]
  {
    var p := [s[0]] + r.pieces[0];
    CleanCons(s, r.pieces[0], runs);
    forall k | 0 <= k < |[p] + r.pieces[1..]| ensures Clean(([p] + r.pieces[1..])[k], runs) {
      if k > 0 {
        assert ([p] + r.pieces[1..])[k] == r.pieces[k];
      }
    }
    InterleaveGrow(s[0], r.pieces, r.seps);
    assert s == [s[0]] + s[1..];
  }

  /** A first character that starts no separator, put before a clean prefix
      of the rest, keeps it clean. */
  lemma CleanCons(s: string, q: string, runs: bool)
    requires s != [] && !IsListDelimiter(s[0])
    requires !(runs && |s| >= 2 && IsSpace(s[0]) && IsSpace(s[1]))
    requires Clean(q, runs) && |q| <= |s[1..]| && q == s[1..][..|q|]
    ensures Clean([s[0]] + q, runs)
  {
    var p := [s[0]] + q;
    forall k | 0 <= k < |p| ensures !IsListDelimiter(p[k]) {
      if k > 0 {
        assert p[k] == q[k - 1];
      }
    }
    forall k | 0 < k < |p| && runs ensures !(IsSpace(p[k - 1]) && IsSpace(p[k])) {
      if k == 1 {
        assert p[1] == s[1];
      } else {
        assert p[k - 1] == q[k - 2] && p[k] == q[k - 1];
      }
    }
  }

  /** Putting a character before the first piece puts it before the layout. */
  lemma InterleaveGrow(c: char, pieces: seq<string>, seps: seq<string>)
    requires |pieces| == |seps| + 1
    ensures Interleave([[c] + pieces[0]] + pieces[1..], seps) == [c] + Interleave(pieces, seps)
  {
    var grown := [[c] + pieces[0]] + pieces[1..];
    assert grown[1..] == pieces[1..];
  }

  /** A separator that starts with whitespace is a whitespace run. */
  lemma SpaceSeparator(sep: string, runs: bool)
    requires IsSeparator(sep, runs) && IsSpace(sep[0])
    ensures runs && |sep| >= 2 && AllSpace(sep)
  {
  }

  /** A separator that is not a whitespace run is a delimiter, so it does
      not start with whitespace. */
  lemma SeparatorNotRun(sep: string, runs: bool)
    requires IsSeparator(sep, runs) && !AllSpace(sep)
    ensures !IsSpace(sep[0])
  {
  }

  /** No whitespace prefix is longer than the run. */
  lemma {:induction false} SpaceRunLongest(s: string, m: nat)
    requires m <= |s| && AllSpace(s[..m])
    ensures m <= SpaceRun(s)
  {
    if m > 0 {
      assert s[..m][0] == s[0];
      assert s[1..][..m - 1] == s[..m][1..];
      SpaceRunLongest(s[1..], m - 1);
    }
  }

  /** The run ends no later than the first non-whitespace character. */
  lemma {:induction false} SpaceRunStops(s: string, m: nat)
    requires m <= |s| && (m == |s| || !IsSpace(s[m]))
    ensures SpaceRun(s) <= m
  {
    if m > 0 && IsSpace(s[0]) {
      assert m - 1 == |s[1..]| || s[1..][m - 1] == s[m];
      SpaceRunStops(s[1..], m - 1);
    }
  }

  /** With no separator, the one piece is the whole string. */
  lemma SinglePiece(q: Split, s: string, runs: bool)
    requires SplitsAs(q, s, runs) && q.seps == []
    ensures q == Split([s], [])
  {
    assert q.pieces == [q.pieces[0]];
  }

  /** The split after the first separator, when the first piece is empty. */
  lemma CutTail(q: Split, s: string, runs: bool) returns (tail: Split)
    requires SplitsAs(q, s, runs) && q.pieces[0] == [] && q.seps != []
    ensures q == Split([[]] + tail.pieces, [q.seps[0]] + tail.seps)
    ensures |q.seps[0]| <= |s| && s[..|q.seps[0]|] == q.seps[0]
    ensures SplitsAs(tail, s[|q.seps[0]|..], runs)
  {
    tail := Split(q.pieces[1..], q.seps[1..]);
    var sep := q.seps[0];
    assert s == sep + Interleave(tail.pieces, tail.seps);
    assert s[..|sep|] == sep && s[|sep|..] == Interleave(tail.pieces, tail.seps);
    assert q.pieces == [[]] + tail.pieces && q.seps == [sep] + tail.seps;
    forall k | 0 <= k < |tail.pieces| ensures Clean(tail.pieces[k], runs) {
      assert tail.pieces[k] == q.pieces[k + 1];
    }
    forall k | 0 <= k < |tail.seps| ensures IsSeparator(tail.seps[k], runs) {
      assert tail.seps[k] == q.seps[k + 1];
    }
    forall k | 0 <= k < |tail.seps| && AllSpace(tail.seps[k])
      ensures !SpaceAtEnd(tail.pieces[k]) && !SpaceAtStart(tail.pieces[k + 1])
      ensures tail.pieces[k + 1] == [] && k + 1 < |tail.seps| ==> !AllSpace(tail.seps[k + 1])
    {
      assert tail.seps[k] == q.seps[k + 1];
      assert tail.pieces[k] == q.pieces[k + 1] && tail.pieces[k + 1] == q.pieces[k + 2];
      if k + 1 < |tail.seps| {
        assert tail.seps[k + 1] == q.seps[k + 2];
      }
    }
  }

  /** A split whose first piece is empty opens with the separator
      `Tokenize` cuts at the head of `s`. */
  lemma CutHead(q: Split, s: string, runs: bool)
    requires SplitsAs(q, s, runs) && q.pieces[0] == [] && q.seps != []
    ensures s != []
    ensures IsListDelimiter(s[0]) ==> q.seps[0] == [s[0]]
    ensures !IsListDelimiter(s[0]) ==> runs && |s| >= 2 && IsSpace(s[0]) && IsSpace(s[1]) && q.seps[0] == s[..SpaceRun(s)]
  {
    var tail := CutTail(q, s, runs);
    assert IsSeparator(q.seps[0], runs);
    if IsListDelimiter(s[0]) {
      DelimiterHead(q.seps[0], s, runs);
    } else {
      RunHead(q, s, runs, tail);
    }
  }

  /** A separator at the head of `s` that starts with a delimiter is that
      one character. */
  lemma DelimiterHead(sep: string, s: string, runs: bool)
    requires IsSeparator(sep, runs) && |sep| <= |s| && s[..|sep|] == sep && IsListDelimiter(s[0])
    ensures sep == [s[0]]
  {
    assert sep[0] == s[0];
  }

  /** A separator at the head of `s` that does not start with a delimiter
      is the whole whitespace run there. */
  lemma RunHead(q: Split, s: string, runs: bool, tail: Split)
    requires SplitsAs(q, s, runs) && q.pieces[0] == [] && q.seps != [] && IsSeparator(q.seps[0], runs)
    requires q == Split([[]] + tail.pieces, [q.seps[0]] + tail.seps)
    requires |q.seps[0]| <= |s| && s[..|q.seps[0]|] == q.seps[0]
    requires SplitsAs(tail, s[|q.seps[0]|..], runs)
    requires !IsListDelimiter(s[0])
    ensures runs && |s| >= 2 && IsSpace(s[0]) && IsSpace(s[1]) && q.seps[0] == s[..SpaceRun(s)]
  {
    var sep := q.seps[0];
    assert sep[0] == s[0];
    SpaceSeparator(sep, runs);
    assert sep[1] == s[1];
    RunIsWhole(q, s, runs, tail);
    SpaceRunLongest(s, |sep|);
    SpaceRunStops(s, |sep|);
  }

  /** A whitespace separator that opens the split is followed by no
      whitespace. */
  lemma RunIsWhole(q: Split, s: string, runs: bool, tail: Split)
    requires SplitsAs(q, s, runs) && q.pieces[0] == [] && q.seps != [] && AllSpace(q.seps[0])
    requires q == Split([[]] + tail.pieces, [q.seps[0]] + tail.seps)
    requires |q.seps[0]| <= |s| && SplitsAs(tail, s[|q.seps[0]|..], runs)
    ensures |q.seps[0]| == |s| || !IsSpace(s[|q.seps[0]|])
  {
    var m := |q.seps[0]|;
    if m < |s| {
      var rest := s[m..];
      assert rest[0] == s[m];
      assert q.pieces[1] == tail.pieces[0];
      if tail.pieces[0] != [] {
        assert tail.pieces[0][0] == rest[0];
      } else {
        assert rest == tail.seps[0] + Interleave(tail.pieces[1..], tail.seps[1..]);
        assert q.seps[1] == tail.seps[0];
        assert IsSeparator(tail.seps[0], runs);
        assert tail.seps[0][0] == rest[0];
        SeparatorNotRun(tail.seps[0], runs);
      }
    }
  }

  /** A split whose first piece is not empty starts with a character that
      opens no separator, and after it lies a split of the rest. */
  lemma GrowTail(q: Split, s: string, runs: bool) returns (tail: Split)
    requires SplitsAs(q, s, runs) && q.pieces[0] != []
    ensures s != [] && !IsListDelimiter(s[0]) && !(runs && |s| >= 2 && IsSpace(s[0]) && IsSpace(s[1]))
    ensures SplitsAs(tail, s[1..], runs)
    ensures q == Split([[s[0]] + tail.pieces[0]] + tail.pieces[1..], tail.seps)
  {
    var p := q.pieces[0];
    tail := Split([p[1..]] + q.pieces[1..], q.seps);
    InterleaveGrow(p[0], tail.pieces, tail.seps);
    assert [p[0]] + p[1..] == p;
    assert [[p[0]] + tail.pieces[0]] + tail.pieces[1..] == q.pieces;
    assert s == [p[0]] + Interleave(tail.pieces, tail.seps);
    assert s[0] == p[0] && s[1..] == Interleave(tail.pieces, tail.seps);
    assert Clean(p, runs);
    if runs && |s| >= 2 && IsSpace(s[0]) {
      if |p| >= 2 {
        assert p[1] == s[1];
      } else if q.seps != [] {
        assert s == p + q.seps[0] + Interleave(q.pieces[1..], q.seps[1..]);
        assert s[1] == q.seps[0][0];
        assert IsSeparator(q.seps[0], runs);
        if IsSpace(s[1]) {
          SpaceSeparator(q.seps[0], runs);
        }
      }
    }
    CleanSlice(p, 1, |p|, runs);
    forall k | 0 <= k < |tail.pieces| ensures Clean(tail.pieces[k], runs) {
      if k > 0 {
        assert tail.pieces[k] == q.pieces[k];
      }
    }
    forall k | 0 <= k < |tail.seps| && AllSpace(tail.seps[k])
      ensures !SpaceAtEnd(tail.pieces[k]) && !SpaceAtStart(tail.pieces[k + 1])
      ensures tail.pieces[k + 1] == [] && k + 1 < |tail.seps| ==> !AllSpace(tail.seps[k + 1])
    {
      assert tail.pieces[k + 1] == q.pieces[k + 1];
      if k == 0 {
        if p[1..] != [] {
          assert p[1..][|p[1..]| - 1] == p[|p| - 1];
        }
      } else {
        assert tail.pieces[k] == q.pieces[k];
      }
    }
  }

  /** `Tokenize` is the only split of `s` with clean pieces, genuine
      separators and whole whitespace runs: its contract determines it. */
  lemma {:induction false} TokenizeUnique(s: string, runs: bool, q: Split)
    requires SplitsAs(q, s, runs)
    ensures q == Tokenize(s, runs)
    decreases |s|
  {
    if q.seps == [] {
      SinglePiece(q, s, runs);
      TokenizeClean(s, runs);
    } else if q.pieces[0] == [] {
      var tail := CutTail(q, s, runs);
      CutHead(q, s, runs);
      TokenizeUnique(s[|q.seps[0]|..], runs, tail);
    } else {
      var tail := GrowTail(q, s, runs);
      TokenizeUnique(s[1..], runs, tail);
    }
  }

  /** A clean string is a single piece: it splits into itself. */
  lemma {:induction false} TokenizeClean(s: string, runs: bool)
    requires Clean(s, runs)
    ensures Tokenize(s, runs).pieces == [s]
    decreases |s|
  {
    if s != [] {
      assert Clean(s[1..], runs) by {
        forall k | 0 < k < |s[1..]| && runs ensures !(IsSpace(s[1..][k - 1]) && IsSpace(s[1..][k])) {
          assert s[1..][k - 1] == s[k] && s[1..][k] == s[k + 1];
        }
      }
      TokenizeClean(s[1..], runs);
      assert runs && |s| >= 2 ==> !(IsSpace(s[0]) && IsSpace(s[1]));
      assert s == [s[0]] + s[1..];
    }
  }

  /** Any slice of a clean string is clean. */
  lemma CleanSlice(x: string, i: nat, j: nat, runs: bool)
    requires i <= j <= |x| && Clean(x, runs)
    ensures Clean(x[i..j], runs)
  {
    var y := x[i..j];
    forall k | 0 <= k < |y| ensures !IsListDelimiter(y[k]) {
      assert y[k] == x[i + k];
    }
    forall k | 0 < k < |y| && runs ensures !(IsSpace(y[k - 1]) && IsSpace(y[k])) {
      assert y[k - 1] == x[i + k - 1] && y[k] == x[i + k];
    }
  }

  /** The pieces of every line, in order: `lines.flatMap(line => line.split(...))`. */
  function SplitAll(lines: seq<string>, runs: bool): (r: seq<string>)
    ensures forall k :: 0 <= k < |r| ==> Clean(r[k], runs)
  {
    if lines == [] then []
    else
      var p := Tokenize(lines[0], runs).pieces;
      var rest := SplitAll(lines[1..], runs);
      assert forall k :: 0 <= k < |p + rest| ==> Clean((p + rest)[k], runs) by {
        forall k | 0 <= k < |p + rest| ensures Clean((p + rest)[k], runs) {
          if k < |p| {
            assert (p + rest)[k] == p[k];
          } else {
            assert (p + rest)[k] == rest[k - |p|];
          }
        }
      }
      p + rest
  }

  /** `s.length > 1`: kept pieces are longer than one UTF-16 unit. */
  predicate IsKept(s: string)
  {
    Utf16Len(s) > 1
  }

  /** `.flatMap(split).map(s => s.trim()).filter(s => s.length > 1)` */
  function ListItems(lines: seq<string>, runs: bool): seq<string>
  {
    Filter(IsKept, TrimAll(SplitAll(lines, runs)))
  }

  /** The skills list of a skills section. */
  function Skills(lines: seq<string>): seq<string>
  {
    ListItems(lines, true)
  }

  /** The languages list of a languages section. */
  function Languages(lines: seq<string>): seq<string>
  {
    ListItems(lines, false)
  }

  /** What every list entry looks like: trimmed, longer than one UTF-16
      unit, with no delimiter and (for skills) no whitespace run. */
  predicate IsListItem(x: string, runs: bool)
  {
    IsTrimmed(x) && IsKept(x) && Clean(x, runs)
  }

  predicate AllItems(xs: seq<string>, runs: bool)
  {
    forall k :: 0 <= k < |xs| ==> IsListItem(xs[k], runs)
  }

  /** Every entry of the list is well formed. */
  lemma ItemsWellFormed(lines: seq<string>, runs: bool)
    ensures AllItems(ListItems(lines, runs), runs)
  {
    var pieces := SplitAll(lines, runs);
    var trimmed := TrimAll(pieces);
    forall k | 0 <= k < |trimmed| ensures Clean(trimmed[k], runs) {
      TrimClean(pieces[k], runs);
    }
    var items := ListItems(lines, runs);
    forall k | 0 <= k < |items| ensures IsListItem(items[k], runs) {
      assert items[k] in trimmed;
    }
  }

  /** Trimming a clean piece leaves it clean. */
  lemma TrimClean(x: string, runs: bool)
    requires Clean(x, runs)
    ensures Clean(Trim(x), runs)
  {
    CleanSlice(x, LeadLen(x), LeadLen(x) + |Trim(x)|, runs);
  }

  /** The list of a concatenation of lines is the concatenation of the
      lists: entries keep document order and nothing is de-duplicated. */
  lemma {:induction false} ItemsAppend(a: seq<string>, b: seq<string>, runs: bool)
    ensures ListItems(a + b, runs) == ListItems(a, runs) + ListItems(b, runs)
  {
    SplitAllAppend(a, b, runs);
    TrimAllAppend(SplitAll(a, runs), SplitAll(b, runs));
    FilterAppend(IsKept, TrimAll(SplitAll(a, runs)), TrimAll(SplitAll(b, runs)));
  }

  lemma {:induction false} SplitAllAppend(a: seq<string>, b: seq<string>, runs: bool)
    ensures SplitAll(a + b, runs) == SplitAll(a, runs) + SplitAll(b, runs)
  {
    if a != [] {
      assert (a + b)[1..] == a[1..] + b;
      SplitAllAppend(a[1..], b, runs);
    } else {
      assert a + b == b;
    }
  }

  /** A single well-formed entry is its own list. */
  lemma ItemsOfItem(x: string, runs: bool)
    requires IsListItem(x, runs)
    ensures ListItems([x], runs) == [x]
  {
    TokenizeClean(x, runs);
    assert [x][1..] == [];
    assert SplitAll([x], runs) == [x];
    TrimNoop(x);
    assert TrimAll([x]) == [x];
    assert Filter(IsKept, [x]) == [x];
  }

  /** Well-formed entries pass through unchanged. */
  lemma {:induction false} ItemsOfItems(xs: seq<string>, runs: bool)
    requires AllItems(xs, runs)
    ensures ListItems(xs, runs) == xs
  {
    if xs != [] {
      var a, b := [xs[0]], xs[1..];
      assert a + b == xs;
      assert AllItems(b, runs) by {
        forall k | 0 <= k < |b| ensures IsListItem(b[k], runs) {
          assert b[k] == xs[k + 1];
        }
      }
      ItemsOfItems(b, runs);
      ItemsOfItem(xs[0], runs);
      ItemsAppend(a, b, runs);
    }
  }

  /** Splitting the list again changes nothing. */
  lemma ItemsIdempotent(lines: seq<string>, runs: bool)
    ensures ListItems(ListItems(lines, runs), runs) == ListItems(lines, runs)
  {
    ItemsWellFormed(lines, runs);
    ItemsOfItems(ListItems(lines, runs), runs);
  }
}
