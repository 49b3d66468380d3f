/** The JavaScript string primitives the parser uses, on `string = seq<char>`:
    whitespace as ECMAScript defines it (for `trim` and the regex class `\s`),
    ASCII lower-casing, `trim`, `split` on one character and `join`,
    `startsWith`, `includes`, and `length` counted in UTF-16 code units. */
module Text {
  import opened Seqs

  /** ECMAScript WhiteSpace and LineTerminator code points: the characters
      `String.prototype.trim` removes and the regex class `\s` matches. */
  predicate IsSpace(c: char)
  {
    var n := c as int;
    n == 0x09 || n == 0x0A || n == 0x0B || n == 0x0C || n == 0x0D || n == 0x20
    || n == 0xA0 || n == 0x1680 || (0x2000 <= n <= 0x200A) || n == 0x2028
    || n == 0x2029 || n == 0x202F || n == 0x205F || n == 0x3000 || n == 0xFEFF
  }

  /** The regex class `\d`: ASCII digits only. */
  predicate IsDigit(c: char)
  {
    '0' <= c <= '9'
  }

  predicate IsAsciiLetter(c: char)
  {
    ('a' <= c <= 'z') || ('A' <= c <= 'Z')
  }

  predicate AllSpace(s: string)
  {
    forall k :: 0 <= k < |s| ==> IsSpace(s[k])
  }

  /** `s.length > 0` */
  predicate NonEmpty(s: string)
  {
    s != []
  }

  /** Neither starts nor ends with whitespace: what `trim` leaves. */
  predicate IsTrimmed(s: string)
  {
    s == [] || (!IsSpace(s[0]) && !IsSpace(s[|s| - 1]))
  }

  predicate NotSpace(c: char)
  {
    !IsSpace(c)
  }

  /** ASCII lower-casing of one character. */
  function LowerChar(c: char): (r: char)
    ensures 'A' <= c <= 'Z' ==> r as int == c as int + 32
    ensures !('A' <= c <= 'Z') ==> r == c
  {
    if 'A' <= c <= 'Z' then (c as int + 32) as char else c
  }

  /** `toLowerCase`, restricted to the ASCII letters. */
  function Lower(s: string): (r: string)
    ensures |r| == |s|
    ensures forall k :: 0 <= k < |s| ==> r[k] == LowerChar(s[k])
  {
    if s == [] then [] else [LowerChar(s[0])] + Lower(s[1..])
  }

  /** JavaScript `length`: characters outside the Basic Multilingual Plane
      are two UTF-16 code units. */
  function Utf16Len(s: string): (n: nat)
    ensures |s| <= n <= 2 * |s|
  {
    if s == [] then 0 else (if s[0] as int > 0xFFFF then 2 else 1) + Utf16Len(s[1..])
  }

  /** `s.startsWith(p)`. */
  predicate StartsWith(s: string, p: string)
  {
    |p| <= |s| && s[..|p|] == p
  }

  /** `s.includes(sub)`, computed by trying every start position. */
  predicate Contains(s: string, sub: string)
    decreases |s|
  {
    StartsWith(s, sub) || (s != [] && Contains(s[1..], sub))
  }

  /** `sub` occurs in `s` starting at index `i`. */
  predicate OccursAt(s: string, sub: string, i: int)
  {
    0 <= i && i + |sub| <= |s| && s[i..i + |sub|] == sub
  }

  /** `Contains` holds exactly when `sub` occurs at some position of `s`. */
  lemma {:induction false} ContainsAt(s: string, sub: string)
    ensures Contains(s, sub) <==> exists i :: OccursAt(s, sub, i)
    decreases |s|
  {
    if s != [] {
      ContainsAt(s[1..], sub);
      if Contains(s[1..], sub) {
        var i :| OccursAt(s[1..], sub, i);
        assert s[i + 1..i + 1 + |sub|] == s[1..][i..i + |sub|];
        assert OccursAt(s, sub, i + 1);
      }
      if exists i :: OccursAt(s, sub, i) {
        var i :| OccursAt(s, sub, i);
        if i > 0 {
          assert s[1..][i - 1..i - 1 + |sub|] == s[i..i + |sub|];
          assert OccursAt(s[1..], sub, i - 1);
        } else {
          assert StartsWith(s, sub);
        }
      }
    } else {
      if exists i :: OccursAt(s, sub, i) {
        var i :| OccursAt(s, sub, i);
        assert StartsWith(s, sub);
      }
    }
    if StartsWith(s, sub) {
      assert OccursAt(s, sub, 0);
    }
  }

  /** Some word of `words` occurs in `s`: a regex alternation of literal
      words, as `RegExp.prototype.test` decides it. */
  predicate ContainsAny(s: string, words: seq<string>)
  {
    words != [] && (Contains(s, words[0]) || ContainsAny(s, words[1..]))
  }

  /** `ContainsAny` holds exactly when one of the words occurs in `s`. */
  lemma {:induction false} ContainsAnyIff(s: string, words: seq<string>)
    ensures ContainsAny(s, words) <==> exists k :: 0 <= k < |words| && Contains(s, words[k])
  {
    if words != [] {
      ContainsAnyIff(s, words[1..]);
      if exists k :: 0 <= k < |words| && Contains(s, words[k]) {
        var k :| 0 <= k < |words| && Contains(s, words[k]);
        if k > 0 {
          assert words[1..][k - 1] == words[k];
        }
      }
      if ContainsAny(s, words[1..]) {
        var k :| 0 <= k < |words[1..]| && Contains(s, words[1..][k]);
        assert words[k + 1] == words[1..][k];
      }
      if Contains(s, words[0]) {
        assert 0 < |words| && Contains(s, words[0]);
      }
    }
  }

  /** Lower-casing twice is lower-casing once. */
  lemma LowerIdempotent(s: string)
    ensures Lower(Lower(s)) == Lower(s)
  {
  }

  /** The first position at or after `i` that does not hold whitespace,
      or `|s|` when there is none. */
  function SkipSpace(s: string, i: nat): (j: nat)
    requires i <= |s|
    ensures i <= j <= |s|
    ensures forall k :: i <= k < j ==> IsSpace(s[k])
    ensures j == |s| || !IsSpace(s[j])
    decreases |s| - i
  {
    if i == |s| || !IsSpace(s[i]) then i else SkipSpace(s, i + 1)
  }

  /** The position just after the last character before `j` that is not
      whitespace, going down no further than `lo`. */
  function SkipSpaceBack(s: string, lo: nat, j: nat): (i: nat)
    requires lo <= j <= |s|
    ensures lo <= i <= j
    ensures forall k :: i <= k < j ==> IsSpace(s[k])
    ensures i == lo || !IsSpace(s[i - 1])
    decreases j
  {
    if j == lo || !IsSpace(s[j - 1]) then j else SkipSpaceBack(s, lo, j - 1)
  }

  /** How many whitespace characters `s` starts with. */
  function LeadLen(s: string): (n: nat)
    ensures n <= |s| && AllSpace(s[..n])
    ensures n == |s| || !IsSpace(s[n])
  {
    SkipSpace(s, 0)
  }

  /** `String.prototype.trimStart`: the string without its leading whitespace. */
  function TrimStart(s: string): (r: string)
    ensures |r| <= |s| && r == s[|s| - |r|..]
    ensures AllSpace(s[..|s| - |r|])
    ensures r == [] || !IsSpace(r[0])
  {
    s[LeadLen(s)..]
  }

  /** `String.prototype.trim`. The result is the slice of `s` that starts
      after its leading whitespace and is followed only by whitespace, and
      it neither starts nor ends with whitespace; these facts determine it
      uniquely. */
  function Trim(s: string): (r: string)
    ensures LeadLen(s) + |r| <= |s| && r == s[LeadLen(s)..LeadLen(s) + |r|]
    ensures AllSpace(s[..LeadLen(s)]) && AllSpace(s[LeadLen(s) + |r|..])
    ensures IsTrimmed(r)
  {
    var i := LeadLen(s);
    var j := SkipSpaceBack(s, i, |s|);
    s[i..j]
  }

  /** Every string of `xs` trimmed: `xs.map(x => x.trim())`. */
  function TrimAll(xs: seq<string>): (r: seq<string>)
    ensures |r| == |xs|
    ensures forall k :: 0 <= k < |xs| ==> r[k] == Trim(xs[k])
  {
    if xs == [] then [] else [Trim(xs[0])] + TrimAll(xs[1..])
  }

  lemma TrimAllAppend(a: seq<string>, b: seq<string>)
    ensures TrimAll(a + b) == TrimAll(a) + TrimAll(b)
  {
  }

  /** Trimming a string that has no whitespace at either end leaves it as it is. */
  lemma TrimNoop(s: string)
    requires IsTrimmed(s)
    ensures Trim(s) == s
  {
  }

  /** Trimming strings that are already trimmed changes none of them. */
  lemma TrimAllFixed(xs: seq<string>)
    requires forall k :: 0 <= k < |xs| ==> IsTrimmed(xs[k])
    ensures TrimAll(xs) == xs
  {
    forall k | 0 <= k < |xs| ensures TrimAll(xs)[k] == xs[k] {
      TrimNoop(xs[k]);
    }
  }

  /** Trimming is idempotent. */
  lemma TrimIdempotent(s: string)
    ensures Trim(Trim(s)) == Trim(s)
  {
    TrimNoop(Trim(s));
  }

  /** An all-whitespace string trims to the empty string. */
  lemma TrimAllSpace(s: string)
    requires AllSpace(s)
    ensures Trim(s) == []
  {
  }

  /** Trimming removes whitespace only: any count of characters that are
      never whitespace is unchanged. */
  lemma TrimKeepsCount(p: char -> bool, s: string)
    requires forall c :: p(c) ==> !IsSpace(c)
    ensures CountIf(p, Trim(s)) == CountIf(p, s)
  {
    var i := LeadLen(s);
    var j := i + |Trim(s)|;
    assert s == s[..i] + s[i..j] + s[j..];
    CountAppend(p, s[..i] + s[i..j], s[j..]);
    CountAppend(p, s[..i], s[i..j]);
    var lead, trail := s[..i], s[j..];
    assert AllSpace(lead) && AllSpace(trail);
    forall k | 0 <= k < |lead| ensures !p(lead[k]) {
      assert IsSpace(lead[k]);
    }
    forall k | 0 <= k < |trail| ensures !p(trail[k]) {
      assert IsSpace(trail[k]);
    }
    CountNone(p, s[..i]);
    CountNone(p, s[j..]);
  }

  /** `s.split(d)` for a one-character separator `d`: the pieces between
      the occurrences of `d`, so always at least one piece. */
  function SplitOn(s: string, d: char): (r: seq<string>)
    ensures |r| >= 1
    ensures forall k :: 0 <= k < |r| ==> d !in r[k]
  {
    if s == [] then [[]]
    else
      var rest := SplitOn(s[1..], d);
      if s[0] == d then [[]] + rest else [[s[0]] + rest[0]] + rest[1..]
  }

  /** `parts.join(d)`. */
  function JoinOn(parts: seq<string>, d: char): string
  {
    if parts == [] then []
    else if |parts| == 1 then parts[0]
    else parts[0] + [d] + JoinOn(parts[1..], d)
  }

  /** Joining the pieces of a split restores the string. */
  lemma {:induction false} JoinSplit(s: string, d: char)
    ensures JoinOn(SplitOn(s, d), d) == s
  {
    if s != [] {
      var rest := SplitOn(s[1..], d);
      JoinSplit(s[1..], d);
      if s[0] == d {
        assert JoinOn([[]] + rest, d) == [] + [d] + JoinOn(rest, d);
        assert s == [d] + s[1..];
      } else if |rest| == 1 {
        assert s == [s[0]] + s[1..];
      } else {
        assert JoinOn(rest, d) == rest[0] + [d] + JoinOn(rest[1..], d);
        assert s == [s[0]] + s[1..];
      }
    }
  }

  /** Splitting a join of pieces free of the separator gives the pieces back. */
  lemma {:induction false} SplitJoin(parts: seq<string>, d: char)
    requires |parts| >= 1
    requires forall k :: 0 <= k < |parts| ==> d !in parts[k]
    ensures SplitOn(JoinOn(parts, d), d) == parts
    decreases |parts|, |parts[0]|
  {
    var p := parts[0];
    if p == [] {
      if |parts| > 1 {
        SplitJoin(parts[1..], d);
        assert JoinOn(parts, d) == [d] + JoinOn(parts[1..], d);
        assert JoinOn(parts, d)[1..] == JoinOn(parts[1..], d);
        assert parts == [[]] + parts[1..];
      }
    } else {
      var tail := [p[1..]] + parts[1..];
      assert d !in p[1..] by {
        forall k | 0 <= k < |p[1..]| ensures p[1..][k] != d {
          assert p[1..][k] == p[k + 1];
        }
      }
      SplitJoin(tail, d);
      if |parts| > 1 {
        assert tail[1..] == parts[1..];
        assert JoinOn(parts, d) == [p[0]] + JoinOn(tail, d);
      } else {
        assert JoinOn(parts, d) == [p[0]] + JoinOn(tail, d);
      }
      assert JoinOn(parts, d)[1..] == JoinOn(tail, d);
      assert p[0] != d;
      assert [p[0]] + p[1..] == p;
    }
  }

  /** Counting characters other than the separator: the join counts what
      the pieces count together. */
  lemma {:induction false} JoinCount(p: char -> bool, parts: seq<string>, d: char)
    requires !p(d)
    ensures CountIf(p, JoinOn(parts, d)) == CountIf(p, Concat(parts))
  {
    if |parts| > 1 {
      JoinCount(p, parts[1..], d);
      CountAppend(p, parts[0] + [d], JoinOn(parts[1..], d));
      CountAppend(p, parts[0], [d]);
      CountAppend(p, parts[0], Concat(parts[1..]));
      assert Filter(p, [d]) == [];
    } else if |parts| == 1 {
      assert parts[1..] == [];
      assert Concat(parts) == parts[0] + Concat(parts[1..]);
      assert Concat(parts) == parts[0];
    }
  }
}
