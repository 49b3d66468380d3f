/** Generic sequence helpers shared by the parser model: an optional value,
    filtering, mapping, flattening and counting, with the append laws the
    proofs about the parser rely on. */
module Seqs {

  /** A value that may be absent; the parser's "no open entry" and
      "no current section" states. */
  datatype Option<+T> = None | Some(value: T)

  /** The elements of `s` that satisfy `p`, in their original order. */
  function Filter<T>(p: T -> bool, s: seq<T>): (r: seq<T>)
    ensures |r| <= |s|
    ensures forall k :: 0 <= k < |r| ==> p(r[k]) && r[k] in s
  {
    if s == [] then [] else (if p(s[0]) then [s[0]] else []) + Filter(p, s[1..])
  }

  /** `f` applied to every element of `s`. */
  function Map<T, U>(f: T -> U, s: seq<T>): (r: seq<U>)
    ensures |r| == |s|
    ensures forall k :: 0 <= k < |s| ==> r[k] == f(s[k])
  {
    if s == [] then [] else [f(s[0])] + Map(f, s[1..])
  }

  /** All the sequences of `ss` laid end to end. */
  function Concat<T>(ss: seq<seq<T>>): seq<T>
  {
    if ss == [] then [] else ss[0] + Concat(ss[1..])
  }

  /** How many elements of `s` satisfy `p`. */
  function CountIf<T>(p: T -> bool, s: seq<T>): nat
  {
    |Filter(p, s)|
  }

  /** The first element of `s`, or `default` when `s` is empty. */
  function FirstOr<T>(s: seq<T>, default: T): T
  {
    if s == [] then default else s[0]
  }

  lemma {:induction false} FilterAppend<T>(p: T -> bool, a: seq<T>, b: seq<T>)
    ensures Filter(p, a + b) == Filter(p, a) + Filter(p, b)
  {
    if a != [] {
      assert (a + b)[1..] == a[1..] + b;
      FilterAppend(p, a[1..], b);
    } else {
      assert a + b == b;
    }
  }

  lemma {:induction false} MapAppend<T, U>(f: T -> U, a: seq<T>, b: seq<T>)
    ensures Map(f, a + b) == Map(f, a) + Map(f, b)
  {
    if a != [] {
      assert (a + b)[1..] == a[1..] + b;
      MapAppend(f, a[1..], b);
    } else {
      assert a + b == b;
    }
  }

  lemma {:induction false} ConcatAppend<T>(a: seq<seq<T>>, b: seq<seq<T>>)
    ensures Concat(a + b) == Concat(a) + Concat(b)
  {
    if a != [] {
      assert (a + b)[1..] == a[1..] + b;
      ConcatAppend(a[1..], b);
    } else {
      assert a + b == b;
    }
  }

  /** Counting distributes over concatenation. */
  lemma CountAppend<T>(p: T -> bool, a: seq<T>, b: seq<T>)
    ensures CountIf(p, a + b) == CountIf(p, a) + CountIf(p, b)
  {
    FilterAppend(p, a, b);
  }

  /** A sequence whose every element satisfies `p` is counted in full. */
  lemma {:induction false} CountAll<T>(p: T -> bool, s: seq<T>)
    requires forall k :: 0 <= k < |s| ==> p(s[k])
    ensures CountIf(p, s) == |s|
  {
    if s != [] {
      CountAll(p, s[1..]);
    }
  }

  /** A sequence no element of which satisfies `p` counts zero. */
  lemma {:induction false} CountNone<T>(p: T -> bool, s: seq<T>)
    requires forall k :: 0 <= k < |s| ==> !p(s[k])
    ensures CountIf(p, s) == 0
  {
    if s != [] {
      CountNone(p, s[1..]);
    }
  }

  /** A slice never counts more than the whole sequence. */
  lemma CountSlice<T>(p: T -> bool, s: seq<T>, i: nat, j: nat)
    requires i <= j <= |s|
    ensures CountIf(p, s[i..j]) <= CountIf(p, s)
  {
    assert s == s[..i] + s[i..j] + s[j..];
    CountAppend(p, s[..i] + s[i..j], s[j..]);
    CountAppend(p, s[..i], s[i..j]);
  }

  /** Filtering a sequence extended by one element. */
  lemma FilterSnoc<T>(p: T -> bool, s: seq<T>, x: T)
    ensures Filter(p, s + [x]) == Filter(p, s) + (if p(x) then [x] else [])
  {
    FilterAppend(p, s, [x]);
    assert Filter(p, [x]) == (if p(x) then [x] else []) + Filter(p, []);
  }

  /** Filtering keeps a sequence whose every element passes. */
  lemma {:induction false} FilterAll<T>(p: T -> bool, s: seq<T>)
    requires forall k :: 0 <= k < |s| ==> p(s[k])
    ensures Filter(p, s) == s
  {
    if s != [] {
      FilterAll(p, s[1..]);
      assert s == [s[0]] + s[1..];
    }
  }

  /** A count of zero means no element passes. */
  lemma {:induction false} CountZero<T>(p: T -> bool, s: seq<T>)
    requires CountIf(p, s) == 0
    ensures forall k :: 0 <= k < |s| ==> !p(s[k])
  {
    if s != [] {
      CountZero(p, s[1..]);
      forall k | 0 <= k < |s| ensures !p(s[k]) {
        if k > 0 {
          assert s[k] == s[1..][k - 1];
        }
      }
    }
  }

  /** A sequence whose first element passes counts at least one. */
  lemma CountFirst<T>(p: T -> bool, s: seq<T>)
    requires s != [] && p(s[0])
    ensures CountIf(p, s) >= 1
  {
  }
}
