/** The open-entry scan the experience and education sections share: walking
    the section's lines in order, a line that starts an entry closes the open
    entry (if any) and opens a new one; any other line is absorbed into the
    open entry, or ignored when none is open; at the end the open entry is
    closed. The main result, `EntriesAreBlocks`, says the scan cuts the lines
    into blocks, each running from a start line to just before the next one. */
module Accumulator {
  import opened Seqs

  /** How one kind of entry is recognised, opened and extended. */
  datatype Machine<!E> = Machine(isStart: string -> bool, open: string -> E, absorb: (E, string) -> E)

  /** The entries closed so far and the entry still open, if any. */
  datatype Scan<E> = Scan(done: seq<E>, current: Option<E>)

  /** The scan before any line: nothing closed, nothing open. */
  function Initial<E>(): Scan<E>
  {
    Scan([], None)
  }

  /** The closed entries followed by the open one. */
  function Flush<E>(sc: Scan<E>): seq<E>
  {
    sc.done + (if sc.current.Some? then [sc.current.value] else [])
  }

  /** One line of the loop. */
  function Step<E>(m: Machine<E>, sc: Scan<E>, line: string): (r: Scan<E>)
    ensures m.isStart(line) ==> Flush(r) == Flush(sc) + [m.open(line)]
    ensures !m.isStart(line) ==> r.done == sc.done && r.current.Some? == sc.current.Some?
  {
    if m.isStart(line) then Scan(Flush(sc), Some(m.open(line)))
    else match sc.current
      case None => sc
      case Some(e) => Scan(sc.done, Some(m.absorb(e, line)))
  }

  /** The loop over `lines`, from scan state `sc`. */
  function Run<E>(m: Machine<E>, sc: Scan<E>, lines: seq<string>): Scan<E>
  {
    if lines == [] then sc else Step(m, Run(m, sc, lines[..|lines| - 1]), lines[|lines| - 1])
  }

  /** The entries the whole section yields, the last open one included. */
  function Entries<E>(m: Machine<E>, lines: seq<string>): seq<E>
  {
    Flush(Run(m, Initial(), lines))
  }

  /** An entry opened with `e` after it has absorbed every line of `body`. */
  function Fill<E>(m: Machine<E>, e: E, body: seq<string>): E
  {
    if body == [] then e else m.absorb(Fill(m, e, body[..|body| - 1]), body[|body| - 1])
  }

  /** The positions of the lines that satisfy `p`, in increasing order. */
  function Starts(p: string -> bool, lines: seq<string>): (S: seq<nat>)
    ensures forall k :: 0 <= k < |S| ==> S[k] < |lines| && p(lines[S[k]])
    ensures forall k, l :: 0 <= k < l < |S| ==> S[k] < S[l]
    ensures forall i :: 0 <= i < |lines| && p(lines[i]) ==> i in S
  {
    if lines == [] then []
    else
      var n := |lines| - 1;
      var pre := Starts(p, lines[..n]);
      assert forall k :: 0 <= k < |pre| ==> lines[pre[k]] == lines[..n][pre[k]];
      assert forall i :: 0 <= i < n ==> lines[i] == lines[..n][i];
      pre + (if p(lines[n]) then [n] else [])
  }

  /** Where block `k` ends: at the next start, or at the end of the lines. */
  function BlockEnd(S: seq<nat>, k: nat, n: nat): nat
    requires k < |S|
  {
    if k + 1 < |S| then S[k + 1] else n
  }

  /** The lines of block `k` after its start line. */
  function BlockBody(lines: seq<string>, S: seq<nat>, k: nat): seq<string>
    requires k < |S| && S[k] < BlockEnd(S, k, |lines|) <= |lines|
  {
    lines[S[k] + 1..BlockEnd(S, k, |lines|)]
  }

  /** No position of an increasing sequence lies strictly between two
      neighbouring entries, or after the last one and before `n`. */
  lemma BetweenNeighbours(S: seq<nat>, k: nat, i: nat, n: nat)
    requires forall a, b :: 0 <= a < b < |S| ==> S[a] < S[b]
    requires k < |S| && S[k] < i < BlockEnd(S, k, n)
    ensures i !in S
  {
    forall l | 0 <= l < |S| ensures S[l] != i {
      if l < k {
        assert S[l] < S[k];
      } else if l > k + 1 {
        assert S[k + 1] < S[l];
      }
    }
  }

  /** A line strictly inside block `k` is not a start line. */
  lemma InsideBlockNoStart(p: string -> bool, lines: seq<string>, k: nat, i: nat)
    requires k < |Starts(p, lines)|
    requires Starts(p, lines)[k] < i < BlockEnd(Starts(p, lines), k, |lines|)
    ensures i < |lines| && !p(lines[i])
  {
    BetweenNeighbours(Starts(p, lines), k, i, |lines|);
  }

  /** No line of a block's body is a start line. */
  lemma BodyHasNoStart(p: string -> bool, lines: seq<string>, k: nat, d: string)
    requires k < |Starts(p, lines)|
    requires d in BlockBody(lines, Starts(p, lines), k)
    ensures !p(d)
  {
    var S := Starts(p, lines);
    var body := BlockBody(lines, S, k);
    var i :| 0 <= i < |body| && body[i] == d;
    assert lines[S[k] + 1 + i] == d;
    InsideBlockNoStart(p, lines, k, S[k] + 1 + i);
  }

  /** The entry made of the start line at `i` and the lines up to `j`. */
  function Block<E>(m: Machine<E>, lines: seq<string>, i: nat, j: nat): E
    requires i < j <= |lines|
  {
    Fill(m, m.open(lines[i]), lines[i + 1..j])
  }

  /** The start lines, in order, are exactly the lines that satisfy `p`. */
  lemma {:induction false} StartsAreFilter(p: string -> bool, lines: seq<string>)
    ensures |Starts(p, lines)| == CountIf(p, lines)
    ensures forall k :: 0 <= k < |Starts(p, lines)| ==> lines[Starts(p, lines)[k]] == Filter(p, lines)[k]
  {
    if lines != [] {
      var n := |lines| - 1;
      var pre, x := lines[..n], lines[n];
      assert lines == pre + [x];
      StartsAreFilter(p, pre);
      StartsSnoc(p, pre, x);
      FilterSnoc(p, pre, x);
      var P := Starts(p, pre);
      forall k | 0 <= k < |Starts(p, lines)| ensures lines[Starts(p, lines)[k]] == Filter(p, lines)[k] {
        if k < |P| {
          assert lines[P[k]] == pre[P[k]];
        }
      }
    }
  }

  /** A block that ends inside a prefix is the same block of the prefix. */
  lemma BlockOfPrefix<E>(m: Machine<E>, lines: seq<string>, x: string, i: nat, j: nat)
    requires i < j <= |lines|
    ensures Block(m, lines + [x], i, j) == Block(m, lines, i, j)
  {
    assert (lines + [x])[i + 1..j] == lines[i + 1..j];
    assert (lines + [x])[i] == lines[i];
  }

  /** A block extended by one line is the block that has absorbed it. */
  lemma BlockGrows<E>(m: Machine<E>, lines: seq<string>, x: string, i: nat)
    requires i < |lines|
    ensures Block(m, lines + [x], i, |lines| + 1) == m.absorb(Block(m, lines, i, |lines|), x)
  {
    var body := (lines + [x])[i + 1..|lines| + 1];
    assert body[..|body| - 1] == lines[i + 1..|lines|];
    assert body[|body| - 1] == x;
    assert (lines + [x])[i] == lines[i];
  }

  /** What the scan holds after a stretch of lines: nothing while no start
      line has been met; otherwise one closed block per start line but the
      last, and the last start line's block still open. */
  ghost predicate Shaped<E>(m: Machine<E>, lines: seq<string>, sc: Scan<E>)
  {
    var S := Starts(m.isStart, lines);
    if S == [] then sc == Initial()
    else
      && |sc.done| == |S| - 1
      && (forall k :: 0 <= k < |S| - 1 ==> sc.done[k] == Block(m, lines, S[k], S[k + 1]))
      && sc.current == Some(Block(m, lines, S[|S| - 1], |lines|))
  }

  /** The start positions of a stretch extended by one line. */
  lemma StartsSnoc(p: string -> bool, lines: seq<string>, x: string)
    ensures Starts(p, lines + [x]) == Starts(p, lines) + (if p(x) then [|lines|] else [])
  {
    assert (lines + [x])[..|lines|] == lines;
  }

  /** A start line closes the open block and opens its own. */
  lemma ShapedAfterStart<E>(m: Machine<E>, lines: seq<string>, x: string, sc: Scan<E>)
    requires Shaped(m, lines, sc) && m.isStart(x)
    ensures Shaped(m, lines + [x], Step(m, sc, x))
  {
    var n := |lines|;
    StartsSnoc(m.isStart, lines, x);
    assert Block(m, lines + [x], n, n + 1) == m.open(x) by {
      assert (lines + [x])[n + 1..n + 1] == [];
    }
    if Starts(m.isStart, lines) != [] {
      ShapedAfterLaterStart(m, lines, x, sc);
    }
  }

  /** The case of `ShapedAfterStart` where a block was already open. */
  lemma ShapedAfterLaterStart<E>(m: Machine<E>, lines: seq<string>, x: string, sc: Scan<E>)
    requires Shaped(m, lines, sc) && m.isStart(x) && Starts(m.isStart, lines) != []
    requires Starts(m.isStart, lines + [x]) == Starts(m.isStart, lines) + [|lines|]
    requires Block(m, lines + [x], |lines|, |lines| + 1) == m.open(x)
    ensures Shaped(m, lines + [x], Step(m, sc, x))
  {
    var P := Starts(m.isStart, lines);
    BlocksOfLongerLines(m, lines, x, sc);
    ClosedAfterStart(m, lines + [x], P, |lines|, sc.done, sc.current.value);
    assert Step(m, sc, x) == Scan(sc.done + [sc.current.value], Some(m.open(x)));
  }

  /** Closing the open block after the last start in `P` and starting a new
      block at `n` gives one closed block per start of `P`. */
  lemma ClosedAfterStart<E>(m: Machine<E>, lines: seq<string>, P: seq<nat>, n: nat, done: seq<E>, cur: E)
    requires P != [] && |done| == |P| - 1 && n < |lines|
    requires forall k :: 0 <= k < |P| ==> P[k] < n
    requires forall k, l :: 0 <= k < l < |P| ==> P[k] < P[l]
    requires forall k :: 0 <= k < |P| - 1 ==> done[k] == Block(m, lines, P[k], P[k + 1])
    requires cur == Block(m, lines, P[|P| - 1], n)
    ensures forall k :: 0 <= k < |P| ==> (done + [cur])[k] == Block(m, lines, (P + [n])[k], (P + [n])[k + 1])
  {
    forall k | 0 <= k < |P| ensures (done + [cur])[k] == Block(m, lines, (P + [n])[k], (P + [n])[k + 1]) {
      if k < |P| - 1 {
        assert (done + [cur])[k] == done[k];
        assert (P + [n])[k] == P[k] && (P + [n])[k + 1] == P[k + 1];
      } else {
        assert (P + [n])[k] == P[k] && (P + [n])[k + 1] == n;
      }
    }
  }

  /** The blocks a scan holds stay the same when one more line is appended
      to the lines. */
  lemma BlocksOfLongerLines<E>(m: Machine<E>, lines: seq<string>, x: string, sc: Scan<E>)
    requires Shaped(m, lines, sc) && Starts(m.isStart, lines) != []
    ensures var P := Starts(m.isStart, lines);
      && |sc.done| == |P| - 1 && sc.current.Some?
      && (forall k :: 0 <= k < |P| - 1 ==> sc.done[k] == Block(m, lines + [x], P[k], P[k + 1]))
      && sc.current.value == Block(m, lines + [x], P[|P| - 1], |lines|)
  {
    var P := Starts(m.isStart, lines);
    forall k | 0 <= k < |P| - 1 ensures sc.done[k] == Block(m, lines + [x], P[k], P[k + 1]) {
      BlockOfPrefix(m, lines, x, P[k], P[k + 1]);
    }
    BlockOfPrefix(m, lines, x, P[|P| - 1], |lines|);
  }

  /** Any other line grows the open block, or is dropped when none is open. */
  lemma ShapedAfterOther<E>(m: Machine<E>, lines: seq<string>, x: string, sc: Scan<E>)
    requires Shaped(m, lines, sc) && !m.isStart(x)
    ensures Shaped(m, lines + [x], Step(m, sc, x))
  {
    var P := Starts(m.isStart, lines);
    StartsSnoc(m.isStart, lines, x);
    assert Starts(m.isStart, lines + [x]) == P;
    if P != [] {
      var r := Step(m, sc, x);
      BlockGrows(m, lines, x, P[|P| - 1]);
      assert r.current == Some(m.absorb(sc.current.value, x));
      forall k | 0 <= k < |P| - 1 ensures r.done[k] == Block(m, lines + [x], P[k], P[k + 1]) {
        BlockOfPrefix(m, lines, x, P[k], P[k + 1]);
      }
    }
  }

  /** The loop invariant of the scan. */
  lemma {:induction false} RunShape<E>(m: Machine<E>, lines: seq<string>)
    ensures Shaped(m, lines, Run(m, Initial(), lines))
  {
    if lines != [] {
      var n := |lines| - 1;
      var pre, x := lines[..n], lines[n];
      assert lines == pre + [x];
      RunShape(m, pre);
      if m.isStart(x) {
        ShapedAfterStart(m, pre, x, Run(m, Initial(), pre));
      } else {
        ShapedAfterOther(m, pre, x, Run(m, Initial(), pre));
      }
    }
  }

  /** The entries described without the loop: one per start line, in
      order, entry `k` being start line `S[k]` opened and then filled with
      the lines after it up to the next start line (or the end). */
  function Blocks<E>(m: Machine<E>, lines: seq<string>): (r: seq<E>)
    ensures |r| == |Starts(m.isStart, lines)|
  {
    var S := Starts(m.isStart, lines);
    seq(|S|, k requires 0 <= k < |S| => Block(m, lines, S[k], BlockEnd(S, k, |lines|)))
  }

  /** The scan cuts the lines into blocks. */
  lemma EntriesAreBlocks<E>(m: Machine<E>, lines: seq<string>)
    ensures Entries(m, lines) == Blocks(m, lines)
  {
    RunShape(m, lines);
    var S := Starts(m.isStart, lines);
    var sc := Run(m, Initial(), lines);
    var es, bs := Entries(m, lines), Blocks(m, lines);
    if S != [] {
      assert es == sc.done + [sc.current.value];
      forall k | 0 <= k < |S| ensures es[k] == bs[k] {
        if k < |S| - 1 {
          assert es[k] == sc.done[k];
        }
      }
    }
  }

  /** The entries after one more line: a start line adds its opened entry;
      any other line is absorbed into the last entry, or dropped when there
      is none yet. */
  lemma EntriesSnoc<E>(m: Machine<E>, lines: seq<string>, x: string)
    ensures var es := Entries(m, lines);
      Entries(m, lines + [x]) ==
        if m.isStart(x) then es + [m.open(x)]
        else if es == [] then []
        else es[..|es| - 1] + [m.absorb(es[|es| - 1], x)]
  {
    assert (lines + [x])[..|lines|] == lines;
    var sc := Run(m, Initial(), lines);
    RunShape(m, lines);
    if Starts(m.isStart, lines) == [] {
      assert sc == Initial();
    } else {
      assert sc.current.Some?;
      var es := Entries(m, lines);
      assert es[..|es| - 1] == sc.done;
    }
  }

  /** Running the loop over two stretches in turn. */
  lemma {:induction false} RunAppend<E>(m: Machine<E>, sc: Scan<E>, a: seq<string>, b: seq<string>)
    ensures Run(m, sc, a + b) == Run(m, Run(m, sc, a), b)
    decreases |b|
  {
    if b != [] {
      var b' := b[..|b| - 1];
      assert (a + b)[..|a + b| - 1] == a + b';
      assert (a + b)[|a + b| - 1] == b[|b| - 1];
      RunAppend(m, sc, a, b');
    } else {
      assert a + b == a;
    }
  }

  /** Lines before the first start line belong to no entry. */
  lemma {:induction false} IgnoredUntilStart<E>(m: Machine<E>, lines: seq<string>)
    requires forall k :: 0 <= k < |lines| ==> !m.isStart(lines[k])
    ensures Run(m, Initial(), lines) == Initial()
  {
    if lines != [] {
      IgnoredUntilStart(m, lines[..|lines| - 1]);
    }
  }

  /** Dropping the lines before the first start line changes nothing. */
  lemma LeadingLinesIgnored<E>(m: Machine<E>, lead: seq<string>, rest: seq<string>)
    requires forall k :: 0 <= k < |lead| ==> !m.isStart(lead[k])
    ensures Entries(m, lead + rest) == Entries(m, rest)
  {
    RunAppend(m, Initial(), lead, rest);
    IgnoredUntilStart(m, lead);
  }

  /** A start line with three more lines: one entry that has absorbed them. */
  lemma BlockOfFour<E>(m: Machine<E>, h: string, a: string, b: string, c: string)
    requires m.isStart(h) && !m.isStart(a) && !m.isStart(b) && !m.isStart(c)
    ensures Entries(m, [h, a, b, c]) == [m.absorb(m.absorb(m.absorb(m.open(h), a), b), c)]
  {
    EntriesSnoc(m, [], h);
    assert [] + [h] == [h];
    EntriesSnoc(m, [h], a);
    assert [h] + [a] == [h, a];
    EntriesSnoc(m, [h, a], b);
    assert [h, a] + [b] == [h, a, b];
    EntriesSnoc(m, [h, a, b], c);
    assert [h, a, b] + [c] == [h, a, b, c];
  }

  /** A start line with three more lines, then a start line with one: two
      entries, each having absorbed its own lines. */
  lemma TwoBlocksOfFour<E>(m: Machine<E>, h1: string, a: string, b: string, c: string, h2: string, d: string)
    requires m.isStart(h1) && m.isStart(h2)
    requires !m.isStart(a) && !m.isStart(b) && !m.isStart(c) && !m.isStart(d)
    ensures Entries(m, [h1, a, b, c, h2, d]) ==
      [m.absorb(m.absorb(m.absorb(m.open(h1), a), b), c), m.absorb(m.open(h2), d)]
  {
    var e1 := m.absorb(m.absorb(m.absorb(m.open(h1), a), b), c);
    BlockOfFour(m, h1, a, b, c);
    EntriesSnoc(m, [h1, a, b, c], h2);
    assert [h1, a, b, c] + [h2] == [h1, a, b, c, h2];
    assert Entries(m, [h1, a, b, c, h2]) == [e1, m.open(h2)];
    EntriesSnoc(m, [h1, a, b, c, h2], d);
    assert [h1, a, b, c, h2] + [d] == [h1, a, b, c, h2, d];
    assert [e1, m.open(h2)][..1] == [e1];
  }
}
