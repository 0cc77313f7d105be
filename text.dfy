/** The line store: the document as an ordered sequence of lines (no line
    terminator kept), with a cached total length and a cached line count,
    and the resolver that maps a linear offset to the line that holds it. */
module LineStore {

  /** A resolved position: the line's index, the offset where the line
      starts, and the line's length. */
  datatype Loc = Loc(line: nat, start: nat, len: nat)

  /** Sum of |l| + 1 over the lines: every line followed by one newline.
      This is what `from_file` accumulates before dropping the last newline. */
  function Span(ls: seq<string>): nat
  {
    if ls == [] then 0 else Span(ls[..|ls| - 1]) + |ls[|ls| - 1]| + 1
  }

  /** Sum of |l| over the lines: the characters alone. */
  function Chars(ls: seq<string>): nat
  {
    if ls == [] then 0 else Chars(ls[..|ls| - 1]) + |ls[|ls| - 1]|
  }

  /** The length the store caches: every character, plus one separator
      between consecutive lines; zero when there are no lines. */
  function CachedLength(ls: seq<string>): nat
  {
    if ls == [] then 0 else Chars(ls) + |ls| - 1
  }

  /** The offset at which line `i` starts: the span of the lines before it. */
  function StartOf(ls: seq<string>, i: nat): nat
    requires i <= |ls|
  {
    Span(ls[..i])
  }

  /** The offset resolver as `line_at` scans: starting at line `i`, skip every
      line whose end lies before `p`; stop at the first line with
      `p <= start + len`. When every line is skipped, the scan ends with
      line index |ls|, the start after the last newline and the length of
      the last line looked at. */
  function ResolveFrom(ls: seq<string>, p: nat, i: nat): (r: Loc)
    requires i <= |ls|
    ensures i <= r.line <= |ls| && r.start == StartOf(ls, r.line)
    ensures r.line < |ls| ==> r.len == |ls[r.line]| && p <= r.start + r.len
    ensures r.line == |ls| ==> r.len == (if r.line == 0 then 0 else |ls[r.line - 1]|)
    decreases |ls| - i
  {
    if i == |ls| then Loc(i, StartOf(ls, i), if i == 0 then 0 else |ls[i - 1]|)
    else if p > StartOf(ls, i) + |ls[i]| then ResolveFrom(ls, p, i + 1)
    else Loc(i, StartOf(ls, i), |ls[i]|)
  }

  /** `line_at(p)`. */
  function Resolve(ls: seq<string>, p: nat): (r: Loc)
    ensures r.line <= |ls|
  {
    ResolveFrom(ls, p, 0)
  }

  // ---------------------------------------------------------------------
  // Facts about lengths and line starts

  lemma {:induction false} SpanAppend(a: seq<string>, b: seq<string>)
    ensures Span(a + b) == Span(a) + Span(b)
    ensures Chars(a + b) == Chars(a) + Chars(b)
    decreases |b|
  {
    if b == [] {
      assert a + b == a;
    } else {
      var b' := b[..|b| - 1];
      assert (a + b)[..|a + b| - 1] == a + b';
      SpanAppend(a, b');
    }
  }

  /** The accumulated span is the characters plus one newline per line. */
  lemma {:induction false} SpanIsCharsPlusLines(ls: seq<string>)
    ensures Span(ls) == Chars(ls) + |ls|
    decreases |ls|
  {
    if ls != [] {
      SpanIsCharsPlusLines(ls[..|ls| - 1]);
    }
  }

  /** What `from_file` stores as `length` (the span, minus the one newline
      counted after the last line, or 0) is the cached length. */
  lemma FromFileLength(ls: seq<string>)
    ensures (if Span(ls) == 0 then 0 else Span(ls) - 1) == CachedLength(ls)
    ensures Span(ls) == 0 <==> ls == []
  {
    SpanIsCharsPlusLines(ls);
  }

  lemma StartOfNext(ls: seq<string>, i: nat)
    requires i < |ls|
    ensures StartOf(ls, i + 1) == StartOf(ls, i) + |ls[i]| + 1
  {
    assert ls[..i + 1][..i] == ls[..i];
  }

  /** Line starts strictly increase: line `j` and its newline end before
      line `i` starts. */
  lemma {:induction false} StartOfMono(ls: seq<string>, j: nat, i: nat)
    requires j < i <= |ls|
    ensures StartOf(ls, j) + |ls[j]| + 1 <= StartOf(ls, i)
    decreases i - j
  {
    StartOfNext(ls, j);
    if j + 1 < i {
      StartOfMono(ls, j + 1, i);
      StartOfNext(ls, j + 1);
    }
  }

  /** Every line ends within the cached length; the last one ends exactly
      there. */
  lemma LineEndWithin(ls: seq<string>, i: nat)
    requires i < |ls|
    ensures StartOf(ls, i) + |ls[i]| <= CachedLength(ls)
    ensures i == |ls| - 1 ==> StartOf(ls, i) + |ls[i]| == CachedLength(ls)
  {
    assert ls[..|ls|] == ls;
    SpanIsCharsPlusLines(ls);
    StartOfNext(ls, i);
    if i + 1 < |ls| {
      StartOfMono(ls, i + 1, |ls|);
      StartOfNext(ls, i + 1);
    }
  }

  // ---------------------------------------------------------------------
  // The resolver

  lemma {:induction false} ResolveFromFound(ls: seq<string>, p: nat, i: nat)
    requires |ls| > 0 && i <= |ls| && StartOf(ls, i) <= p <= CachedLength(ls)
    ensures var r := ResolveFrom(ls, p, i);
      i <= r.line < |ls| && r.start == StartOf(ls, r.line) && r.len == |ls[r.line]| &&
      r.start <= p <= r.start + r.len
    decreases |ls| - i
  {
    assert ls[..|ls|] == ls;
    SpanIsCharsPlusLines(ls);
    if i == |ls| {
      assert false;
    }
    if p > StartOf(ls, i) + |ls[i]| {
      StartOfNext(ls, i);
      ResolveFromFound(ls, p, i + 1);
    }
  }

  /** For an offset inside a non-empty text, `line_at` returns a line that
      exists, its true start (the span of the lines before it) and its
      length, and the offset lies between the line's start and its end. */
  lemma ResolveSpec(ls: seq<string>, p: nat)
    requires |ls| > 0 && p <= CachedLength(ls)
    ensures var r := Resolve(ls, p);
      r.line < |ls| && r.start == StartOf(ls, r.line) && r.len == |ls[r.line]| &&
      r.start <= p <= r.start + r.len
  {
    ResolveFromFound(ls, p, 0);
  }

  /** On an empty text, `line_at` returns (0, 0, 0) whatever the offset. */
  lemma ResolveEmpty(p: nat)
    ensures Resolve([], p) == Loc(0, 0, 0)
  {
  }

  lemma {:induction false} ResolveFromSkips(ls: seq<string>, p: nat, j: nat, i: nat)
    requires j <= i < |ls| && StartOf(ls, i) <= p <= StartOf(ls, i) + |ls[i]|
    ensures ResolveFrom(ls, p, j) == Loc(i, StartOf(ls, i), |ls[i]|)
    decreases i - j
  {
    if j < i {
      StartOfMono(ls, j, i);
      ResolveFromSkips(ls, p, j + 1, i);
    }
  }

  /** The converse of ResolveSpec: every offset from a line's start up to
      AND INCLUDING its end resolves to that line. So an offset equal to
      `start + len` (the newline position) stays on the current line and
      never moves on to the next one. */
  lemma ResolveUnique(ls: seq<string>, p: nat, i: nat)
    requires i < |ls| && StartOf(ls, i) <= p <= StartOf(ls, i) + |ls[i]|
    ensures Resolve(ls, p) == Loc(i, StartOf(ls, i), |ls[i]|)
  {
    ResolveFromSkips(ls, p, 0, i);
  }

  /** The end of the document resolves to the last line. */
  lemma EndResolvesToLastLine(ls: seq<string>)
    requires |ls| > 0
    ensures Resolve(ls, CachedLength(ls)) ==
      Loc(|ls| - 1, StartOf(ls, |ls| - 1), |ls[|ls| - 1]|)
  {
    LineEndWithin(ls, |ls| - 1);
    ResolveUnique(ls, CachedLength(ls), |ls| - 1);
  }

  /** Resolving the start or the end of the line that holds `p` gives back
      the same line, start and length. */
  lemma LineEndsResolveToSameLine(ls: seq<string>, p: nat)
    requires p <= CachedLength(ls)
    ensures var r := Resolve(ls, p);
      Resolve(ls, r.start) == r && Resolve(ls, r.start + r.len) == r
  {
    if |ls| > 0 {
      ResolveSpec(ls, p);
      var r := Resolve(ls, p);
      ResolveUnique(ls, r.start, r.line);
      ResolveUnique(ls, r.start + r.len, r.line);
    }
  }

  // ---------------------------------------------------------------------
  // Removing a line

  /** Removing line `i` keeps the other lines in order and takes the line's
      characters and one separator off the cached length; removing the only
      line leaves length 0. */
  lemma RemoveLength(ls: seq<string>, i: nat)
    requires i < |ls|
    ensures var rest := ls[..i] + ls[i + 1..];
      |rest| == |ls| - 1 &&
      (forall k :: 0 <= k < i ==> rest[k] == ls[k]) &&
      (forall k :: i <= k < |rest| ==> rest[k] == ls[k + 1]) &&
      CachedLength(rest) == if |ls| == 1 then 0 else CachedLength(ls) - |ls[i]| - 1
  {
    var rest := ls[..i] + ls[i + 1..];
    assert ls == ls[..i] + [ls[i]] + ls[i + 1..];
    SpanAppend(ls[..i] + [ls[i]], ls[i + 1..]);
    SpanAppend(ls[..i], [ls[i]]);
    SpanAppend(ls[..i], ls[i + 1..]);
    assert Chars([ls[i]]) == |ls[i]| by {
      assert [ls[i]][..0] == [];
    }
  }

  // ---------------------------------------------------------------------
  // The store itself

  class Text {
    var length: nat
    var newlines: nat
    var text: seq<string>

    /** The cached fields agree with the lines. */
    ghost predicate Valid()
      reads this
    {
      newlines == |text| && length == CachedLength(text)
    }

    /** `from_file`, from lines already split: one pass that pushes each
        line and accumulates its length plus one newline. */
    constructor FromLines(lines: seq<string>)
      ensures Valid() && text == lines
    {
      var acc: seq<string> := [];
      var len: nat := 0;
      var count: nat := 0;
      var i := 0;
      while i < |lines|
        invariant 0 <= i <= |lines|
        invariant acc == lines[..i]
        invariant len == Span(acc) && count == i
      {
        assert (acc + [lines[i]])[..|acc|] == acc;
        len := len + |lines[i]| + 1;
        count := count + 1;
        acc := acc + [lines[i]];
        i := i + 1;
      }
      assert acc == lines;
      FromFileLength(lines);
      length := if len == 0 then 0 else len - 1;
      newlines := count;
      text := acc;
    }

    /** `line_at`: the linear scan over the lines. */
    method LineAt(p: nat) returns (r: Loc)
      ensures r == Resolve(text, p)
    {
      var line: nat := 0;
      var start: nat := 0;
      var len: nat := 0;
      var i := 0;
      while i < |text|
        invariant 0 <= i <= |text|
        invariant line == i && start == StartOf(text, i)
        invariant len == if i == 0 then 0 else |text[i - 1]|
        invariant ResolveFrom(text, p, i) == Resolve(text, p)
      {
        len := |text[i]|;
        if p > start + len {
          StartOfNext(text, i);
          start := start + len + 1;
          line := line + 1;
          i := i + 1;
        } else {
          break;
        }
      }
      r := Loc(line, start, len);
    }

    /** `delete_line`: with at least one line, remove line `line` and keep
        the cached length and count consistent; with none, do nothing. */
    method DeleteLine(line: nat)
      requires Valid()
      requires newlines > 0 ==> line < newlines
      modifies this
      ensures Valid()
      ensures old(newlines) == 0 ==> text == old(text) && length == old(length)
      ensures old(newlines) > 0 ==> text == old(text[..line] + text[line + 1..])
      ensures length == if old(newlines) <= 1 then 0 else old(length - |text[line]| - 1)
    {
      if newlines > 0 {
        RemoveLength(text, line);
        if newlines == 1 {
          length := 0;
        } else {
          length := length - (|text[line]| + 1);
        }
        newlines := newlines - 1;
        text := text[..line] + text[line + 1..];
      }
    }
  }
}
