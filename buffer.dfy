/** The buffer: a line store, a linear cursor ("point") over it and a
    viewport, with the cursor movements and line deletion an editor key
    triggers. */
module Editor {
  import opened LineStore
  import opened Viewport

  datatype Option<T> = None | Some(value: T)

  function Min(a: nat, b: nat): nat
  {
    if a <= b then a else b
  }

  function Max(a: nat, b: nat): nat
  {
    if a >= b then a else b
  }

  // ---------------------------------------------------------------------
  // One step of each movement, on values

  /** Moving right from `p` either stays on the line (one column further)
      or, from the newline position at the end of a line, lands on column 0
      of the next line. */
  lemma RightStep(ls: seq<string>, p: nat)
    requires p < CachedLength(ls)
    ensures var r := Resolve(ls, p);
      if p == r.start + r.len then
        r.line + 1 < |ls| && Resolve(ls, p + 1) == Loc(r.line + 1, p + 1, |ls[r.line + 1]|)
      else
        Resolve(ls, p + 1) == r
  {
    ResolveSpec(ls, p);
    var r := Resolve(ls, p);
    if p == r.start + r.len {
      LineEndWithin(ls, r.line);
      StartOfNext(ls, r.line);
      ResolveUnique(ls, p + 1, r.line + 1);
    } else {
      ResolveUnique(ls, p + 1, r.line);
    }
  }

  /** Moving left from `p > 0` either stays on the line (one column back)
      or, from column 0, lands on the newline position at the end of the
      previous line. */
  lemma LeftStep(ls: seq<string>, p: nat)
    requires 0 < p <= CachedLength(ls)
    ensures var r := Resolve(ls, p);
      r.line < |ls| &&
      if p == r.start then
        0 < r.line &&
        Resolve(ls, p - 1) == Loc(r.line - 1, StartOf(ls, r.line - 1), |ls[r.line - 1]|) &&
        p - 1 == StartOf(ls, r.line - 1) + |ls[r.line - 1]|
      else
        Resolve(ls, p - 1) == r
  {
    ResolveSpec(ls, p);
    var r := Resolve(ls, p);
    if p == r.start {
      assert r.line != 0;
      StartOfNext(ls, r.line - 1);
      ResolveUnique(ls, p - 1, r.line - 1);
    } else {
      ResolveUnique(ls, p - 1, r.line);
    }
  }

  /** The offset `move_down` computes, `min(length, start + len + 1)`, is
      column 0 of the next line, or the end of the document on the last
      line (and 0 on an empty text). */
  lemma DownStep(ls: seq<string>, p: nat)
    requires p <= CachedLength(ls)
    ensures var r := Resolve(ls, p);
      var q := Min(CachedLength(ls), r.start + r.len + 1);
      (r.line + 1 < |ls| ==>
        q == StartOf(ls, r.line + 1) && Resolve(ls, q) == Loc(r.line + 1, q, |ls[r.line + 1]|)) &&
      (r.line + 1 >= |ls| ==> q == CachedLength(ls) && Resolve(ls, q).line == r.line)
  {
    if |ls| > 0 {
      ResolveSpec(ls, p);
      var r := Resolve(ls, p);
      LineEndWithin(ls, r.line);
      if r.line + 1 < |ls| {
        StartOfNext(ls, r.line);
        LineEndWithin(ls, r.line + 1);
        ResolveUnique(ls, r.start + r.len + 1, r.line + 1);
      } else {
        EndResolvesToLastLine(ls);
      }
    }
  }

  /** The offset `move_up` computes (0 on line 0, otherwise the start of the
      line holding `start - 1`) is column 0 of the previous line, or 0 on
      the first line. */
  lemma UpStep(ls: seq<string>, p: nat)
    requires p <= CachedLength(ls)
    ensures var r := Resolve(ls, p);
      var q := if r.start == 0 then 0 else Resolve(ls, r.start - 1).start;
      q <= CachedLength(ls) && Resolve(ls, q).start == q &&
      (r.line == 0 ==> q == 0 && Resolve(ls, q).line == 0) &&
      (r.line > 0 ==>
        r.line < |ls| && q == StartOf(ls, r.line - 1) &&
        Resolve(ls, q) == Loc(r.line - 1, q, |ls[r.line - 1]|))
  {
    if |ls| > 0 {
      ResolveSpec(ls, p);
      var r := Resolve(ls, p);
      if r.line > 0 {
        StartOfMono(ls, 0, r.line);
        StartOfNext(ls, r.line - 1);
        ResolveUnique(ls, r.start - 1, r.line - 1);
        ResolveUnique(ls, StartOf(ls, r.line - 1), r.line - 1);
      } else {
        ResolveUnique(ls, 0, 0);
      }
    }
  }

  /** After line `i` is removed, `min(length, old start)` is column 0 of the
      line that moved up into index `i`; when the last line was removed it
      is the end of the new last line (0 when no line is left). */
  lemma DeleteLands(ls: seq<string>, i: nat)
    requires i < |ls|
    ensures var rest := ls[..i] + ls[i + 1..];
      var q := Min(CachedLength(rest), StartOf(ls, i));
      (i < |rest| ==> q == StartOf(ls, i) && Resolve(rest, q) == Loc(i, q, |rest[i]|)) &&
      (i == |rest| ==> q == CachedLength(rest) && Resolve(rest, q).line == (if i == 0 then 0 else i - 1))
  {
    var rest := ls[..i] + ls[i + 1..];
    assert rest[..i] == ls[..i];
    assert StartOf(rest, i) == StartOf(ls, i);
    if i < |rest| {
      LineEndWithin(rest, i);
      ResolveUnique(rest, StartOf(ls, i), i);
    } else if i > 0 {
      assert rest[..|rest|] == rest;
      SpanIsCharsPlusLines(rest);
      EndResolvesToLastLine(rest);
    }
  }

  /** `move_end` as written adjusts the view to `self.lines() - 1`, a
      `usize` subtraction; `None` stands for the overflow panic. */
  function EndLineAsWritten(lines: nat): (r: Option<nat>)
    ensures r.Some? <==> lines > 0
    ensures r.Some? ==> r.value + 1 == lines
  {
    if lines >= 1 then Some(lines - 1) else None
  }

  /** On an empty text the subtraction in `move_end` underflows. */
  lemma EndLineAsWrittenOnEmpty()
    ensures EndLineAsWritten(0) == None
  {
  }

  /** The resolver's facts for an offset within the document, empty or
      not: ResolveSpec and ResolveEmpty together. */
  lemma CursorFacts(ls: seq<string>, p: nat)
    requires p <= CachedLength(ls)
    ensures var r := Resolve(ls, p);
      r.start <= p &&
      (|ls| > 0 ==> r.line < |ls| && r.start == StartOf(ls, r.line) && r.len == |ls[r.line]| &&
                    p <= r.start + r.len) &&
      (|ls| == 0 ==> r == Loc(0, 0, 0))
  {
    if |ls| > 0 {
      ResolveSpec(ls, p);
    }
  }

  // ---------------------------------------------------------------------
  // The buffer

  class Buffer {
    const name: string
    const path: string
    var point: nat
    const view: View
    const data: Text

    /** The store is consistent, the point lies in the document, and it
        resolves to an existing line (line 0 of an empty text). */
    ghost predicate Valid()
      reads this, data
    {
      data.Valid() && point <= data.length &&
      Cursor().start <= point && (|data.text| > 0 ==> Cursor().line < |data.text|)
    }

    /** `line_at(point)`. */
    ghost function Cursor(): Loc
      reads this, data
    {
      Resolve(data.text, point)
    }

    ghost function Line(): nat
      reads this, data
    {
      Cursor().line
    }

    ghost function Column(): nat
      reads this, data
      requires Valid()
    {
      point - Cursor().start
    }

    /** The line holding the point is on screen. */
    ghost predicate CursorVisible()
      reads this, data, view
    {
      view.y <= Line() < view.y + view.height
    }

    /** `lines()`: the cached count is the number of lines. */
    function Lines(): (n: nat)
      reads this, data
      requires Valid()
      ensures n == |data.text|
    {
      data.newlines
    }

    /** `load`, from lines already split and the terminal's row count; one
        row is kept for the status line. */
    constructor Load(name: string, path: string, lines: seq<string>, rows: nat)
      requires rows >= 1
      ensures Valid() && fresh(data) && fresh(view)
      ensures this.name == name && this.path == path
      ensures data.text == lines && point == 0 && Line() == 0
      ensures view.y == 0 && view.height == rows - 1
      ensures view.height >= 1 ==> CursorVisible()
    {
      this.name := name;
      this.path := path;
      point := 0;
      view := new View(rows - 1);
      data := new Text.FromLines(lines);
      new;
      CursorFacts(lines, 0);
    }

    method MoveRight()
      requires Valid()
      modifies this, view
      ensures Valid()
      ensures point == if old(point) < data.length then old(point) + 1 else old(point)
      ensures old(point) < data.length ==>
        if old(Column()) == old(Cursor().len) then Line() == old(Line()) + 1 && Column() == 0
        else Line() == old(Line()) && Column() == old(Column()) + 1
      ensures view.y == Scroll(old(view.y), view.height, Line())
      ensures view.height >= 1 ==> CursorVisible()
    {
      if point < data.length {
        RightStep(data.text, point);
      }
      point := Max(0, Min(data.length, point + 1));
      CursorFacts(data.text, point);
      var loc := data.LineAt(point);
      view.Adjust(loc.line);
    }

    method MoveLeft()
      requires Valid()
      modifies this, view
      ensures Valid()
      ensures point == if old(point) > 0 then old(point) - 1 else 0
      ensures old(point) > 0 ==>
        if old(Column()) == 0 then Line() == old(Line()) - 1 && Column() == Cursor().len
        else Line() == old(Line()) && Column() == old(Column()) - 1
      ensures view.y == Scroll(old(view.y), view.height, Line())
      ensures view.height >= 1 ==> CursorVisible()
    {
      if point > 0 {
        LeftStep(data.text, point);
        point := Max(0, point - 1);
      }
      CursorFacts(data.text, point);
      var loc := data.LineAt(point);
      view.Adjust(loc.line);
    }

    /** Neither end-of-line movement adjusts the view: the line does not
        change, so a visible cursor stays visible. */
    method MoveEndOfLine()
      requires Valid()
      modifies this
      ensures Valid()
      ensures point == old(Cursor().start + Cursor().len)
      ensures Cursor() == old(Cursor()) && Column() == Cursor().len
      ensures old(CursorVisible()) ==> CursorVisible()
    {
      LineEndsResolveToSameLine(data.text, point);
      CursorFacts(data.text, point);
      if |data.text| > 0 {
        ResolveSpec(data.text, point);
        LineEndWithin(data.text, Cursor().line);
      }
      var loc := data.LineAt(point);
      point := loc.start + loc.len;
    }

    method MoveStartOfLine()
      requires Valid()
      modifies this
      ensures Valid()
      ensures point == old(Cursor().start)
      ensures Cursor() == old(Cursor()) && Column() == 0
      ensures old(CursorVisible()) ==> CursorVisible()
    {
      LineEndsResolveToSameLine(data.text, point);
      var loc := data.LineAt(point);
      point := loc.start;
    }

    method MoveDown()
      requires Valid()
      modifies this, view
      ensures Valid()
      ensures old(Line()) + 1 < |data.text| ==>
        point == StartOf(data.text, old(Line()) + 1) && Line() == old(Line()) + 1 && Column() == 0
      ensures old(Line()) + 1 >= |data.text| ==> point == data.length && Line() == old(Line())
      ensures view.y == Scroll(old(view.y), view.height, Line())
      ensures view.height >= 1 ==> CursorVisible()
    {
      DownStep(data.text, point);
      var loc := data.LineAt(point);
      point := Min(data.length, loc.start + loc.len + 1);
      CursorFacts(data.text, point);
      var loc2 := data.LineAt(point);
      view.Adjust(loc2.line);
    }

    method MoveUp()
      requires Valid()
      modifies this, view
      ensures Valid()
      ensures old(Line()) == 0 ==> point == 0 && Line() == 0
      ensures old(Line()) > 0 ==> point == StartOf(data.text, old(Line()) - 1) && Line() == old(Line()) - 1
      ensures Column() == 0
      ensures view.y == Scroll(old(view.y), view.height, Line())
      ensures view.height >= 1 ==> CursorVisible()
    {
      UpStep(data.text, point);
      var loc := data.LineAt(point);
      ghost var target := if loc.start == 0 then 0 else Resolve(data.text, loc.start - 1).start;
      if loc.start == 0 {
        point := 0;
      } else {
        point := loc.start - 1;
        var prev := data.LineAt(point);
        point := prev.start;
      }
      assert point == target;
      var loc2 := data.LineAt(point);
      view.Adjust(loc2.line);
    }

    method MoveStart()
      requires Valid()
      modifies this, view
      ensures Valid()
      ensures point == 0 && Line() == 0
      ensures view.y == Scroll(old(view.y), view.height, 0)
      ensures view.height >= 1 ==> CursorVisible()
    {
      point := 0;
      CursorFacts(data.text, 0);
      view.Adjust(0);
    }

    /** `move_end`, adjusting the view to line 0 rather than underflowing
        when the text is empty. */
    method MoveEnd()
      requires Valid()
      modifies this, view
      ensures Valid()
      ensures point == data.length
      ensures Line() == if |data.text| == 0 then 0 else |data.text| - 1
      ensures view.y == Scroll(old(view.y), view.height, Line())
      ensures view.height >= 1 ==> CursorVisible()
    {
      var line := if data.newlines == 0 then 0 else data.newlines - 1;
      point := data.length;
      CursorFacts(data.text, point);
      if |data.text| > 0 {
        EndResolvesToLastLine(data.text);
      }
      view.Adjust(line);
    }

    /** `delete_line`: remove the line holding the point, then clamp the
        point to `min(new length, old line start)`. */
    method DeleteLine()
      requires Valid()
      modifies this, view, data
      ensures Valid()
      ensures old(|data.text|) == 0 ==> data.text == [] && point == 0
      ensures old(|data.text|) > 0 ==>
        |data.text| == old(|data.text|) - 1 &&
        data.text == old(data.text[..Line()] + data.text[Line() + 1..])
      ensures point == Min(data.length, old(Cursor().start))
      ensures old(Line()) < |data.text| ==> Line() == old(Line()) && Column() == 0
      ensures old(|data.text|) > 0 && old(Line()) == |data.text| ==>
        point == data.length && Line() == (if |data.text| == 0 then 0 else |data.text| - 1)
      ensures view.y == Scroll(old(view.y), view.height, Line())
      ensures view.height >= 1 ==> CursorVisible()
    {
      var loc := data.LineAt(point);
      ghost var before := data.text;
      if |before| > 0 {
        ResolveSpec(before, point);
        DeleteLands(before, loc.line);
      }
      data.DeleteLine(loc.line);
      point := Max(0, Min(data.length, loc.start));
      CursorFacts(data.text, point);
      var loc2 := data.LineAt(point);
      view.Adjust(loc2.line);
    }
  }
}
