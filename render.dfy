/** The renderer: a read-only projection of a buffer onto terminal
    directives (cursor moves, line text, clears and the status line). */
module Render {
  import opened LineStore
  import opened Editor

  /** What the renderer writes to the terminal. Coordinates are 1-based,
      as the terminal library counts them. */
  datatype Directive =
    | Goto(col: nat, row: nat)
    | Line(text: string)
    | Status(name: string, path: string, column: nat, line: nat, lines: nat)
    | ClearUntilNewline
    | ClearAfterCursor
    | ClearAll

  /** The `as u16` cast applied to a terminal coordinate. */
  function Trunc16(x: nat): nat
  {
    x % 0x1_0000
  }

  /** Screen row `j + 1`, holding line `y + j`. */
  function RowAt(ls: seq<string>, y: nat, j: nat): seq<Directive>
    requires y + j < |ls|
  {
    [Goto(1, j + 1), Line(ls[y + j]), ClearUntilNewline]
  }

  /** The first `k` rows of a window starting at line `y`. */
  function Rows(ls: seq<string>, y: nat, k: nat): (r: seq<Directive>)
    requires y + k <= |ls|
    ensures |r| == 3 * k
    ensures forall j :: 0 <= j < k ==> r[3 * j..3 * j + 3] == RowAt(ls, y, j)
    ensures ClearAfterCursor !in r && ClearAll !in r
  {
    if k == 0 then [] else Rows(ls, y, k - 1) + RowAt(ls, y, k - 1)
  }

  /** What `display_lines` emits: a cleared screen for an empty text;
      otherwise the remaining lines from `y` on, at most `height` of them
      but always at least one, followed by a clear of the rest of the
      screen when the last line of the text was drawn. */
  function Frame(ls: seq<string>, y: nat, height: nat): (r: seq<Directive>)
    requires |ls| == 0 || y <= |ls|
    ensures ClearAll in r <==> |ls| == 0
  {
    if |ls| == 0 then [ClearAll]
    else
      var count := |ls| - y;
      Rows(ls, y, Min(count, Max(height, 1))) +
      (if 0 < count <= Max(height, 1) then [ClearAfterCursor] else [])
  }

  /** For a window that starts on an existing line and has a height of at
      least one: `min(height, n - y)` rows are drawn, row `j + 1` showing
      line `y + j`, and the rest of the screen is cleared exactly when the
      text ends within the window. */
  lemma FrameShape(ls: seq<string>, y: nat, height: nat)
    requires height >= 1 && y < |ls|
    ensures var f := Frame(ls, y, height);
      var k := Min(height, |ls| - y);
      |f| == 3 * k + (if |ls| - y <= height then 1 else 0) &&
      (forall j :: 0 <= j < k ==> f[3 * j..3 * j + 3] == RowAt(ls, y, j)) &&
      (ClearAfterCursor in f <==> |ls| - y <= height) &&
      ClearAll !in f
  {
    var k := Min(height, |ls| - y);
    var rows := Rows(ls, y, k);
    var f := Frame(ls, y, height);
    var tail: seq<Directive> := if |ls| - y <= height then [ClearAfterCursor] else [];
    assert f == rows + tail;
    forall j | 0 <= j < k
      ensures f[3 * j..3 * j + 3] == RowAt(ls, y, j)
    {
      assert f[3 * j..3 * j + 3] == rows[3 * j..3 * j + 3];
    }
  }

  /** `display_lines`: the loop over `text[y..]` with the row counter `ln`,
      stopping after the last line (and clearing below it) or after
      `height` rows. */
  method DisplayLines(b: Buffer) returns (out: seq<Directive>)
    requires b.Valid()
    requires b.Lines() > 0 ==> b.view.y <= b.Lines()
    ensures out == Frame(b.data.text, b.view.y, b.view.height)
  {
    if b.Lines() == 0 {
      out := [ClearAll];
      return;
    }
    var ln: nat := 0;
    var i := b.view.y;
    var lines := b.data.text[i..];
    var count := |lines|;
    out := [];
    while ln < count
      invariant ln == 0 || (ln < count && ln < b.view.height)
      invariant out == Rows(b.data.text, i, ln)
    {
      out := out + [Goto(1, ln + 1), Line(lines[ln]), ClearUntilNewline];
      ln := ln + 1;
      if ln >= count {
        assert ln == Min(count, Max(b.view.height, 1));
        out := out + [ClearAfterCursor];
        break;
      } else if ln >= b.view.height {
        assert ln == Min(count, Max(b.view.height, 1));
        break;
      }
    }
  }

  /** `display_status_line`: on the row below the window, the buffer's name
      and path and the cursor's 1-based column and line with the line
      count. The reported line exists, the column is at most one past the
      line's last character, and together they locate the point. */
  function StatusLine(b: Buffer): (r: seq<Directive>)
    reads b, b.data, b.view
    requires b.Valid()
    ensures |r| == 3 && r[0] == Goto(1, Trunc16(b.view.height + 1)) && r[2] == ClearUntilNewline
    ensures r[1].Status? && r[1].name == b.name && r[1].path == b.path
    ensures r[1].lines == |b.data.text| && r[1].column >= 1 && r[1].line >= 1
    ensures |b.data.text| > 0 ==>
      r[1].line <= |b.data.text| &&
      r[1].column <= |b.data.text[r[1].line - 1]| + 1 &&
      StartOf(b.data.text, r[1].line - 1) + r[1].column - 1 == b.point
    ensures |b.data.text| == 0 ==> r[1].column == 1 && r[1].line == 1
  {
    CursorFacts(b.data.text, b.point);
    var loc := Resolve(b.data.text, b.point);
    [Goto(1, Trunc16(b.view.height + 1)),
     Status(b.name, b.path, b.point - loc.start + 1, loc.line + 1, b.Lines()),
     ClearUntilNewline]
  }

  /** `display_point`: the terminal cursor goes to the column the status
      line reports and to the cursor's line counted from the window's top.
      For a visible cursor that row lies inside the window. */
  function PointDirective(b: Buffer): (d: Directive)
    reads b, b.data, b.view
    requires b.Valid() && b.view.y <= b.Line()
    ensures d.Goto?
    ensures d.col == Trunc16(StatusLine(b)[1].column)
    ensures d.row == Trunc16(StatusLine(b)[1].line - b.view.y)
    ensures b.CursorVisible() && b.view.height < 0x1_0000 ==> 1 <= d.row <= b.view.height
  {
    var loc := Resolve(b.data.text, b.point);
    Goto(Trunc16(b.point - loc.start + 1), Trunc16(loc.line - b.view.y + 1))
  }

  /** `display`: the window, then the status line, then the cursor. */
  method Display(b: Buffer) returns (out: seq<Directive>)
    requires b.Valid() && b.view.y <= b.Line()
    ensures out == Frame(b.data.text, b.view.y, b.view.height) + StatusLine(b) + [PointDirective(b)]
  {
    if b.Lines() > 0 {
      CursorFacts(b.data.text, b.point);
    }
    var lines := DisplayLines(b);
    out := lines + StatusLine(b) + [PointDirective(b)];
  }
}
