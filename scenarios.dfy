/** Client code: key sequences of an editing session, checked against the
    buffer's contracts alone. */
module Scenarios {
  import opened LineStore
  import opened Editor
  import opened Render

  /** Lines "abc", "de", "f": the length is 3 + 1 + 2 + 1 + 1 = 8; the end of line 0 is offset
      3; moving down from there lands on offset 4, the start of "de";
      deleting line 0 from a fresh buffer leaves "de", "f", length 4, with
      the point at 0. */
  method ThreeLines()
  {
    var ls := ["abc", "de", "f"];
    assert ls[..2] == ["abc", "de"] && ls[..2][..1] == ["abc"] && ["abc"][..0] == [];
    assert Chars(["abc"]) == 3 && Chars(["abc", "de"]) == 5 && Chars(ls) == 6;
    assert CachedLength(ls) == 8;
    assert StartOf(ls, 1) == 4;
    var rest := ["de", "f"];
    assert rest[..1] == ["de"] && ["de"][..0] == [];
    assert Chars(["de"]) == 2 && Chars(rest) == 3;
    assert CachedLength(rest) == 4;
    var b := new Buffer.Load("f.txt", "/tmp/f.txt", ls, 24);
    assert b.data.length == 8;
    b.MoveEndOfLine();
    assert b.point == 3;
    b.MoveDown();
    assert b.point == 4 && b.Line() == 1;

    var c := new Buffer.Load("f.txt", "/tmp/f.txt", ls, 24);
    c.DeleteLine();
    assert c.data.text == ["de", "f"];
    assert c.data.length == 4 && c.point == 0;
  }

  /** An empty file: every movement leaves the point at 0, and the window
      is only a cleared screen. */
  method EmptyFile()
  {
    var b := new Buffer.Load("e.txt", "/tmp/e.txt", [], 24);
    b.MoveRight();
    b.MoveDown();
    b.MoveEnd();
    b.MoveLeft();
    b.MoveUp();
    b.MoveEndOfLine();
    b.DeleteLine();
    assert b.point == 0 && b.Lines() == 0;
    var out := DisplayLines(b);
    assert out == [ClearAll];
  }

  /** Ten lines, a window of three rows: moving down nine times from the
      top scrolls the origin to 9 - 3 + 1 = 7. */
  method TenLines()
  {
    var ls := ["", "", "", "", "", "", "", "", "", ""];
    var b := new Buffer.Load("t.txt", "/tmp/t.txt", ls, 4);
    assert b.view.height == 3;
    var k := 0;
    while k < 9
      invariant 0 <= k <= 9 && b.Valid() && b.data.text == ls
      invariant b.Line() == k && b.view.y == Max(k, 2) - 2
      modifies b, b.view
    {
      b.MoveDown();
      k := k + 1;
    }
    assert b.Line() == 9 && b.view.y == 7;
  }
}
