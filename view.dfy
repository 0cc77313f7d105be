/** The viewport: the index of the first visible line and how many lines
    are drawn. */
module Viewport {

  /** Distance between two line indices. */
  function Dist(a: nat, b: nat): nat
  {
    if a <= b then b - a else a - b
  }

  /** The origin `adjust(line)` leaves when the origin was `y`. With a
      height of at least one, the line ends up inside the window; a line
      already inside the window does not scroll it; and no other origin
      that shows the line is closer to `y`. */
  function Scroll(y: nat, height: nat, line: nat): (r: nat)
    ensures height >= 1 ==> r <= line < r + height
    ensures y <= line < y + height ==> r == y
    ensures height >= 1 ==>
      forall y': nat :: y' <= line < y' + height ==> Dist(r, y) <= Dist(y', y)
  {
    if line < y then line
    else if line >= y + height then line - height + 1
    else y
  }

  /** Adjusting twice to the same line scrolls no further than once. */
  lemma ScrollIdempotent(y: nat, height: nat, line: nat)
    requires height >= 1
    ensures Scroll(Scroll(y, height, line), height, line) == Scroll(y, height, line)
  {
  }

  class View {
    var y: nat
    const height: nat

    constructor (height: nat)
      ensures y == 0 && this.height == height
    {
      y := 0;
      this.height := height;
    }

    /** Scroll up to a line above the window (it becomes the first row) or
        down to a line below it (it becomes the last row). */
    method Adjust(line: nat)
      modifies this
      ensures y == Scroll(old(y), height, line)
      ensures height >= 1 ==> y <= line < y + height
    {
      if line < y {
        y := line;
      } else if line >= y + height {
        y := line - height + 1;
      }
    }
  }
}
