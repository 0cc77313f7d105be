# mini-rs editor core in Dafny

A model of the editing core of `mini-rs`, a minimal terminal text viewer. It
covers these parts:

- **Line store** (`Text`, module `LineStore`, `text.dfy`). The document is a
  sequence of lines with two cached fields: `length` (all characters plus one
  separator between lines) and `newlines` (the line count).
- **Resolver** (`line_at`). It maps a linear offset to `(line, start, len)`.
  It is modelled as the recursive function `ResolveFrom`, which follows the
  scan step by step, and as the loop method `Text.LineAt`.
- **Viewport** (`View`, module `Viewport`, `view.dfy`). It has a scroll origin
  `y`, a `height`, and the one-step `adjust` rule, given as the function
  `Scroll`.
- **Buffer** (module `Editor`, `buffer.dfy`). It holds the linear cursor
  `point`, a `View` and a `Text`. It has the movements right, left, up and
  down, start and end of line, start and end of document, and line deletion.
- **Renderer** (module `Render`, `render.dfy`). It is a read-only projection
  from a buffer to abstract terminal directives: `Goto(col, row)`,
  `Line(text)`, `Status(...)`, `ClearUntilNewline`, `ClearAfterCursor` and
  `ClearAll`.

`Text`, `View` and `Buffer` are classes because the program updates them in
place. Their methods state the whole new state. The value-level lemmas beside
them carry the properties:

- `ResolveSpec` and `ResolveUnique` together fully characterise `line_at`.
  An offset resolves to line `i` exactly when it lies in
  `[start_i, start_i + len_i]`. So the newline position stays on the
  current line.
- Each movement has a one-step lemma that says where the point lands.

`scenarios.dfy` is client code. It checks three editing sessions against the
contracts alone:

- the three-line file `"abc", "de", "f"`;
- an empty file;
- ten lines in a three-row window, where moving down nine times scrolls the
  origin to 7.

For `"abc", "de", "f"` the code adds `len + 1` for each line and subtracts
one: 4 + 3 + 2 - 1 = 8. `Scenarios.ThreeLines` asserts 8.

Lines are `seq<char>`, and a line's length stands for Rust's byte `len()`.
All counters are unbounded `nat`s. Subtractions that would underflow in the
source are guarded by `requires` clauses, as listed under "Left out". The
exception is `move_end`'s subtraction, which `Buffer.MoveEnd` corrects (see
"Findings"). The `as u16`
casts on cursor coordinates are written out as `Trunc16`.

## Model

| member | source | states |
|---|---|---|
| `LineStore.SpanIsCharsPlusLines` | src/main.rs:49-53 | the running total of `len + 1` over the lines is the character count plus one per line |
| `LineStore.FromFileLength` | src/main.rs:55-59 | the stored length (the total less one, or 0) equals characters plus `n - 1` separators, and is 0 exactly when there are no lines |
| `LineStore.Text.FromLines` | src/main.rs:43-60 | building the store from lines keeps them in order, with `newlines == n` and `length` as the cached-length equation gives it |
| `LineStore.Text.LineAt` | src/main.rs:64-79 | the loop returns exactly what the resolver function `Resolve` gives for that offset |
| `LineStore.ResolveFrom` | src/main.rs:64-79 | the scan from line `i` on: it stops at a line `>= i` whose end is at or past the offset, reporting that line's index, start (the sum of `len + 1` over the lines before it) and length; when every line is skipped it reports `(n, span, length of the last line)` |
| `LineStore.Resolve` | src/main.rs:64-79 | `line_at` is the scan from line 0, and the line it reports is at most the line count |
| `LineStore.ResolveSpec` | src/main.rs:64-79 | for `p <= length` in a non-empty text: the line exists, `start` is the sum of `len + 1` over the preceding lines, `len` is that line's length, and `start <= p <= start + len` |
| `LineStore.ResolveUnique` | src/main.rs:68-76 | every offset from a line's start up to and including `start + len` resolves to that line, so the newline position is not charged to the next line |
| `LineStore.ResolveEmpty` | src/main.rs:65-67 | on an empty text the result is `(0, 0, 0)` |
| `LineStore.EndResolvesToLastLine` | src/main.rs:64-79 | the document's end offset resolves to the last line |
| `LineStore.LineEndsResolveToSameLine` | src/main.rs:64-79 | the start and the end of the resolved line resolve back to the same line, start and length |
| `LineStore.LineEndWithin` | src/main.rs:49-56 | every line ends within the cached length, and the last one ends exactly at it |
| `LineStore.RemoveLength` | src/main.rs:89-101 | removing line `i` keeps the other lines in order, drops `len + 1` from the cached length, and leaves 0 when it was the only line |
| `LineStore.Text.DeleteLine` | src/main.rs:89-101 | with lines present: line removed, count down by one, length down by `len + 1`, or to 0 for the only line; with none: nothing changes; the cache stays consistent |
| `Viewport.Scroll` | src/main.rs:23-30 | for height >= 1 the line ends up in `[y, y + height)`; an origin already showing the line is kept; no other origin showing the line is closer to the old one |
| `Viewport.ScrollIdempotent` | src/main.rs:23-30 | adjusting twice to the same line equals adjusting once |
| `Viewport.View.Adjust` | src/main.rs:23-30 | the new origin is `Scroll(old y, height, line)`, which contains the line when height >= 1 |
| `Editor.RightStep` | src/main.rs:133-137 | moving right from inside a line stays on it one column further; from its newline position it reaches column 0 of the next line |
| `Editor.LeftStep` | src/main.rs:139-145 | moving left from `p > 0` stays on the line, or from column 0 reaches the newline position of the previous line |
| `Editor.DownStep` | src/main.rs:157-162 | `min(length, start + len + 1)` is the start of the next line (which it resolves to), or `length` on the last line |
| `Editor.UpStep` | src/main.rs:164-176 | the two-step computation gives column 0 of the previous line, or 0 on line 0 |
| `Editor.DeleteLands` | src/main.rs:189-195 | after removing line `i`, `min(new length, old start)` is column 0 of the line now at index `i`, or the end of the new last line when the last line went |
| `Editor.EndLineAsWritten` | src/main.rs:183-187 | the line `move_end` adjusts to, with the usize subtraction and its overflow as `None` |
| `Editor.EndLineAsWrittenOnEmpty` | src/main.rs:184 | on an empty text that subtraction underflows |
| `Editor.Buffer.Lines` | src/main.rs:129-131 | the cached count is the number of lines |
| `Editor.Buffer.Load` | src/main.rs:114-127 | a fresh buffer: point 0 on line 0, origin 0, height is rows minus one status row, cursor visible when the height is at least 1 |
| `Editor.Buffer.MoveRight` | src/main.rs:133-137 | point clamped at `length`; line and column advance as in RightStep; view adjusted so the cursor stays visible |
| `Editor.Buffer.MoveLeft` | src/main.rs:139-145 | point stays at 0 or goes back one; line and column as in LeftStep; view adjusted |
| `Editor.Buffer.MoveEndOfLine` | src/main.rs:147-150 | same resolved line, column = line length, view untouched and cursor still visible |
| `Editor.Buffer.MoveStartOfLine` | src/main.rs:152-155 | same resolved line, column 0, view untouched and cursor still visible |
| `Editor.Buffer.MoveDown` | src/main.rs:157-162 | point at the start of the next line (line + 1), or at `length` on the last line; view adjusted |
| `Editor.Buffer.MoveUp` | src/main.rs:164-176 | point at column 0 of the previous line, or 0 on line 0; view adjusted |
| `Editor.Buffer.MoveStart` | src/main.rs:178-181 | point 0 on line 0; view adjusted to line 0 |
| `Editor.Buffer.MoveEnd` | src/main.rs:183-187 | point at `length` on the last line, or line 0 of an empty text; view adjusted to it |
| `Editor.Buffer.DeleteLine` | src/main.rs:189-195 | for `n > 0`: the cursor's line is removed, `lines()` drops by one, point is `min(new length, old start)` (column 0 of the following line, or the end of the new last line); deleting the only line leaves no lines, length 0, point 0; on an empty text nothing changes; view adjusted |
| `Render.Rows` | src/main.rs:217-223 | `k` rows: row `j + 1` goes to screen row `j + 1`, writes line `y + j`, then clears to the end of the row |
| `Render.Frame` | src/main.rs:206-233 | what `display_lines` emits; it clears the whole screen exactly when the text has no lines |
| `Render.FrameShape` | src/main.rs:206-233 | with height >= 1 and `y < n`: `min(height, n - y)` rows are drawn, `ClearAfterCursor` appears iff `n - y <= height`, and `ClearAll` does not appear |
| `Render.DisplayLines` | src/main.rs:206-233 | the loop's output is `Frame`: only `ClearAll` for no lines, otherwise `min(n - y, max(height, 1))` rows, then `ClearAfterCursor` iff `0 < n - y <= max(height, 1)` |
| `Render.StatusLine` | src/main.rs:235-249 | goes to row `height + 1`; shows name, path, `lines()`, and the 1-based line and column, which name an existing line and a column at most one past its end and lead back to `point` |
| `Render.PointDirective` | src/main.rs:251-257 | the cursor goes to the column the status line shows and to row `line - y + 1`, which lies in `1..height` for a visible cursor |
| `Render.Display` | src/main.rs:199-204 | the frame, then the status line, then the cursor directive |

## Findings

| source | as written | input that shows it | evidently intended | confidence | as-written member | corrected member |
|---|---|---|---|---|---|---|
| src/main.rs:184 | `move_end` subtracts one from the line count in `usize` arithmetic | an empty file, key `>` | move to the end (offset 0) and adjust the view to line 0, as every other movement does on an empty text | high; not executed | `Editor.EndLineAsWritten` | `Editor.Buffer.MoveEnd` |

As written, a debug build panics on the subtraction at src/main.rs:184. A
release build wraps the line to `usize::MAX`, and `adjust` then leaves the
origin at `usize::MAX - height + 1`. Nothing panics afterwards:
`display_lines` finds no lines and only clears the screen before it would
slice the text (src/main.rs:207-210). But `display_point` computes
`line - y + 1` with wrap-around as 0 - (2^64 - height) + 1 = `height + 1`, so
the cursor is drawn on the status row until the next `adjust(0)` resets the
origin. `Editor.EndLineAsWrittenOnEmpty` exhibits the underflow. The
corrected `Editor.Buffer.MoveEnd` is the one the rest of the model uses.

## Left out

- Terminal I/O (raw mode, termion's escape encoding of clears, cursor moves, bold and colour, `terminal_size`, flush) is left out. Directives are abstract, and the terminal's row count is a parameter of `Buffer.Load`.
- File reading (`File::open`, `BufReader::lines`, the `unwrap`s and the `IoError` path of `from_file` and `load`) is left out. The store is built from lines already split.
- Extracting the file name and path from a `Path` is a library wrapper. Both strings are given to `Buffer.Load`.
- `Text::insert` and `Text::delete` are left out. In the source they are `unimplemented!()` stubs with no behaviour.
- The key-dispatch loop in `main`, page up/down (`move_up`/`move_down` repeated once per terminal row), the `die!` macro and the final cursor reset are left out. They are event I/O and process exit. Paging is the single steps repeated.
- Columns are not UTF-8 or grapheme aware, and line terminators other than `\n` are not handled. A line's length stands for its byte count.
- Editor.Buffer.Load: requires at least one terminal row, because `size.1 - 1` underflows otherwise.
- LineStore.Text.DeleteLine: requires a valid index when there are lines. `Vec::remove` panics otherwise, and the source leaves the check to the caller.
- Render.PointDirective: requires `y <= line`, because `line - view.y` is a `usize` subtraction. Every adjusting movement with height >= 1 establishes it.
- Render.DisplayLines: requires `y <= n`, because `text[y..]` panics otherwise. Its row numbers are not cast to `u16`; the counter is bounded by a height that comes from a 16-bit terminal size.
- Address-space overflow (`point + 1` at `usize::MAX`) is not modelled. Offsets are unbounded.
