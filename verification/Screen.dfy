/** The text screen by rows and columns: where characters go, how lines wrap and scroll. */
module Screen {
  import opened Bytes
  import opened Vga
  import opened Scrollback

  /** What stands in row `y`, column `x`. */
  function At(cells: seq<nat>, y: nat, x: nat): nat
    requires |cells| == CELLS && y < HEIGHT && x < WIDTH
  {
    Row(cells, y)[x]
  }

  /** Every place but (y, x) is as it was. */
  ghost predicate OthersSame(a: seq<nat>, b: seq<nat>, y: nat, x: nat) {
    && |a| == |b| == CELLS
    && forall j, i :: 0 <= j < 25 && 0 <= i < 80 && (j != y || i != x) ==> At(a, j, i) == At(b, j, i)
  }

  predicate Printable(c: byte) {
    c != 8 && c != 10
  }

  /** A cell: the character in the low byte, the colour in the high one, which codes from 128 up fill with ones. */
  lemma CellLaw(c: byte, color: byte)
    ensures Cell(c, color) % 256 == c && Cell(c, color) / 256 == if c < 128 then color else 0xFF
  {
  }

  lemma PlaceIs(cells: seq<nat>, y: nat, x: nat)
    requires |cells| == CELLS && y < HEIGHT && x < WIDTH
    ensures At(cells, y, x) == cells[80 * y + x]
  {
  }

  lemma PlacesDiffer(y: nat, x: nat, j: nat, i: nat)
    requires x < 80 && i < 80 && (j != y || i != x)
    ensures 80 * y + x != 80 * j + i
  {
  }

  lemma OneStored(cells: seq<nat>, y: nat, x: nat, w: nat)
    requires |cells| == CELLS && y < HEIGHT && x < WIDTH
    ensures var r := cells[80 * y + x := w];
            At(r, y, x) == w && OthersSame(cells, r, y, x)
  {
    hide At;
    var r := cells[80 * y + x := w];
    PlaceIs(r, y, x);
    forall j: nat, i: nat | j < 25 && i < 80 && (j != y || i != x)
      ensures At(cells, j, i) == At(r, j, i)
    {
      PlaceIs(cells, j, i);
      PlaceIs(r, j, i);
      PlacesDiffer(y, x, j, i);
    }
  }

  /** A printable character goes to the cursor's row and column, in the current colour, and nothing else changes;
      the cursor moves one column on, from the last column to the start of the next row. */
  lemma PrintLaw(l: Live, c: byte)
    requires FormedLive(l) && Printable(c)
    ensures var r := Advance(l, c);
            && At(r.cells, l.row, l.col) == Cell(c, l.color) && OthersSame(l.cells, r.cells, l.row, l.col)
            && r.color == l.color
            && (l.col < 79 ==> r.row == l.row && r.col == l.col + 1)
            && (l.col == 79 ==> r.row == l.row + 1 && r.col == 0)
  {
    hide At, Cell;
    OneStored(l.cells, l.row, l.col, Cell(c, l.color));
  }

  /** A newline writes nothing and goes to the start of the next row. */
  lemma NewlineLaw(l: Live)
    requires FormedLive(l)
    ensures Advance(l, 10) == l.(row := l.row + 1, col := 0)
  {
  }

  /** A backspace goes back one place, from the first column to the end of the row above, and blanks it; in the
      top left corner it stays and blanks that. */
  lemma BackspaceLaw(l: Live)
    requires FormedLive(l)
    ensures var r := Advance(l, 8);
            && (l.col > 0 ==> r.row == l.row && r.col == l.col - 1)
            && (l.col == 0 && l.row > 0 ==> r.row == l.row - 1 && r.col == 79)
            && (l.col == 0 && l.row == 0 ==> r.row == 0 && r.col == 0)
            && r.row < HEIGHT && At(r.cells, r.row, r.col) == Cell(0x20, l.color) && OthersSame(l.cells, r.cells, r.row, r.col)
            && r.color == l.color
  {
    hide At, Cell;
    var row := if l.col == 0 && l.row > 0 then l.row - 1 else l.row;
    var col := if l.col > 0 then l.col - 1 else if l.row > 0 then 79 else 0;
    OneStored(l.cells, row, col, Cell(0x20, l.color));
  }

  /** A character and a backspace after it leave the cursor where it was and a blank there, also where the line
      wraps in between. */
  lemma TypeThenErase(l: Live, c: byte)
    requires FormedLive(l) && Printable(c) && (l.row < 24 || l.col < 79)
    ensures var r := Advance(Advance(l, c), 8);
            && r.row == l.row && r.col == l.col
            && At(r.cells, l.row, l.col) == Cell(0x20, l.color) && OthersSame(l.cells, r.cells, l.row, l.col)
  {
    hide At, Advance;
    PrintLaw(l, c);
    BackspaceLaw(Advance(l, c));
  }

  function Typed(l: Live, text: seq<byte>): (r: Live)
    requires FormedLive(l) && l.col + |text| < WIDTH && forall i :: 0 <= i < |text| ==> Printable(text[i])
    ensures FormedLive(r)
    decreases |text|
  {
    if text == [] then l
    else
      PrintLaw(l, text[0]);
      Typed(Advance(l, text[0]), text[1..])
  }

  /** Characters that fit on the line stand in it one after the other, from the cursor on, and the cursor is
      behind them. */
  lemma {:induction false} LineLaw(l: Live, text: seq<byte>)
    requires FormedLive(l) && l.col + |text| < WIDTH && forall i :: 0 <= i < |text| ==> Printable(text[i])
    ensures var r := Typed(l, text);
            && r.row == l.row && r.col == l.col + |text| && r.color == l.color
            && (forall i :: 0 <= i < |text| ==> Row(r.cells, l.row)[l.col + i] == Cell(text[i], l.color))
            && (forall j, i :: 0 <= j < 25 && 0 <= i < 80 && (j != l.row || i < l.col || l.col + |text| <= i) ==>
                  At(r.cells, j, i) == At(l.cells, j, i))
    decreases |text|
  {
    hide At, Advance, Cell, Row;
    if text != [] {
      var m, rest := Advance(l, text[0]), text[1..];
      PrintLaw(l, text[0]);
      LineLaw(m, rest);
      RowAt(Typed(l, text).cells, l.row);
      RowAt(m.cells, l.row);
      assert At(Typed(l, text).cells, l.row, l.col) == At(m.cells, l.row, l.col);
      forall i | 0 <= i < |text|
        ensures Row(Typed(l, text).cells, l.row)[l.col + i] == Cell(text[i], l.color)
      {
        if i > 0 {
          assert text[i] == rest[i - 1];
          assert Row(Typed(l, text).cells, l.row)[m.col + (i - 1)] == Cell(rest[i - 1], l.color);
        }
      }
    }
  }

  lemma RowAt(cells: seq<nat>, y: nat)
    requires |cells| == CELLS && y < HEIGHT
    ensures |Row(cells, y)| == 80 && forall x :: 0 <= x < 80 ==> At(cells, y, x) == Row(cells, y)[x]
  {
  }

  /** When a character makes the screen scroll, each row goes one up and the last one is blank. */
  lemma ScrollLaw(cells: seq<nat>, color: byte)
    requires |cells| == CELLS
    ensures forall y, x :: 0 <= y < 24 && 0 <= x < 80 ==> At(Shifted(cells, color), y, x) == At(cells, y + 1, x)
    ensures forall x :: 0 <= x < 80 ==> At(Shifted(cells, color), 24, x) == Cell(0x20, color)
  {
  }

  /** One character from the live view: where it does not fill the screen nothing scrolls; where it does, the top
      row, as it is with the character on the screen, goes to the ring's next line and the rows move up. */
  lemma PutLaw(s: State, c: byte)
    requires Formed(s) && s.offset == 0
    ensures var (l, r) := (Advance(s.screen, c), Put(s, c));
            && (l.row < 25 ==> r == s.(screen := l))
            && (l.row == 25 ==>
                  && r.screen == Live(Shifted(l.cells, l.color), 24, l.col, l.color)
                  && Slice(r.ring, s.pos % 500 * 80, 80) == Row(l.cells, 0)
                  && r.pos == s.pos + 1 && r.total == (if s.total < 500 then s.total + 1 else s.total))
  {
    hide Advance, Shifted;
    if Advance(s.screen, c).row == 25 {
      SliceOfSplice(s.ring, s.pos % LINES * WIDTH, Advance(s.screen, c).cells[..WIDTH], s.pos % LINES * WIDTH, WIDTH);
    }
  }

  /** How far back the view is after paging: never further than the lines there are, and never below the live
      view. */
  lemma OffsetLaw(s: State, n: nat)
    requires Formed(s) && 0 <= s.offset <= s.total
    ensures Up(s, n).offset == if s.offset + n < s.total then s.offset + n else s.total
    ensures Down(s, n).offset == if n < s.offset then s.offset - n else 0
  {
    hide ViewRows;
  }
}
