/** The text screen with its scrollback ring, and the terminal without scrollback that it refines. */
module Vga {
  import opened Bytes

  const WIDTH := 80
  const HEIGHT := 25
  const CELLS := 2000
  const LINES := 500

  /** Screen contents, cursor and current colour. */
  datatype Live = Live(cells: seq<nat>, row: nat, col: nat, color: byte)

  /** `cells` of `screen` is the video buffer; while scrolled back, the live contents are in `saved`. */
  datatype State = State(screen: Live, ring: seq<nat>, pos: nat, offset: int, total: nat, saved: seq<nat>, hasSaved: bool)

  predicate FormedLive(l: Live) {
    |l.cells| == CELLS && l.row < HEIGHT && l.col < WIDTH
  }

  predicate Formed(s: State) {
    FormedLive(s.screen) && |s.ring| == LINES * WIDTH && |s.saved| == CELLS
  }

  /** A character cell; characters are signed, so codes from 128 up fill the colour byte with ones. */
  function Cell(c: byte, color: byte): nat {
    if c < 128 then c + 0x100 * (color as int) else 0xFF00 + c
  }

  function Blanks(n: nat, color: byte): (r: seq<nat>)
    ensures |r| == n && forall i :: 0 <= i < n ==> r[i] == Cell(0x20, color)
  {
    seq(n, _ => Cell(0x20, color))
  }

  /** Writing one character and moving the cursor; the row may end up one past the last. */
  function Advance(l: Live, c: byte): (r: Live)
    requires FormedLive(l)
    ensures |r.cells| == CELLS && r.row <= HEIGHT && r.col < WIDTH && r.color == l.color
  {
    if c == 10 then l.(col := 0, row := l.row + 1)
    else if c == 8 then
      var row := if l.col == 0 && l.row > 0 then l.row - 1 else l.row;
      var col := if l.col > 0 then l.col - 1 else if l.row > 0 then WIDTH - 1 else l.col;
      l.(row := row, col := col, cells := l.cells[row * WIDTH + col := Cell(0x20, l.color)])
    else
      var m := l.(cells := l.cells[l.row * WIDTH + l.col := Cell(c, l.color)]);
      if l.col + 1 == WIDTH then m.(col := 0, row := l.row + 1) else m.(col := l.col + 1)
  }

  /** The screen one line up, with a blank last line. */
  function Shifted(cells: seq<nat>, color: byte): (r: seq<nat>)
    requires |cells| == CELLS
    ensures |r| == CELLS
  {
    cells[WIDTH..] + Blanks(WIDTH, color)
  }

  // ---- the screen with scrollback ----

  function Scroll(s: State): (r: State)
    requires Formed(s)
    ensures Formed(r)
  {
    s.(ring := Splice(s.ring, s.pos % LINES * WIDTH, s.screen.cells[..WIDTH]), pos := s.pos + 1,
       total := if s.total < LINES then s.total + 1 else s.total,
       screen := s.screen.(cells := Shifted(s.screen.cells, s.screen.color)))
  }

  function Restored(s: State): (r: State)
    requires Formed(s)
    ensures Formed(r)
  {
    if s.hasSaved then s.(screen := s.screen.(cells := s.saved), hasSaved := false) else s
  }

  /** `vga_scrollback_reset`. */
  function Reset(s: State): (r: State)
    requires Formed(s)
    ensures Formed(r) && r.offset == 0
  {
    if s.offset == 0 then s else Restored(s.(offset := 0))
  }

  /** `vga_putchar_raw`. */
  function Put(s: State, c: byte): (r: State)
    requires Formed(s)
    ensures Formed(r)
  {
    var s1 := if s.offset > 0 then Reset(s) else s;
    var l := Advance(s1.screen, c);
    if l.row >= HEIGHT then Scroll(s1.(screen := l.(row := HEIGHT - 1))) else s1.(screen := l)
  }

  /** `vga_clear`. */
  function Clear(s: State): (r: State)
    requires Formed(s)
    ensures Formed(r)
  {
    s.(screen := Live(Blanks(CELLS, s.screen.color), 0, 0, s.screen.color), pos := 0, offset := 0, total := 0)
  }

  /** One row of the scrolled-back view. */
  function ViewRow(s: State, y: nat): (r: seq<nat>)
    requires Formed(s)
    ensures |r| == WIDTH
  {
    var line := s.pos - s.offset - HEIGHT + y;
    if 0 <= line < s.pos then Slice(s.ring, line % LINES * WIDTH, WIDTH) else Blanks(WIDTH, s.screen.color)
  }

  function ViewRows(s: State, n: nat): (r: seq<nat>)
    requires Formed(s)
    ensures |r| == n * WIDTH
  {
    if n == 0 then [] else ViewRows(s, n - 1) + ViewRow(s, n - 1)
  }

  /** `vga_scrollback_render`. */
  function Render(s: State): (r: State)
    requires Formed(s)
    ensures Formed(r)
  {
    if s.offset == 0 then s else s.(screen := s.screen.(cells := ViewRows(s, HEIGHT)))
  }

  /** `vga_scrollback_up`. */
  function Up(s: State, lines: int): (r: State)
    requires Formed(s)
    ensures Formed(r)
  {
    if s.total == 0 then s
    else
      var s1 := if s.offset == 0 then s.(saved := s.screen.cells, hasSaved := true) else s;
      Render(s1.(offset := if s.offset + lines > s.total then s.total else s.offset + lines))
  }

  /** `vga_scrollback_down`. */
  function Down(s: State, lines: int): (r: State)
    requires Formed(s)
    ensures Formed(r)
  {
    if s.offset == 0 then s
    else if s.offset <= lines then Restored(s.(offset := 0))
    else Render(s.(offset := s.offset - lines))
  }

  // ---- the methods ----

  class Display {
    const buffer: array<nat>
    const ring: array<nat>
    const current: array<nat>
    var row: nat
    var col: nat
    var color: byte
    var pos: nat
    var offset: int
    var total: nat
    var hasSaved: bool

    ghost predicate Valid()
      reads this
    {
      && buffer.Length == CELLS && ring.Length == LINES * WIDTH && current.Length == CELLS
      && buffer != ring && buffer != current && ring != current && row < HEIGHT && col < WIDTH
    }

    ghost function Screen(): Live
      reads this, buffer
    {
      Live(buffer[..], row, col, color)
    }

    ghost function View(): (s: State)
      reads this, buffer, ring, current
    {
      State(Screen(), ring[..], pos, offset, total, current[..], hasSaved)
    }

    /** `vga_init`; the static buffers start as zeros. */
    constructor ()
      ensures Valid() && fresh(buffer) && fresh(ring) && fresh(current)
      ensures View() == State(Live(Blanks(CELLS, 7), 0, 0, 7), seq(LINES * WIDTH, _ => 0), 0, 0, 0, seq(CELLS, _ => 0), false)
    {
      buffer := new nat[CELLS](_ => 0);
      ring := new nat[LINES * WIDTH](_ => 0);
      current := new nat[CELLS](_ => 0);
      row, col, color, pos, offset, total, hasSaved := 0, 0, 7, 0, 0, 0, false;
      new;
      ClearAll();
    }

    /** `vga_clear`. */
    method ClearAll()
      requires Valid()
      modifies this, buffer
      ensures Valid() && View() == Clear(old(View()))
    {
      var y := 0;
      while y < HEIGHT
        invariant y <= HEIGHT && Valid() && View() == old(View()).(screen := Screen()) && Screen() == old(Screen()).(cells := buffer[..])
        invariant forall k :: 0 <= k < y * WIDTH ==> buffer[k] == Cell(0x20, color)
      {
        FillRow(y);
        y := y + 1;
      }
      row, col, pos, offset, total := 0, 0, 0, 0, 0;
      assert buffer[..] == Blanks(CELLS, color);
    }

    /** One row blanked in the current colour. */
    method FillRow(y: nat)
      requires Valid() && y < HEIGHT
      modifies buffer
      ensures buffer[..] == Splice(old(buffer[..]), y * WIDTH, Blanks(WIDTH, color))
    {
      var x := 0;
      while x < WIDTH
        invariant 0 <= x <= WIDTH
        invariant forall k :: 0 <= k < CELLS ==>
                    buffer[k] == if y * WIDTH <= k < y * WIDTH + x then Cell(0x20, color) else old(buffer[k])
      {
        buffer[y * WIDTH + x] := Cell(0x20, color);
        x := x + 1;
      }
    }

    /** `vga_scroll`. */
    method ScrollUp()
      requires Valid()
      modifies this`pos, this`total, buffer, ring
      ensures Valid() && View() == Scroll(old(View()))
    {
      var line := pos % LINES;
      var x := 0;
      while x < WIDTH
        invariant 0 <= x <= WIDTH
        invariant forall k :: 0 <= k < LINES * WIDTH ==>
                    ring[k] == if line * WIDTH <= k < line * WIDTH + x then buffer[k - line * WIDTH] else old(ring[k])
        invariant buffer[..] == old(buffer[..]) && pos == old(pos) && total == old(total)
      {
        ring[line * WIDTH + x] := buffer[x];
        x := x + 1;
      }
      assert ring[..] == Splice(old(ring[..]), line * WIDTH, old(buffer[..])[..WIDTH]);
      pos := pos + 1;
      if total < LINES {
        total := total + 1;
      }
      ghost var stored := ring[..];
      ShiftUp();
      assert ring[..] == stored && current[..] == old(current[..]);
    }

    /** The second half of `vga_scroll`: every row moves up, the last one is blanked. */
    method ShiftUp()
      requires Valid()
      modifies buffer
      ensures buffer[..] == Shifted(old(buffer[..]), color)
    {
      var y := 1;
      while y < HEIGHT
        invariant 1 <= y <= HEIGHT
        invariant forall k :: 0 <= k < CELLS ==>
                    buffer[k] == if k < (y - 1) * WIDTH then old(buffer[k + WIDTH]) else old(buffer[k])
      {
        var x := 0;
        while x < WIDTH
          invariant 0 <= x <= WIDTH
          invariant forall k :: 0 <= k < CELLS ==>
                      buffer[k] == if k < (y - 1) * WIDTH + x then old(buffer[k + WIDTH]) else old(buffer[k])
        {
          buffer[(y - 1) * WIDTH + x] := buffer[y * WIDTH + x];
          x := x + 1;
        }
        y := y + 1;
      }
      FillRow(HEIGHT - 1);
    }

    /** The copy of the live screen taken on the first scroll back. */
    method Save()
      requires Valid()
      modifies this`hasSaved, current
      ensures hasSaved && current[..] == buffer[..]
    {
      var i := 0;
      while i < CELLS
        invariant 0 <= i <= CELLS && forall k :: 0 <= k < i ==> current[k] == buffer[k]
      {
        current[i] := buffer[i];
        i := i + 1;
      }
      hasSaved := true;
      assert current[..] == buffer[..];
    }

    /** The saved screen put back, if there is one. */
    method Restore()
      requires Valid()
      modifies this`hasSaved, buffer
      ensures Valid() && View() == Restored(old(View()))
    {
      if hasSaved {
        var i := 0;
        while i < CELLS
          invariant 0 <= i <= CELLS && forall k :: 0 <= k < i ==> buffer[k] == current[k]
        {
          buffer[i] := current[i];
          i := i + 1;
        }
        hasSaved := false;
        assert buffer[..] == current[..];
      }
    }

    /** `vga_scrollback_reset`. */
    method ScrollbackReset()
      requires Valid()
      modifies this, buffer
      ensures Valid() && View() == Reset(old(View()))
    {
      if offset == 0 {
        return;
      }
      offset := 0;
      Restore();
    }

    /** The branches of `vga_putchar_raw` on the character. */
    method WriteChar(c: byte) returns (full: bool)
      requires Valid()
      modifies this`row, this`col, buffer
      ensures Valid()
      ensures var l := Advance(old(Screen()), c);
              full == (l.row >= HEIGHT) && Screen() == if full then l.(row := HEIGHT - 1) else l
    {
      var r := row;
      if c == 10 {
        col := 0;
        r := r + 1;
      } else if c == 8 {
        if col > 0 {
          col := col - 1;
        } else if r > 0 {
          r := r - 1;
          col := WIDTH - 1;
        }
        buffer[r * WIDTH + col] := Cell(0x20, color);
      } else {
        buffer[r * WIDTH + col] := Cell(c, color);
        if col + 1 == WIDTH {
          col := 0;
          r := r + 1;
        } else {
          col := col + 1;
        }
      }
      full := r >= HEIGHT;
      row := if full then HEIGHT - 1 else r;
    }

    /** `vga_putchar_raw`. */
    method PutChar(c: byte)
      requires Valid()
      modifies this, buffer, ring
      ensures Valid() && View() == Put(old(View()), c)
    {
      hide Scroll, Advance, Restored;
      if offset > 0 {
        ScrollbackReset();
      }
      ghost var s := View();
      var full := WriteChar(c);
      if full {
        assert View() == s.(screen := Advance(s.screen, c).(row := HEIGHT - 1));
        ScrollUp();
      }
    }

    method SetColor(c: byte)
      requires Valid()
      modifies this`color
      ensures Valid() && View() == old(View()).(screen := old(Screen()).(color := c))
    {
      color := c;
    }

    /** One row copied from the ring. */
    method CopyRow(y: nat, line: nat)
      requires Valid() && y < HEIGHT && line < LINES
      modifies buffer
      ensures buffer[..] == Splice(old(buffer[..]), y * WIDTH, Slice(ring[..], line * WIDTH, WIDTH))
    {
      var x := 0;
      while x < WIDTH
        invariant 0 <= x <= WIDTH
        invariant forall k :: 0 <= k < CELLS ==>
                    buffer[k] == if y * WIDTH <= k < y * WIDTH + x then ring[line * WIDTH + (k - y * WIDTH)] else old(buffer[k])
        invariant ring[..] == old(ring[..])
      {
        buffer[y * WIDTH + x] := ring[line * WIDTH + x];
        x := x + 1;
      }
    }

    /** `vga_scrollback_render`. */
    method RenderView()
      requires Valid()
      modifies buffer
      ensures Valid() && View() == Render(old(View()))
    {
      hide ViewRow, Slice;
      if offset == 0 {
        return;
      }
      ghost var s := View();
      var start := pos - offset - HEIGHT;
      var y := 0;
      while y < HEIGHT
        invariant 0 <= y <= HEIGHT && Valid()
        invariant ring[..] == s.ring && current[..] == s.saved
        invariant buffer[..][..y * WIDTH] == ViewRows(s, y)
      {
        ghost var before := View();
        ViewRowSame(s, before, y);
        RenderRow(y, start + y);
        assert buffer[..][..y * WIDTH] == before.screen.cells[..y * WIDTH];
        assert buffer[..][y * WIDTH..(y + 1) * WIDTH] == ViewRow(s, y);
        RowAppended(s, buffer[..], y);
        y := y + 1;
      }
      assert buffer[..] == buffer[..][..HEIGHT * WIDTH];
    }

    /** One row of the view; `line` is below `pos` unless the offset is negative. */
    method RenderRow(y: nat, line: int)
      requires Valid() && y < HEIGHT && line == pos - offset - HEIGHT + y
      modifies buffer
      ensures buffer[..] == Splice(old(buffer[..]), y * WIDTH, ViewRow(old(View()), y))
    {
      hide Slice, Splice;
      if line < 0 {
        FillRow(y);
      } else if line < pos {
        CopyRow(y, line % LINES);
      } else {
        FillRow(y);
      }
    }

    /** `vga_scrollback_up`. */
    method ScrollbackUp(lines: int)
      requires Valid()
      modifies this, buffer, current
      ensures Valid() && View() == Up(old(View()), lines)
    {
      hide Render;
      if total == 0 {
        return;
      }
      if offset == 0 {
        Save();
      }
      offset := offset + lines;
      if offset > total {
        offset := total;
      }
      RenderView();
    }

    /** `vga_scrollback_down`. */
    method ScrollbackDown(lines: int)
      requires Valid()
      modifies this, buffer
      ensures Valid() && View() == Down(old(View()), lines)
    {
      hide Render, Restored;
      if offset == 0 {
        return;
      }
      offset := offset - lines;
      if offset < 0 {
        offset := 0;
      }
      if offset == 0 {
        Restore();
      } else {
        RenderView();
      }
    }
  }

  lemma ViewRowSame(s: State, t: State, y: nat)
    requires Formed(s) && t == s.(screen := t.screen) && t.screen == s.screen.(cells := t.screen.cells) && |t.screen.cells| == CELLS
    ensures ViewRow(s, y) == ViewRow(t, y)
  {
  }

  lemma RowAppended(s: State, cells: seq<nat>, y: nat)
    requires Formed(s) && y < HEIGHT && |cells| == CELLS
    requires cells[..y * WIDTH] == ViewRows(s, y) && cells[y * WIDTH..(y + 1) * WIDTH] == ViewRow(s, y)
    ensures cells[..(y + 1) * WIDTH] == ViewRows(s, y + 1)
  {
    hide ViewRow;
    assert cells[..(y + 1) * WIDTH] == cells[..y * WIDTH] + cells[y * WIDTH..(y + 1) * WIDTH];
  }
}
