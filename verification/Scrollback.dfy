/** Scrollback is transparent: over every run the live screen is that of a terminal without it, and the
    ring is the tail of an unbounded log. */
module Scrollback {
  import opened Bytes
  import opened Vga

  /** A terminal without scrollback, and the log of all lines scrolled off since the last clear. */
  datatype Term = Term(screen: Live, log: seq<seq<nat>>)

  datatype Op = Print(c: byte) | ClearScreen | Color(color: byte) | PageUp(up: nat) | PageDown(down: nat) | ToLive

  function Step(s: State, op: Op): (r: State)
    requires Formed(s)
    ensures Formed(r)
  {
    match op
    case Print(c) => Put(s, c)
    case ClearScreen => Clear(s)
    case Color(color) => s.(screen := s.screen.(color := color))
    case PageUp(n) => Up(s, n)
    case PageDown(n) => Down(s, n)
    case ToLive => Reset(s)
  }

  function After(s: State, ops: seq<Op>): (r: State)
    requires Formed(s)
    ensures Formed(r)
    decreases |ops|
  {
    if ops == [] then s else After(Step(s, ops[0]), ops[1..])
  }

  function TermPut(t: Term, c: byte): (r: Term)
    requires FormedLive(t.screen)
    ensures FormedLive(r.screen)
  {
    var l := Advance(t.screen, c);
    if l.row < HEIGHT then t.(screen := l)
    else Term(l.(row := HEIGHT - 1, cells := Shifted(l.cells, l.color)), t.log + [l.cells[..WIDTH]])
  }

  /** The terminal ignores scrolling. */
  function TermStep(t: Term, op: Op): (r: Term)
    requires FormedLive(t.screen)
    ensures FormedLive(r.screen)
  {
    match op
    case Print(c) => TermPut(t, c)
    case ClearScreen => Term(Live(Blanks(CELLS, t.screen.color), 0, 0, t.screen.color), [])
    case Color(color) => t.(screen := t.screen.(color := color))
    case _ => t
  }

  function TermAfter(t: Term, ops: seq<Op>): (r: Term)
    requires FormedLive(t.screen)
    ensures FormedLive(r.screen)
    decreases |ops|
  {
    if ops == [] then t else TermAfter(TermStep(t, ops[0]), ops[1..])
  }

  // ---- the relation ----

  /** What the screen shows, or will show once the view is back at the live output. */
  function LiveScreen(s: State): (l: Live) {
    if s.offset > 0 then s.screen.(cells := s.saved) else s.screen
  }

  /** The ring holds the last 500 lines of the log, each at its index modulo 500. */
  ghost predicate RingHolds(ring: seq<nat>, log: seq<seq<nat>>) {
    && |ring| == LINES * WIDTH
    && forall i :: 0 <= i < |log| <= i + LINES ==> Slice(ring, i % LINES * WIDTH, WIDTH) == log[i]
  }

  ghost predicate Shows(s: State, t: Term) {
    && Formed(s) && LiveScreen(s) == t.screen && (s.offset > 0 ==> s.hasSaved) && 0 <= s.offset <= s.total
    && s.pos == |t.log| && s.total == (if |t.log| < LINES then |t.log| else LINES) && RingHolds(s.ring, t.log)
  }

  // ---- every operation keeps it ----

  lemma SlotsDiffer(i: nat, j: nat)
    requires i < j < i + LINES
    ensures i % LINES != j % LINES
  {
  }

  lemma RingGrows(ring: seq<nat>, log: seq<seq<nat>>, line: seq<nat>)
    requires RingHolds(ring, log) && |line| == WIDTH
    ensures RingHolds(Splice(ring, |log| % LINES * WIDTH, line), log + [line])
  {
    hide Splice, Slice;
    var ring', log' := Splice(ring, |log| % LINES * WIDTH, line), log + [line];
    forall i | 0 <= i < |log'| <= i + LINES
      ensures Slice(ring', i % LINES * WIDTH, WIDTH) == log'[i]
    {
      if i == |log| {
        SliceOfSplice(ring, |log| % LINES * WIDTH, line, |log| % LINES * WIDTH, WIDTH);
      } else {
        SlotsDiffer(i, |log|);
        LinesApart(i % LINES, |log| % LINES);
        SliceOfSplice(ring, |log| % LINES * WIDTH, line, i % LINES * WIDTH, WIDTH);
      }
    }
  }

  lemma LinesApart(i: nat, j: nat)
    requires i != j
    ensures i * WIDTH + WIDTH <= j * WIDTH || j * WIDTH + WIDTH <= i * WIDTH
  {
  }

  lemma ResetShows(s: State, t: Term)
    requires Shows(s, t)
    ensures Shows(Reset(s), t) && Reset(s).screen == t.screen && Reset(s).offset == 0
  {
    hide RingHolds;
  }

  lemma PutShows(s: State, t: Term, c: byte)
    requires Shows(s, t)
    ensures Shows(Put(s, c), TermPut(t, c))
  {
    hide RingHolds, Advance, Reset, Splice, Shifted;
    ResetShows(s, t);
    var s1, l := if s.offset > 0 then Reset(s) else s, Advance(t.screen, c);
    if l.row >= HEIGHT {
      RingGrows(s1.ring, t.log, l.cells[..WIDTH]);
    }
  }

  lemma StepShows(s: State, t: Term, op: Op)
    requires Shows(s, t)
    ensures Shows(Step(s, op), TermStep(t, op))
  {
    hide Put, TermPut, ViewRows, RingHolds;
    match op {
      case Print(c) => PutShows(s, t, c);
      case ClearScreen => EmptyLog(s.ring);
      case _ =>
    }
  }

  lemma EmptyLog(ring: seq<nat>)
    requires |ring| == LINES * WIDTH
    ensures RingHolds(ring, [])
  {
  }

  lemma {:induction false} RunShows(s: State, t: Term, ops: seq<Op>)
    requires Formed(s) && FormedLive(t.screen) && Shows(s, t)
    ensures Shows(After(s, ops), TermAfter(t, ops))
    decreases |ops|
  {
    hide Shows, Step, TermStep;
    if ops != [] {
      StepShows(s, t, ops[0]);
      RunShows(Step(s, ops[0]), TermStep(t, ops[0]), ops[1..]);
    }
  }

  /** The display that `vga_init` leaves, and a terminal of the same size. */
  function Started(): (s: State)
    ensures Formed(s)
  {
    State(Fresh().screen, seq(LINES * WIDTH, _ => 0), 0, 0, 0, seq(CELLS, _ => 0), false)
  }

  function Fresh(): (t: Term)
    ensures FormedLive(t.screen)
  {
    Term(Live(Blanks(CELLS, 7), 0, 0, 7), [])
  }

  /** From `vga_init`, for every sequence of operations: going back to the live view leaves exactly the
      terminal's screen in the video buffer, and the ring is the last 500 lines of its log. */
  lemma Transparent(ops: seq<Op>)
    ensures var (s, t) := (After(Started(), ops), TermAfter(Fresh(), ops));
            Shows(s, t) && Reset(s).screen == t.screen && (s.offset == 0 ==> s.screen == t.screen)
  {
    hide After, TermAfter, Reset, RingHolds;
    EmptyLog(Started().ring);
    RunShows(Started(), Fresh(), ops);
    ResetShows(After(Started(), ops), TermAfter(Fresh(), ops));
  }

  // ---- the scrolled-back view ----

  /** Row `y` of the view `offset` lines back, as the log has it. */
  function LogRow(t: Term, offset: int, y: nat): (r: seq<nat>) {
    var i := |t.log| - offset - HEIGHT + y;
    if 0 <= i < |t.log| then t.log[i] else Blanks(WIDTH, t.screen.color)
  }

  function Row(cells: seq<nat>, y: nat): (r: seq<nat>)
    requires |cells| == CELLS && y < HEIGHT
  {
    Slice(cells, y * WIDTH, WIDTH)
  }

  /** A row of the view is the log's line unless that line has left the ring; the row then repeats the
      line that took its place, 500 lines later. */
  lemma ViewRowIs(s: State, t: Term, y: nat)
    requires Shows(s, t) && y < HEIGHT && s.offset > 0
    ensures var i := s.pos - s.offset - HEIGHT + y;
            ViewRow(s, y) == if 0 <= i && i + LINES < s.pos then t.log[i + LINES] else LogRow(t, s.offset, y)
  {
    hide Blanks, Slice;
    var i := s.pos - s.offset - HEIGHT + y;
    if 0 <= i && i + LINES < s.pos {
      assert (i + LINES) % LINES == i % LINES;
    }
  }

  lemma {:induction false} ViewRowsAt(s: State, n: nat, y: nat)
    requires Formed(s) && y < n
    ensures (y + 1) * WIDTH <= n * WIDTH && Slice(ViewRows(s, n), y * WIDTH, WIDTH) == ViewRow(s, y)
    decreases n
  {
    hide ViewRow;
    if y < n - 1 {
      ViewRowsAt(s, n - 1, y);
      assert Slice(ViewRows(s, n), y * WIDTH, WIDTH) == Slice(ViewRows(s, n - 1), y * WIDTH, WIDTH);
    }
  }

  /** The view does not depend on what the buffer held before. */
  lemma {:induction false} ViewRowsSame(s: State, t: State, n: nat)
    requires Formed(s) && Formed(t) && t == s.(screen := t.screen) && t.screen == s.screen.(cells := t.screen.cells)
    ensures ViewRows(s, n) == ViewRows(t, n)
  {
    hide ViewRow;
    if n > 0 {
      ViewRowsSame(s, t, n - 1);
      ViewRowSame(s, t, n - 1);
    }
  }

  /** After scrolling up or down to an offset above 0, every row of the screen is the log's line as long
      as offset and height together are within the ring; beyond that, the rows whose line was overwritten
      show the line 500 later. */
  lemma ViewShowsLog(s: State, t: Term, op: Op, y: nat)
    requires Shows(s, t) && y < HEIGHT && Step(s, op).offset > 0
    requires (op.PageUp? && s.total > 0) || (op.PageDown? && s.offset > 0)
    ensures var r := Step(s, op);
            && (r.offset + HEIGHT <= LINES ==> Row(r.screen.cells, y) == LogRow(t, r.offset, y))
            && (r.offset + HEIGHT - y <= LINES || r.offset + HEIGHT - y > r.pos ==> Row(r.screen.cells, y) == LogRow(t, r.offset, y))
            && (LINES < r.offset + HEIGHT - y <= r.pos ==> Row(r.screen.cells, y) == t.log[r.pos - r.offset - HEIGHT + y + LINES])
  {
    hide ViewRows, ViewRow, RingHolds, Slice;
    var r := Step(s, op);
    StepShows(s, t, op);
    RenderedBy(s, op);
    ViewRowsAt(r, HEIGHT, y);
    ViewRowIs(r, t, y);
  }

  lemma RenderedBy(s: State, op: Op)
    requires Formed(s) && Step(s, op).offset > 0
    requires (op.PageUp? && s.total > 0) || (op.PageDown? && s.offset > 0)
    ensures Step(s, op).screen.cells == ViewRows(Step(s, op), HEIGHT)
  {
    hide ViewRows;
    var r := Step(s, op);
    var before := r.(screen := s.screen);
    ViewRowsSame(before, r, HEIGHT);
  }

  /** A line older than the ring is shown wrong exactly when its replacement differs from it. */
  lemma OverwrittenRow(s: State, t: Term, op: Op, y: nat)
    requires Shows(s, t) && y < HEIGHT && op.PageUp? && s.total > 0 && Step(s, op).offset > 0
    requires LINES < Step(s, op).offset + HEIGHT - y <= s.pos
    ensures var i := s.pos - Step(s, op).offset - HEIGHT + y;
            Row(Step(s, op).screen.cells, y) == LogRow(t, Step(s, op).offset, y) <==> t.log[i + LINES] == t.log[i]
  {
    hide Step, Shows, Row;
    ShowsLog(s, t);
    PositionKept(s, op);
    ViewShowsLog(s, t, op, y);
  }

  lemma PositionKept(s: State, op: Op)
    requires Formed(s) && op.PageUp?
    ensures Step(s, op).pos == s.pos
  {
  }

  lemma ShowsLog(s: State, t: Term)
    requires Shows(s, t)
    ensures Formed(s) && s.pos == |t.log|
  {
  }

  // ---- an overwritten row, from initialisation ----

  function Newlines(n: nat): (ops: seq<Op>)
    ensures |ops| == n
  {
    seq(n, _ => Print(10))
  }

  lemma NewlineFirst(t: Term, n: nat)
    requires FormedLive(t.screen)
    ensures TermAfter(t, Newlines(n)) == if n == 0 then t else TermAfter(TermStep(t, Print(10)), Newlines(n - 1))
  {
    hide TermStep;
    assert n > 0 ==> Newlines(n)[1..] == Newlines(n - 1);
  }

  lemma {:induction false} NewlinesMore(t: Term, m: nat, n: nat)
    requires FormedLive(t.screen)
    ensures TermAfter(t, Newlines(m + n)) == TermAfter(TermAfter(t, Newlines(m)), Newlines(n))
    decreases m
  {
    hide TermStep, TermAfter, Newlines;
    NewlineFirst(t, m);
    if m > 0 {
      NewlineFirst(t, m + n);
      NewlinesMore(TermStep(t, Print(10)), m - 1, n);
    }
  }

  /** Newlines that stay on the screen move the cursor down. */
  lemma {:induction false} RowsDown(t: Term, n: nat)
    requires FormedLive(t.screen) && t.screen.row + n < HEIGHT && t.screen.col == 0
    ensures TermAfter(t, Newlines(n)) == t.(screen := t.screen.(row := t.screen.row + n))
    decreases n
  {
    hide TermAfter, Newlines;
    NewlineFirst(t, n);
    if n > 0 {
      RowsDown(TermStep(t, Print(10)), n - 1);
    }
  }

  /** On a blank screen with the cursor in the last row, each newline logs a blank line. */
  lemma {:induction false} BlankLines(t: Term, n: nat)
    requires t.screen == Live(Blanks(CELLS, 7), HEIGHT - 1, 0, 7)
    ensures TermAfter(t, Newlines(n)) == t.(log := t.log + Copies(n))
    decreases n
  {
    hide Blanks, TermAfter, TermStep, Newlines;
    NewlineFirst(t, n);
    if n > 0 {
      ScrollBlank(t);
      BlankLines(TermStep(t, Print(10)), n - 1);
      assert [Blanks(WIDTH, 7)] + Copies(n - 1) == Copies(n);
      assert t.log + [Blanks(WIDTH, 7)] + Copies(n - 1) == t.log + Copies(n);
    }
  }

  function Copies(n: nat): (lines: seq<seq<nat>>)
    ensures |lines| == n
  {
    seq(n, _ => Blanks(WIDTH, 7))
  }

  lemma ScrollBlank(t: Term)
    requires t.screen == Live(Blanks(CELLS, 7), HEIGHT - 1, 0, 7)
    ensures TermStep(t, Print(10)) == t.(log := t.log + [Blanks(WIDTH, 7)])
  {
    assert Shifted(Blanks(CELLS, 7), 7) == Blanks(CELLS, 7);
    assert Blanks(CELLS, 7)[..WIDTH] == Blanks(WIDTH, 7);
  }

  /** A letter and newlines enough to scroll it off and 524 more lines after it. */
  function LetterOps(): seq<Op> {
    [Print(0x41)] + ([Print(10)] + Newlines(548))
  }

  lemma LetterFirst()
    ensures TermAfter(Fresh(), LetterOps()) == TermAfter(TermStep(TermStep(Fresh(), Print(0x41)), Print(10)), Newlines(548))
  {
    hide TermStep, Newlines, Fresh;
    var ops := LetterOps();
    assert ops[1..] == [Print(10)] + Newlines(548) && ops[1..][1..] == Newlines(548);
  }

  lemma LetterLogged()
    ensures var t := TermAfter(Fresh(), LetterOps());
            |t.log| == 525 && t.log[0] == Blanks(WIDTH, 7)[0 := Cell(0x41, 7)] && t.log[500] == Blanks(WIDTH, 7)
  {
    hide Blanks, TermAfter, TermStep, Newlines, LetterOps, Fresh;
    LetterFirst();
    FirstLine();
    var a := TermStep(TermStep(Fresh(), Print(0x41)), Print(10));
    NewlinesMore(a, 23, 525);
    RowsDown(a, 23);
    var b := TermAfter(a, Newlines(23));
    NewlineFirst(b, 525);
    LetterScrolls(b);
    BlankLines(TermStep(b, Print(10)), 524);
  }

  lemma FirstLine()
    ensures TermStep(TermStep(Fresh(), Print(0x41)), Print(10)) == Term(Live(Blanks(CELLS, 7)[0 := Cell(0x41, 7)], 1, 0, 7), [])
  {
    hide Blanks;
  }

  lemma LetterScrolls(b: Term)
    requires b == Term(Live(Blanks(CELLS, 7)[0 := Cell(0x41, 7)], HEIGHT - 1, 0, 7), [])
    ensures TermStep(b, Print(10)) == Term(Live(Blanks(CELLS, 7), HEIGHT - 1, 0, 7), [Blanks(WIDTH, 7)[0 := Cell(0x41, 7)]])
  {
    assert Shifted(b.screen.cells, 7) == Blanks(CELLS, 7);
    assert b.screen.cells[..WIDTH] == Blanks(WIDTH, 7)[0 := Cell(0x41, 7)];
  }

  /** Then 500 lines back the first row should show the letter, and does not. */
  lemma WrongRow()
    ensures var (s, t) := (After(Started(), LetterOps()), TermAfter(Fresh(), LetterOps()));
            Step(s, PageUp(500)).offset == 500 && Row(Step(s, PageUp(500)).screen.cells, 0) != LogRow(t, 500, 0)
  {
    hide After, TermAfter, LetterOps, RingHolds, ViewRows, Row, LogRow, Started, Fresh;
    var s, t := After(Started(), LetterOps()), TermAfter(Fresh(), LetterOps());
    Transparent(LetterOps());
    LetterLogged();
    OverwrittenRow(s, t, PageUp(500), 0);
    assert t.log[0][0] == Cell(0x41, 7) && t.log[500][0] == Cell(0x20, 7);
  }

  // ---- which lines a user can reach ----

  /** All the lines there are: those scrolled off, then the rows of the screen; blank before the first one. */
  function HistoryLine(t: Term, i: int): (r: seq<nat>)
    requires FormedLive(t.screen) && i < |t.log| + HEIGHT
  {
    if i < 0 then Blanks(WIDTH, t.screen.color)
    else if i < |t.log| then t.log[i]
    else Row(t.screen.cells, i - |t.log|)
  }

  /** The screen after paging up by `n` lines from the live view. */
  function Paged(s: State, n: nat): (r: seq<nat>)
    requires Formed(s)
    ensures |r| == CELLS
  {
    if n == 0 then s.screen.cells else Step(s, PageUp(n)).screen.cells
  }

  /** Row `y` of the view `n` lines back, within the ring, is this line of the history: of the live screen for
      0, but of a screen `n` lines and one screen further back otherwise. */
  ghost predicate At(t: Term, n: nat, y: nat, i: int) {
    n <= LINES - HEIGHT && n <= |t.log| && y < HEIGHT && i == |t.log| - (if n == 0 then 0 else n + HEIGHT) + y
  }

  lemma PagedShows(s: State, t: Term, n: nat, y: nat, i: int)
    requires Shows(s, t) && s.offset == 0 && At(t, n, y, i)
    ensures FormedLive(t.screen) && Row(Paged(s, n), y) == HistoryLine(t, i)
  {
    hide RingHolds, ViewRows, Row, Blanks;
    if n > 0 {
      ViewShowsLog(s, t, PageUp(n), y);
    }
  }

  /** So of the last 500 lines that were scrolled off, all can be reached within the ring but the newest,
      which is on the live screen no more and in no view of the ring yet. */
  lemma Reachable(t: Term, i: nat)
    requires i < |t.log| + HEIGHT
    ensures (exists n, y :: At(t, n, y, i)) <==> i >= |t.log| || |t.log| - LINES <= i <= |t.log| - 2
  {
    if i >= |t.log| {
      assert At(t, 0, i - |t.log|, i);
    } else if |t.log| - LINES <= i <= |t.log| - 2 {
      var q := |t.log| - i;
      if q - 1 <= LINES - HEIGHT {
        assert At(t, q - 1, HEIGHT - 1, i);
      } else {
        assert At(t, q - HEIGHT, 0, i);
      }
    }
  }

  /** A newest line unlike all others is on no row of any view within the ring. */
  lemma NewestHidden(s: State, t: Term, n: nat, y: nat)
    requires Shows(s, t) && s.offset == 0 && 0 < n <= LINES - HEIGHT && n <= |t.log| && y < HEIGHT
    requires var newest := t.log[|t.log| - 1];
             newest != Blanks(WIDTH, t.screen.color) && forall j :: 0 <= j < |t.log| - 1 ==> t.log[j] != newest
    ensures Row(Paged(s, n), y) != t.log[|t.log| - 1]
  {
    hide Shows, Row, Paged, Blanks;
    PagedShows(s, t, n, y, |t.log| - n - HEIGHT + y);
  }
}
