/** One text-mode screen and what putc does to it (student-distrib/lib.c), with what it means for the
    text just before the cursor. */
module Screen {
  import opened CString

  const COLS := 80
  const ROWS := 25
  const SHOWN := 2000   // COLS * ROWS
  const PAGE := 2048    // character cells in the 4 KB page; the last 48 are not shown
  const ATTRIB: Byte := 7

  datatype Cell = Cell(ch: Byte, attrib: Byte)

  const BLANK := Cell(SPACE, ATTRIB)

  datatype Screen = Screen(cells: seq<Cell>, x: int, y: int)

  function Pos(s: Screen): int { COLS * s.y + s.x }

  predicate InBounds(s: Screen) {
    |s.cells| == PAGE && 0 <= s.x < COLS && 0 <= s.y < ROWS
  }

  function Blanks(n: nat): (b: seq<Cell>)
    ensures |b| == n
  {
    seq(n, _ => BLANK)
  }

  /** A store at cell p; outside the page it hits memory that this model leaves out. */
  function Stored(cells: seq<Cell>, p: int, c: Cell): (r: seq<Cell>)
    ensures |r| == |cells|
  {
    if 0 <= p < |cells| then cells[p := c] else cells
  }

  function Scrolled(cells: seq<Cell>): (r: seq<Cell>)
    requires |cells| == PAGE
    ensures |r| == PAGE
  {
    cells[COLS..SHOWN] + Blanks(COLS) + cells[SHOWN..]
  }

  function ScrollIfNeeded(s: Screen): Screen
    requires |s.cells| == PAGE
  {
    if s.y == ROWS then Screen(Scrolled(s.cells), 0, ROWS - 1) else s
  }

  /** A character other than a backspace, before any scrolling. */
  function Advanced(s: Screen, c: Byte): (r: Screen)
    requires |s.cells| == PAGE
    ensures |r.cells| == PAGE
  {
    if c == NEWLINE || c == ENTER then Screen(s.cells, 0, s.y + 1)
    else
      var cells := Stored(s.cells, Pos(s), Cell(c, ATTRIB));
      if s.x + 1 >= COLS then Screen(cells, (s.x + 1) % COLS, s.y + 1) else Screen(cells, s.x + 1, s.y)
  }

  /** putc. `shown` says that the current terminal is the displayed one. */
  function Put(s: Screen, c: Byte, shown: bool): (r: Screen)
    requires |s.cells| == PAGE
    ensures |r.cells| == PAGE
  {
    if c == BACKSPACE then
      if s.x == 0 && s.y == 0 && shown then s
      else
        var (x, y) := if s.x == 0 then (COLS, s.y - 1) else (s.x, s.y);
        Screen(Stored(s.cells, COLS * y + x - 1, BLANK), x - 1, y)
    else ScrollIfNeeded(Advanced(s, c))
  }

  lemma PutBackspaceSteps(s: Screen, shown: bool)
    requires |s.cells| == PAGE && !(s.x == 0 && s.y == 0 && shown)
    ensures var b := if s.x == 0 then s.(x := COLS, y := s.y - 1) else s;
      Put(s, BACKSPACE, shown) == b.(cells := Stored(b.cells, COLS * b.y + b.x - 1, BLANK)).(x := b.x - 1, y := b.y)
  {
  }

  /** clear */
  function Cleared(s: Screen): Screen
    requires |s.cells| == PAGE
  {
    Screen(Blanks(SHOWN) + s.cells[SHOWN..], 0, 0)
  }

  predicate Printable(c: Byte) {
    c != BACKSPACE && c != NEWLINE && c != ENTER
  }

  /** The cursor stays on the screen exactly unless the character is a backspace at the top-left cell put while the
      current terminal is not the displayed one: that one writes outside the page. This holds for output and echo
      alike. */
  lemma PutStaysInBounds(s: Screen, c: Byte, shown: bool)
    requires InBounds(s)
    ensures InBounds(Put(s, c, shown)) <==> !(c == BACKSPACE && Pos(s) == 0 && !shown)
  {
  }

  /** Without a backspace, at most one row is lost from the text before the cursor. */
  lemma PutMovesOn(s: Screen, c: Byte, shown: bool)
    requires InBounds(s) && c != BACKSPACE
    ensures Pos(Put(s, c, shown)) > Pos(s) || Pos(Put(s, c, shown)) >= SHOWN - COLS
  {
  }

  // ----- what putc and clear do to each cell -----

  /** A character anywhere but in the last cell: that cell alone changes, and the cursor moves one cell on. */
  lemma PutPrints(s: Screen, c: Byte, shown: bool)
    requires InBounds(s) && Printable(c) && 80 * s.y + s.x < 1999
    ensures var r := Put(s, c, shown);
      && InBounds(r) && 80 * r.y + r.x == 80 * s.y + s.x + 1
      && forall k | 0 <= k < 2048 :: r.cells[k] == if k == 80 * s.y + s.x then Cell(c, 7) else s.cells[k]
  {
  }

  /** A newline or carriage return above the last row: the cursor goes to the start of the next row, no cell changes. */
  lemma PutBreaksLine(s: Screen, c: Byte, shown: bool)
    requires InBounds(s) && c in {10, 13} && s.y < 24
    ensures Put(s, c, shown) == Screen(s.cells, 0, s.y + 1)
  {
  }

  /** A newline on the last row, or a character in the last cell: every row moves up, the last row is blank with the
      cursor at its start, and the cells that are not shown stay. */
  lemma PutScrolls(s: Screen, c: Byte, shown: bool)
    requires InBounds(s) && s.y == 24 && (c in {10, 13} || (Printable(c) && s.x == 79))
    ensures var r := Put(s, c, shown);
      && |r.cells| == 2048 && r.x == 0 && r.y == 24
      && (forall k | 0 <= k < 1920 ::
           r.cells[k] == if k == 1919 && c !in {10, 13} then Cell(c, 7) else s.cells[k + 80])
      && (forall k | 1920 <= k < 2000 :: r.cells[k] == Cell(32, 7))
      && (forall k | 2000 <= k < 2048 :: r.cells[k] == s.cells[k])
  {
  }

  /** A backspace that is not at the top-left cell: the cell before the cursor becomes blank and the cursor moves
      onto it. */
  lemma PutErases(s: Screen, shown: bool)
    requires InBounds(s) && 80 * s.y + s.x > 0
    ensures var r := Put(s, 8, shown);
      && InBounds(r) && 80 * r.y + r.x == 80 * s.y + s.x - 1
      && forall k | 0 <= k < 2048 :: r.cells[k] == if k == 80 * r.y + r.x then Cell(32, 7) else s.cells[k]
  {
  }

  /** At the top-left cell of the displayed current terminal a backspace does nothing. */
  lemma PutStops(s: Screen)
    requires |s.cells| == PAGE && s.x == 0 && s.y == 0
    ensures Put(s, 8, true) == s
  {
  }

  /** clear blanks the 2000 cells that are shown and sends the cursor home. */
  lemma ClearBlanks(s: Screen)
    requires |s.cells| == PAGE
    ensures var r := Cleared(s);
      && |r.cells| == 2048 && r.x == 0 && r.y == 0
      && forall k | 0 <= k < 2048 :: r.cells[k] == if k < 2000 then Cell(32, 7) else s.cells[k]
  {
  }

  /** The cells just before the cursor spell w. */
  ghost predicate Spelled(s: Screen, w: seq<Byte>) {
    && |w| <= Pos(s) <= |s.cells|
    && forall k | 0 <= k < |w| :: s.cells[Pos(s) - |w| + k].ch == w[k]
  }

  /** Echoing a character extends the text before the cursor, across the end of a row and scrolling. */
  lemma PutSpells(s: Screen, w: seq<Byte>, c: Byte, shown: bool)
    requires InBounds(s) && Spelled(s, w) && Printable(c) && |w| < SHOWN - COLS
    ensures InBounds(Put(s, c, shown)) && Spelled(Put(s, c, shown), w + [c])
  {
    var r, p := Put(s, c, shown), Pos(s);
    var cells := s.cells[p := Cell(c, ATTRIB)];
    if p + 1 == SHOWN {
      assert r == Screen(Scrolled(cells), 0, ROWS - 1);
      assert forall k | 0 <= k < SHOWN - COLS :: r.cells[k] == cells[k + COLS];
    } else {
      assert r.cells == cells && Pos(r) == p + 1;
    }
  }

  /** Echoing a backspace takes the last character back, also across the start of a row. */
  lemma EraseSpells(s: Screen, w: seq<Byte>, shown: bool)
    requires InBounds(s) && Spelled(s, w) && w != []
    ensures InBounds(Put(s, BACKSPACE, shown)) && Spelled(Put(s, BACKSPACE, shown), w[..|w| - 1])
    ensures Pos(Put(s, BACKSPACE, shown)) == Pos(s) - 1
  {
    assert Put(s, BACKSPACE, shown).cells == s.cells[Pos(s) - 1 := BLANK];
  }

  /** The text a line shows: each tab as four blanks. */
  function Expand(line: seq<Byte>): (w: seq<Byte>)
    ensures |line| <= |w| <= 4 * |line|
  {
    if line == [] then []
    else Expand(line[..|line| - 1]) + Drawn(line[|line| - 1])
  }

  function Drawn(c: Byte): (w: seq<Byte>)
    ensures 1 <= |w| <= 4
  {
    if c == TAB then [SPACE, SPACE, SPACE, SPACE] else [c]
  }

  /** Echoing a whole sequence of characters. */
  function PutAll(s: Screen, w: seq<Byte>, shown: bool): (r: Screen)
    requires |s.cells| == PAGE
    ensures |r.cells| == PAGE
  {
    if w == [] then s else Put(PutAll(s, w[..|w| - 1], shown), w[|w| - 1], shown)
  }

  lemma {:induction false} PutAllSpells(s: Screen, w: seq<Byte>, v: seq<Byte>, shown: bool)
    requires InBounds(s) && Spelled(s, w) && |w| + |v| <= SHOWN - COLS
    requires forall k | 0 <= k < |v| :: Printable(v[k])
    ensures InBounds(PutAll(s, v, shown)) && Spelled(PutAll(s, v, shown), w + v)
  {
    if v == [] {
      assert w + v == w;
    } else {
      var u := v[..|v| - 1];
      PutAllSpells(s, w, u, shown);
      PutSpells(PutAll(s, u, shown), w + u, v[|v| - 1], shown);
      assert w + v == w + u + [v[|v| - 1]];
    }
  }

  function Backspaces(n: nat): seq<Byte> { seq(n, _ => BACKSPACE) }

  lemma {:induction false} EraseAllSpells(s: Screen, w: seq<Byte>, n: nat, shown: bool)
    requires InBounds(s) && Spelled(s, w) && n <= |w|
    ensures InBounds(PutAll(s, Backspaces(n), shown)) && Spelled(PutAll(s, Backspaces(n), shown), w[..|w| - n])
    ensures Pos(PutAll(s, Backspaces(n), shown)) == Pos(s) - n
  {
    if n == 0 {
      assert w[..|w|] == w;
    } else {
      EraseAllSpells(s, w, n - 1, shown);
      assert Backspaces(n)[..n - 1] == Backspaces(n - 1);
      EraseSpells(PutAll(s, Backspaces(n - 1), shown), w[..|w| - (n - 1)], shown);
      assert w[..|w| - (n - 1)][..|w| - n] == w[..|w| - n];
    }
  }

  // ----- one keystroke of the line editor -----

  /** Typing c at the end of a line of at most 127 keeps what is shown equal to what is pending. */
  lemma TypingShows(s: Screen, line: seq<Byte>, c: Byte, shown: bool)
    requires InBounds(s) && Spelled(s, Expand(line)) && |line| < 127 && Printable(c)
    ensures var r := PutAll(s, Drawn(c), shown); InBounds(r) && Spelled(r, Expand(line + [c]))
  {
    PutAllSpells(s, Expand(line), Drawn(c), shown);
    assert (line + [c])[..|line|] == line;
  }

  /** Deleting the last character of a line, which echoes as many backspaces as it was drawn wide. */
  lemma ErasingShows(s: Screen, line: seq<Byte>, shown: bool)
    requires InBounds(s) && Spelled(s, Expand(line)) && line != []
    ensures var n := |line| - 1; var r := PutAll(s, Backspaces(|Drawn(line[n])|), shown);
      InBounds(r) && Spelled(r, Expand(line[..n])) && Pos(r) == Pos(s) - |Drawn(line[n])|
  {
    var n := |line| - 1;
    var w := Expand(line);
    EraseAllSpells(s, w, |Drawn(line[n])|, shown);
    assert w[..|w| - |Drawn(line[n])|] == Expand(line[..n]);
  }
}
