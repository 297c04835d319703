/** The three terminals: virtualised video memory, echo, the keyboard line buffer and terminal switching.
    student-distrib/keyboard.c, lib.c (putc, scroll_down, clear) and pit.c. */
module Console {
  import opened Common
  import opened CString
  import opened Screen

  const BUFFER := 128
  const FULL_BUFFER := 127
  const VIDEO_PAGE := 0xB8   // 0xB8000 >> 12, as a virtual page and as the displayed physical page

  datatype Terminal = Terminal(buffer: seq<Byte>, size: nat, enable: bool, x: int, y: int)

  datatype Modifiers = Modifiers(capsLock: bool, capsOn: bool, shift: bool, ctrl: bool, alt: bool)

  /** pages[0] is the displayed page 0xB8, pages[t + 1] the backing page of terminal t. */
  datatype State = State(terms: seq<Terminal>, pages: seq<seq<Cell>>, display: nat, current: nat, mods: Modifiers)

  ghost predicate Sized(st: State) {
    && |st.terms| == TERMINALS && |st.pages| == TERMINALS + 1
    && (forall p | 0 <= p <= TERMINALS :: |st.pages[p]| == PAGE)
    && (forall t | 0 <= t < TERMINALS :: |st.terms[t].buffer| == BUFFER && st.terms[t].size <= FULL_BUFFER)
    && st.display < TERMINALS && st.current < TERMINALS
  }

  function PageOf(st: State, t: nat): nat { if t == st.display then 0 else t + 1 }

  /** What terminal t's user sees, or would see if t were displayed. */
  ghost function Logical(st: State, t: nat): (s: Screen)
    requires Sized(st) && t < TERMINALS
    ensures |s.cells| == PAGE
  {
    Screen(st.pages[PageOf(st, t)], st.terms[t].x, st.terms[t].y)
  }

  ghost function WithScreen(st: State, t: nat, s: Screen): (r: State)
    requires Sized(st) && t < TERMINALS && |s.cells| == PAGE
    ensures Sized(r) && Logical(r, t) == s
  {
    st.(terms := st.terms[t := st.terms[t].(x := s.x, y := s.y)], pages := st.pages[PageOf(st, t) := s.cells])
  }

  /** Program output (and kernel messages): putc on the current terminal. */
  ghost function Output(st: State, c: Byte): State
    requires Sized(st)
  {
    WithScreen(st, st.current, Put(Logical(st, st.current), c, st.display == st.current))
  }

  ghost function OutputAll(st: State, w: seq<Byte>): (r: State)
    requires Sized(st)
    ensures Sized(r)
  {
    WithScreen(st, st.current, PutAll(Logical(st, st.current), w, st.display == st.current))
  }

  /** Echo: a string put on the displayed terminal. */
  ghost function Echo(st: State, w: seq<Byte>): (r: State)
    requires Sized(st)
    ensures Sized(r)
  {
    WithScreen(st, st.display, PutAll(Logical(st, st.display), w, st.display == st.current))
  }

  ghost function ClearShown(st: State): (r: State)
    requires Sized(st)
    ensures Sized(r)
  {
    WithScreen(st, st.display, Cleared(Logical(st, st.display)))
  }

  /** terminal_switch */
  ghost function Show(st: State, t: nat): (r: State)
    requires Sized(st) && t < TERMINALS
    ensures Sized(r)
  {
    if t == st.display then st
    else st.(pages := st.pages[st.display + 1 := st.pages[0]][0 := st.pages[t + 1]], display := t)
  }

  /** What a timer interrupt does to the console: the next terminal becomes the current one. */
  ghost function Timer(st: State): (r: State)
    requires Sized(st)
    ensures Sized(r)
  {
    st.(current := (st.current + 1) % TERMINALS)
  }

  ghost function Edit(st: State, buffer: seq<Byte>, size: nat, enable: bool): (r: State)
    requires Sized(st) && |buffer| == BUFFER && size <= FULL_BUFFER
    ensures Sized(r)
  {
    st.(terms := st.terms[st.display := st.terms[st.display].(buffer := buffer, size := size, enable := enable)])
  }

  /** A character key, as keyboard_irq treats it once translated. */
  ghost function Typed(st: State, c: Byte): (r: State)
    requires Sized(st)
    ensures Sized(r)
  {
    var d := st.terms[st.display];
    if c == BACKSPACE then
      if d.size == 0 then st
      else Edit(Echo(st, Backspaces(|Drawn(d.buffer[d.size - 1])|)), d.buffer, d.size - 1, d.enable)
    else if c == ENTER then Edit(Echo(st, [ENTER]), d.buffer[d.size := ENTER], 0, true)
    else if d.size == FULL_BUFFER then st
    else Edit(Echo(st, Drawn(c)), d.buffer[d.size := c], d.size + 1, d.enable)
  }

  const KEYS := 0x59

  /** Sixteen scan codes of the table: the byte each key gives without shift, */
  function Plain(row: nat): (r: seq<Byte>)
    ensures |r| == (if row < 5 then 16 else 9) && forall i | 0 <= i < |r| :: r[i] != NEWLINE
  {
    match row
    case 0 => [0, 0, 49, 50, 51, 52, 53, 54, 55, 56, 57, 48, 45, 61, 8, 9]
    case 1 => [113, 119, 101, 114, 116, 121, 117, 105, 111, 112, 91, 93, 13, 0, 97, 115]
    case 2 => [100, 102, 103, 104, 106, 107, 108, 59, 39, 96, 0, 92, 122, 120, 99, 118]
    case 3 => [98, 110, 109, 44, 46, 47, 0, 0, 0, 32, 0, 0, 0, 0, 0, 0]
    case 4 => [0, 0, 0, 0, 0, 0, 0, 55, 56, 57, 45, 52, 53, 54, 43, 49]
    case _ => [50, 51, 48, 46, 0, 0, 0, 0, 0]
  }

  /** and with shift. */
  function Shifted(row: nat): (r: seq<Byte>)
    ensures |r| == (if row < 5 then 16 else 9) && forall i | 0 <= i < |r| :: r[i] != NEWLINE
  {
    match row
    case 0 => [0, 0, 33, 64, 35, 36, 37, 94, 38, 42, 40, 41, 95, 43, 8, 9]
    case 1 => [81, 87, 69, 82, 84, 89, 85, 73, 79, 80, 123, 125, 13, 0, 65, 83]
    case 2 => [68, 70, 71, 72, 74, 75, 76, 58, 34, 126, 0, 124, 90, 88, 67, 86]
    case 3 => [66, 78, 77, 60, 62, 63, 0, 0, 0, 32, 0, 0, 0, 0, 0, 0]
    case 4 => [0, 0, 0, 0, 0, 0, 0, 0, 0, 0, 45, 0, 0, 0, 43, 0]
    case _ => [0, 0, 0, 46, 0, 0, 0, 0, 0]
  }

  function Key(ch: Byte, shift: bool): (c: Byte)
    requires ch < KEYS
    ensures c != NEWLINE
  {
    hide Plain, Shifted;
    (if shift then Shifted(ch / 16) else Plain(ch / 16))[ch % 16]
  }

  /** Caps lock and shift cancel for letters; other keys only know shift. */
  function Translate(m: Modifiers, ch: Byte): (c: Byte)
    requires ch < KEYS
    ensures c != NEWLINE
  {
    hide Key;
    var plain := Key(ch, false);
    if 97 <= plain <= 122 then Key(ch, m.capsLock != m.shift) else Key(ch, m.shift)
  }

  datatype Meaning =
    | Modify(m: Modifiers)   // a modifier key; escape modifies nothing
    | Function(t: nat)       // F1, F2, F3
    | ClearKey               // control-l
    | Character(c: Byte)
    | Ignored                // key releases and codes beyond the table

  function MeaningOf(m: Modifiers, ch: Byte): (r: Meaning)
    ensures r.Function? ==> r.t < TERMINALS
    ensures r.Character? ==> r.c != NEWLINE
  {
    hide Key, Translate;
    if ch == 0x2A || ch == 0x36 then Modify(m.(shift := true))
    else if ch == 0xAA || ch == 0xB6 then Modify(m.(shift := false))
    else if ch == 0x1D then Modify(m.(ctrl := true))
    else if ch == 0x9D then Modify(m.(ctrl := false))
    else if ch == 0x3A then Modify(m.(capsOn := true, capsLock := !m.capsLock))
    else if ch == 0xBA then Modify(m.(capsOn := false))
    else if ch == 0x38 then Modify(m.(alt := true))
    else if ch == 0xB8 then Modify(m.(alt := false))
    else if ch == 0x3B then Function(0)
    else if ch == 0x3C then Function(1)
    else if ch == 0x3D then Function(2)
    else if ch == 0x01 then Modify(m)
    else if ch >= KEYS then Ignored
    else if m.ctrl && Key(ch, false) == 108 then ClearKey
    else Character(Translate(m, ch))
  }

  /** keyboard_irq on scan code ch */
  ghost function Keyboard(st: State, ch: Byte): (r: State)
    requires Sized(st)
    ensures Sized(r)
  {
    hide MeaningOf;
    match MeaningOf(st.mods, ch)
    case Modify(m) => st.(mods := m)
    case Function(t) => if st.mods.alt then Show(st, t) else st
    case ClearKey => var d := st.terms[st.display]; Edit(ClearShown(st), d.buffer, 0, d.enable)
    case Character(c) => Typed(st, c)
    case Ignored => st
  }

  /** The first ENTER at or after i, or n. */
  function EnterFrom(buffer: seq<Byte>, i: nat, n: nat): (j: nat)
    requires i <= n <= |buffer|
    ensures i <= j <= n
    ensures forall k | i <= k < j :: buffer[k] != ENTER
    ensures j < n ==> buffer[j] == ENTER
    decreases n - i
  {
    if i == n || buffer[i] == ENTER then i else EnterFrom(buffer, i + 1, n)
  }

  /** What read_terminal stores for a request of n bytes, and the count it returns. */
  function Copied(buffer: seq<Byte>, n: nat): (r: (seq<Byte>, nat))
    requires n <= |buffer|
    ensures |r.0| == n && r.1 <= n
  {
    var j := EnterFrom(buffer, 0, n);
    if j == n then (buffer[..n], n) else (buffer[..j] + [NEWLINE] + Zeros(n - j - 1), j + 1)
  }

  lemma OnePut(s: Screen, c: Byte, shown: bool)
    requires |s.cells| == PAGE
    ensures PutAll(s, [c], shown) == Put(s, c, shown)
  {
    assert [c][..0] == [];
  }

  lemma EchoMore(st: State, v: seq<Byte>, c: Byte)
    requires Sized(st)
    ensures Echo(Echo(st, v), [c]) == Echo(st, v + [c])
  {
    OnePut(Logical(Echo(st, v), st.display), c, st.display == st.current);
    assert (v + [c])[..|v|] == v;
  }

  lemma EchoEdit(st: State, w: seq<Byte>, buffer: seq<Byte>, size: nat, enable: bool)
    requires Sized(st) && |buffer| == BUFFER && size <= FULL_BUFFER
    ensures Echo(Edit(st, buffer, size, enable), w) == Edit(Echo(st, w), buffer, size, enable)
  {
  }

  lemma NoOutput(st: State)
    requires Sized(st)
    ensures OutputAll(st, []) == st
  {
  }

  lemma OutputMore(st: State, v: seq<Byte>, c: Byte)
    requires Sized(st)
    ensures Output(OutputAll(st, v), c) == OutputAll(st, v + [c])
  {
    assert (v + [c])[..|v|] == v;
  }

  lemma MovedOne(cells: seq<Cell>, i: nat)
    requires |cells| == PAGE && i < SHOWN - COLS
    ensures Stored(cells[COLS..COLS + i] + cells[i..], i, cells[i + COLS])
         == cells[COLS..COLS + (i + 1)] + cells[i + 1..]
  {
  }

  class Console {
    const mem: array<Cell>           // physical pages 0xB8, 0xB9, 0xBA, 0xBB
    const terms: array<Terminal>     // multi_terminal
    var display: nat
    var current: nat
    var videoFrame: int              // page_table[0xB8].address
    var userMap: int                 // page_table_usermapping[0x22].address
    var pointers: nat                // the terminal that screen_xt and screen_yt point into
    var hw: int                      // the position in the VGA cursor registers
    var mods: Modifiers

    ghost function Page(p: nat): seq<Cell>
      requires (p + 1) * PAGE <= mem.Length
      reads mem
    {
      mem[p * PAGE..(p + 1) * PAGE]
    }

    ghost predicate Allocated() {
      mem.Length == (TERMINALS + 1) * PAGE && terms.Length == TERMINALS
    }

    ghost function Now(): State
      requires Allocated()
      reads this, mem, terms
    {
      State(terms[..], [Page(0), Page(1), Page(2), Page(3)], display, current, mods)
    }

    /** The video mapping, the user's copy of it and the cursor pointers all belong to terminal t. */
    ghost predicate MappedTo(t: nat)
      reads this
    {
      videoFrame == VIDEO_PAGE + (if t == display then 0 else t + 1) && userMap == videoFrame && pointers == t
    }

    ghost function ShownPosition(): int
      requires Allocated() && display < TERMINALS
      reads this, terms
    {
      (COLS * terms[display].y + terms[display].x) % 0x1_0000
    }

    /** Between handlers: mapping and pointers belong to the current terminal, the hardware cursor to the
        displayed one. */
    ghost predicate Valid()
      reads this, mem, terms
    {
      Allocated() && Sized(Now()) && MappedTo(current) && hw == ShownPosition()
    }

    /** Boot: init_terminal, paging_init and the final clear(). The backing pages hold whatever memory held. */
    constructor (memory: seq<Cell>)
      requires |memory| == (TERMINALS + 1) * PAGE
      ensures Valid() && fresh(mem) && fresh(terms)
      ensures Now() == ClearShown(Initial(memory))
    {
      mem := new Cell[(TERMINALS + 1) * PAGE](i requires 0 <= i < |memory| => memory[i]);
      terms := new Terminal[TERMINALS](_ => Terminal(Zeros(BUFFER), 0, false, 0, 0));
      display, current, videoFrame, userMap, pointers, hw := 0, 0, VIDEO_PAGE, VIDEO_PAGE, 0, 0;
      mods := Modifiers(false, false, false, false, false);
      new;
      assert forall p | 0 <= p <= TERMINALS :: Now().pages[p] == Initial(memory).pages[p];
      Clear();
    }

    ghost function Pages(): seq<seq<Cell>>
      requires Allocated()
      reads mem
    {
      [Page(0), Page(1), Page(2), Page(3)]
    }

    /** The screen that mapping and pointers select. */
    ghost function Selected(): Screen
      requires Allocated() && Sized(Now()) && pointers < TERMINALS
      reads this, mem, terms
    {
      Logical(Now(), pointers)
    }

    ghost predicate Ready()
      reads this, mem, terms
    {
      Allocated() && Sized(Now()) && pointers < TERMINALS && MappedTo(pointers)
    }

    lemma SelectedSame()
      requires Ready()
      ensures WithScreen(Now(), pointers, Selected()) == Now() && |Selected().cells| == PAGE
      ensures forall a: Screen, b: Screen {:trigger WithScreen(WithScreen(Now(), pointers, a), pointers, b)}
        | |a.cells| == PAGE && |b.cells| == PAGE ::
        WithScreen(WithScreen(Now(), pointers, a), pointers, b) == WithScreen(Now(), pointers, b)
    {
    }

    method StorePhysical(p: nat, k: nat, c: Cell)
      requires Allocated() && p <= TERMINALS && k < PAGE
      modifies mem
      ensures Pages() == old(Pages())[p := old(Pages())[p][k := c]]
    {
      mem[p * PAGE + k] := c;
      assert Pages()[p] == old(Pages())[p][k := c];
      assert forall q | 0 <= q <= TERMINALS && q != p :: Pages()[q] == old(Pages())[q];
    }

    method LoadPhysical(p: nat, k: nat) returns (c: Cell)
      requires Allocated() && p <= TERMINALS && k < PAGE
      ensures c == Pages()[p][k]
    {
      c := mem[p * PAGE + k];
    }

    /** A store to character cell k of the video buffer goes through the page table. */
    method StoreVideo(k: int, c: Cell)
      requires Allocated() && VIDEO_PAGE <= videoFrame <= VIDEO_PAGE + TERMINALS
      modifies mem
      ensures var p := videoFrame - VIDEO_PAGE; Pages() == old(Pages())[p := Stored(old(Pages())[p], k, c)]
    {
      if 0 <= k < PAGE {   // elsewhere: memory outside this model
        StorePhysical(videoFrame - VIDEO_PAGE, k, c);
      }
    }

    method LoadVideo(k: nat) returns (c: Cell)
      requires Allocated() && VIDEO_PAGE <= videoFrame <= VIDEO_PAGE + TERMINALS && k < PAGE
      ensures c == Pages()[videoFrame - VIDEO_PAGE][k]
    {
      c := LoadPhysical(videoFrame - VIDEO_PAGE, k);
    }

    method StoreSelected(k: int, c: Cell)
      requires Ready()
      modifies mem
      ensures Ready()
      ensures var s := old(Selected()).(cells := Stored(old(Selected()).cells, k, c));
        Now() == WithScreen(old(Now()), pointers, s) && Selected() == s
    {
      StoreVideo(k, c);
      assert Now() == old(Now()).(pages := Pages());
    }

    /** *screen_xt = x; *screen_yt = y */
    method SetCursor(x: int, y: int)
      requires Ready()
      modifies terms
      ensures Ready()
      ensures var s := old(Selected()).(x := x, y := y); Now() == WithScreen(old(Now()), pointers, s) && Selected() == s
    {
      terms[pointers] := terms[pointers].(x := x, y := y);
      assert old(Now()).pages[videoFrame - VIDEO_PAGE := old(Selected()).cells] == old(Now()).pages;
    }

    /** vid_mem */
    method VidMem(tid: nat)
      requires tid < TERMINALS
      modifies this`videoFrame, this`userMap, this`pointers
      ensures MappedTo(tid)
    {
      if tid != display {
        userMap := VIDEO_PAGE + tid + 1;
        videoFrame := VIDEO_PAGE + tid + 1;
      } else {
        userMap := VIDEO_PAGE;
        videoFrame := VIDEO_PAGE;
      }
      pointers := tid;
    }

    method UpdateCursor(x: int, y: int)
      modifies this`hw
      ensures hw == (COLS * y + x) % 0x1_0000
    {
      hw := (y * COLS + x) % 0x1_0000;
    }

    /** The first loop of scroll_down: every row moves up by one. */
    method MoveRowsUp()
      requires Allocated() && VIDEO_PAGE <= videoFrame <= VIDEO_PAGE + TERMINALS
      modifies mem
      ensures var p := videoFrame - VIDEO_PAGE; var cells := old(Pages())[p];
        Pages() == old(Pages())[p := cells[COLS..SHOWN] + cells[SHOWN - COLS..]]
    {
      ghost var p := videoFrame - VIDEO_PAGE;
      ghost var cells := Pages()[p];
      var i := 0;
      assert cells[COLS..COLS] + cells[0..] == cells;
      while i < COLS * (ROWS - 1)
        invariant 0 <= i <= COLS * (ROWS - 1)
        invariant Pages() == old(Pages())[p := cells[COLS..COLS + i] + cells[i..]]
      {
        var c := LoadVideo(i + COLS);
        StoreVideo(i, c);
        assert c == cells[i + COLS] by { assert (cells[COLS..COLS + i] + cells[i..])[i + COLS] == cells[i + COLS]; }
        MovedOne(cells, i);
        i := i + 1;
      }
    }

    /** Blanking cells from..to, as the second loop of scroll_down and the loop of clear do. */
    method BlankCells(from: nat, to: nat)
      requires Allocated() && VIDEO_PAGE <= videoFrame <= VIDEO_PAGE + TERMINALS && from <= to <= PAGE
      modifies mem
      ensures var p := videoFrame - VIDEO_PAGE; var cells := old(Pages())[p];
        Pages() == old(Pages())[p := cells[..from] + Blanks(to - from) + cells[to..]]
    {
      ghost var p := videoFrame - VIDEO_PAGE;
      ghost var cells := Pages()[p];
      var i := from;
      assert cells[..from] + Blanks(0) + cells[from..] == cells;
      while i < to
        invariant from <= i <= to
        invariant Pages() == old(Pages())[p := cells[..from] + Blanks(i - from) + cells[i..]]
      {
        StoreVideo(i, BLANK);
        assert Stored(cells[..from] + Blanks(i - from) + cells[i..], i, BLANK)
            == cells[..from] + Blanks(i + 1 - from) + cells[i + 1..];
        i := i + 1;
      }
    }

    /** scroll_down */
    method ScrollDown()
      requires Ready()
      modifies mem, terms
      ensures Ready()
      ensures var s := Screen(Scrolled(old(Selected()).cells), 0, ROWS - 1);
        Now() == WithScreen(old(Now()), pointers, s) && Selected() == s
    {
      terms[pointers] := terms[pointers].(x := 0, y := ROWS - 1);
      MoveRowsUp();
      BlankCells((ROWS - 1) * COLS, ROWS * COLS);
      ghost var cells := old(Selected()).cells;
      assert (cells[COLS..SHOWN] + cells[SHOWN - COLS..])[..SHOWN - COLS] == cells[COLS..SHOWN];
      assert (cells[COLS..SHOWN] + cells[SHOWN - COLS..])[SHOWN..] == cells[SHOWN..];
      assert Pages()[videoFrame - VIDEO_PAGE] == Scrolled(cells);
      assert Now() == old(Now()).(terms := terms[..], pages := Pages());
    }

    /** putc's branch for a backspace that has something to erase */
    method PutBackspace()
      requires Ready() && !(Selected().x == 0 && Selected().y == 0 && display == current)
      modifies mem, terms, this`hw
      ensures Ready()
      ensures var s := Put(old(Selected()), BACKSPACE, display == current);
        Now() == WithScreen(old(Now()), pointers, s) && Selected() == s
      ensures hw == if display == current then Pos(Selected()) % 0x1_0000 else old(hw)
    {
      SelectedSame();
      PutBackspaceSteps(Selected(), display == current);
      hide Selected, WithScreen, Now, Ready, Stored, Put;
      if X() == 0 {
        SetCursor(COLS, Y() - 1);
      }
      StoreSelected(COLS * Y() + X() - 1, BLANK);
      SetCursor(X() - 1, Y());
      if display == current { UpdateCursor(X(), Y()); }
    }

    /** putc's branch for any other character, before the scrolling */
    method PutOther(c: Byte)
      requires Ready() && c != BACKSPACE
      modifies mem, terms
      ensures Ready()
      ensures var s := Advanced(old(Selected()), c); Now() == WithScreen(old(Now()), pointers, s) && Selected() == s
    {
      SelectedSame();
      hide Selected, WithScreen, Now, Ready, Stored, Sized;
      if c == NEWLINE || c == ENTER {
        SetCursor(0, Y() + 1);
      } else {
        StoreSelected(COLS * Y() + X(), Cell(c, ATTRIB));
        SetCursor(X() + 1, Y());
        if X() >= COLS {
          SetCursor(X() % COLS, Y() + 1);
        }
      }
    }

    /** putc, on the terminal that the mapping and the pointers belong to */
    method PutC(c: Byte)
      requires Ready()
      modifies mem, terms, this`hw
      ensures Ready()
      ensures var s := Put(old(Selected()), c, display == current);
        Now() == WithScreen(old(Now()), pointers, s) && Selected() == s
      ensures hw == if display == current then Pos(Selected()) % 0x1_0000 else old(hw)
    {
      SelectedSame();
      hide Selected, WithScreen, Now, Ready, Advanced, Scrolled;
      if c == BACKSPACE {
        if X() == 0 && Y() == 0 {
          if display == current {
            UpdateCursor(X(), Y());
            return;
          }
        }
        PutBackspace();
        return;
      }
      PutOther(c);
      if Y() == ROWS { ScrollDown(); }
      if display != current { return; }
      UpdateCursor(X(), Y());
    }

    /** *screen_xt */
    function X(): int
      requires Ready()
      reads this, mem, terms
      ensures X() == Selected().x
    {
      terms[pointers].x
    }

    /** *screen_yt */
    function Y(): int
      requires Ready()
      reads this, mem, terms
      ensures Y() == Selected().y
    {
      terms[pointers].y
    }

    /** display_putc */
    method DisplayPutC(key: Byte)
      requires Valid()
      modifies this, mem, terms
      ensures Valid() && Now() == Echo(old(Now()), [key])
    {
      VidMem(display);
      OnePut(Selected(), key, display == current);
      PutC(key);
      UpdateCursor(terms[pointers].x, terms[pointers].y);
      VidMem(current);
    }

    /** clear */
    method Clear()
      requires Valid()
      modifies this, mem, terms
      ensures Valid() && Now() == ClearShown(old(Now()))
    {
      VidMem(display);
      BlankCells(0, ROWS * COLS);
      assert Pages()[0] == Cleared(old(Logical(Now(), display))).cells;
      terms[pointers] := terms[pointers].(x := 0, y := 0);
      UpdateCursor(0, 0);
      VidMem(current);
    }

    /** display_putc four times, as for a tab */
    method DisplayFour(key: Byte)
      requires Valid()
      modifies this, mem, terms
      ensures Valid() && Now() == Echo(old(Now()), [key, key, key, key])
    {
      hide Echo, Valid, Now, Sized;
      ValidSized();
      ghost var st := Now();
      DisplayPutC(key);
      DisplayPutC(key); EchoMore(st, [key], key);
      assert [key] + [key] == [key, key];
      DisplayPutC(key); EchoMore(st, [key, key], key);
      assert [key, key] + [key] == [key, key, key];
      DisplayPutC(key); EchoMore(st, [key, key, key], key);
      assert [key, key, key] + [key] == [key, key, key, key];
    }

    lemma ValidSized()
      requires Valid()
      ensures Allocated() && Sized(Now()) && Now().mods == mods
    {
    }

    /** Assignments to the displayed terminal's line buffer, size and flag */
    method SetLine(buffer: seq<Byte>, size: nat, enable: bool)
      requires Valid() && |buffer| == BUFFER && size <= FULL_BUFFER
      modifies terms
      ensures Valid() && Now() == Edit(old(Now()), buffer, size, enable)
    {
      terms[display] := terms[display].(buffer := buffer, size := size, enable := enable);
    }

    /** The echo of a backspace that has a character to delete, and the deletion */
    method DeleteLast()
      requires Valid() && terms[display].size > 0
      modifies this, mem, terms
      ensures Valid() && Now() == Typed(old(Now()), BACKSPACE)
    {
      ghost var st := Now();
      var tds := terms[display];
      assert tds == st.terms[st.display];
      if tds.buffer[tds.size - 1] == TAB {
        DisplayFour(BACKSPACE);
        assert Backspaces(4) == [BACKSPACE, BACKSPACE, BACKSPACE, BACKSPACE];
      } else {
        DisplayPutC(BACKSPACE);
        assert Backspaces(1) == [BACKSPACE];
      }
      SetLine(tds.buffer, tds.size - 1, tds.enable);
    }

    /** keyboard_irq from the test for a full buffer on */
    method PressCharacter(sch: Byte)
      requires Valid()
      modifies this, mem, terms
      ensures Valid() && Now() == Typed(old(Now()), sch)
    {
      ghost var st := Now();
      var tds := terms[display];
      assert tds == st.terms[st.display];
      hide Echo, Valid, Now;
      if tds.size == FULL_BUFFER {
        if sch == ENTER {
          DisplayPutC(NEWLINE);
          NewlineIsEnter(st);
          SetLine(tds.buffer[FULL_BUFFER := ENTER], 0, true);
          return;
        }
        if sch == BACKSPACE {
          DeleteLast();
        }
        return;
      }
      if sch == BACKSPACE {
        if tds.size == 0 { return; }
        DeleteLast();
        return;
      }
      if sch == TAB {
        DisplayFour(SPACE);
        SetLine(tds.buffer[tds.size := TAB], tds.size + 1, tds.enable);
        return;
      }
      SetLine(tds.buffer[tds.size := sch], if sch == ENTER then 0 else tds.size + 1, sch == ENTER || tds.enable);
      DisplayPutC(sch);
      EchoEdit(st, [sch], tds.buffer[tds.size := sch], if sch == ENTER then 0 else tds.size + 1,
               sch == ENTER || tds.enable);
    }

    method SetMods(m: Modifiers)
      requires Valid()
      modifies this`mods
      ensures Valid() && Now() == old(Now()).(mods := m) && mods == m
    {
      mods := m;
    }

    /** control-l */
    method EmptyLine()
      requires Valid()
      modifies this, mem, terms
      ensures Valid()
      ensures var d := old(Now()).terms[display]; Now() == Edit(ClearShown(old(Now())), d.buffer, 0, d.enable)
      ensures display == old(display) == old(Now()).display
    {
      var tds := terms[display];
      assert tds == Now().terms[display];
      Clear();
      SetLine(tds.buffer, 0, tds.enable);
    }

    /** get_command_char */
    method GetCommandChar(input: Byte) returns (isCommand: bool)
      requires Valid()
      modifies this, mem, terms
      ensures Valid()
      ensures var r := MeaningOf(old(mods), input); isCommand == (r.Modify? || r.Function?)
      ensures Now() == if isCommand then Keyboard(old(Now()), input) else old(Now())
    {
      hide Valid, Now, Sized, Show, Typed;
      ValidSized();
      isCommand := true;
      if input == 0x2A || input == 0x36 {
        SetMods(mods.(shift := true));
      } else if input == 0xAA || input == 0xB6 {
        SetMods(mods.(shift := false));
      } else if input == 0x1D {
        SetMods(mods.(ctrl := true));
      } else if input == 0x9D {
        SetMods(mods.(ctrl := false));
      } else if input == 0x3A {
        SetMods(mods.(capsOn := true, capsLock := !mods.capsLock));
      } else if input == 0xBA {
        SetMods(mods.(capsOn := false));
      } else if input == 0x38 {
        SetMods(mods.(alt := true));
      } else if input == 0xB8 {
        SetMods(mods.(alt := false));
      } else if 0x3B <= input <= 0x3D {
        if mods.alt { TerminalSwitch(input - 0x3B); }
      } else if input != 0x01 {
        isCommand := false;
      }
    }

    /** keyboard_irq */
    method KeyboardIrq(ch: Byte)
      requires Valid()
      modifies this, mem, terms
      ensures Valid() && Now() == Keyboard(old(Now()), ch)
    {
      ValidSized();
      hide Valid, Now, Sized, Typed, ClearShown, Show, Key;
      var isCommand := GetCommandChar(ch);
      ValidSized();
      if isCommand { return; }
      if ch >= KEYS { return; }
      var sch := Key(ch, false);
      if mods.ctrl {
        if sch == 108 {
          EmptyLine();
          return;
        }
      }
      if 97 <= sch <= 122 {
        if mods.capsLock != mods.shift { sch := Key(ch, true); }
      } else {
        sch := Key(ch, mods.shift);
      }
      PressCharacter(sch);
    }

    /** memcpy of one page to another */
    method CopyPage(dst: nat, src: nat)
      requires Allocated() && dst <= TERMINALS && src <= TERMINALS && dst != src
      modifies mem
      ensures Pages() == old(Pages())[dst := old(Pages())[src]]
    {
      ghost var a, b := Pages()[src], Pages()[dst];
      var i := 0;
      assert a[..0] + b[0..] == b;
      while i < PAGE
        invariant 0 <= i <= PAGE
        invariant Pages() == old(Pages())[dst := a[..i] + b[i..]]
      {
        var c := LoadPhysical(src, i);
        StorePhysical(dst, i, c);
        assert (a[..i] + b[i..])[i := a[i]] == a[..i + 1] + b[i + 1..];
        i := i + 1;
      }
      assert a[..PAGE] + b[PAGE..] == a;
    }

    /** The two copies of terminal_switch, through the mapping of the displayed terminal */
    method SwapPages(tid: nat)
      requires Allocated() && videoFrame == VIDEO_PAGE && display < TERMINALS && tid < TERMINALS && tid != display
      modifies mem
      ensures Pages() == old(Pages())[display + 1 := old(Pages())[0]][0 := old(Pages())[tid + 1]]
    {
      CopyPage(display + 1, videoFrame - VIDEO_PAGE);
      CopyPage(videoFrame - VIDEO_PAGE, tid + 1);
    }

    /** terminal_switch */
    method TerminalSwitch(tid: nat)
      requires Valid() && tid < TERMINALS
      modifies this, mem
      ensures Valid() && Now() == Show(old(Now()), tid)
    {
      if tid == display { return; }
      pointers := tid;
      UpdateCursor(terms[tid].x, terms[tid].y);
      VidMem(display);
      SwapPages(tid);
      display := tid;
      VidMem(current);
    }

    /** pit_irq: the mapping follows the selection (process_switch sets current_tid) */
    method PitIrq()
      requires Valid()
      modifies this
      ensures Valid() && Now() == Timer(old(Now()))
    {
      var tmpid := (current + 1) % TERMINALS;
      VidMem(tmpid);
      current := tmpid;
    }

    /** putc as programs reach it: the mapping is the current terminal's */
    method PutCurrent(c: Byte)
      requires Valid()
      modifies this, mem, terms
      ensures Valid() && Now() == Output(old(Now()), c)
    {
      PutC(c);
    }

    /** write_terminal */
    method WriteTerminal(buf: seq<Byte>) returns (n: nat)
      requires Valid()
      modifies this, mem, terms
      ensures Valid() && n == |buf| && Now() == OutputAll(old(Now()), buf)
    {
      ValidSized();
      hide Valid, Now, Sized, Output, OutputAll;
      n := 0;
      assert buf[..0] == [];
      NoOutput(Now());
      while n < |buf|
        invariant n <= |buf| && Valid()
        invariant Now() == OutputAll(old(Now()), buf[..n])
      {
        ghost var st := old(Now());
        PutCurrent(buf[n]);
        OutputMore(st, buf[..n], buf[n]);
        assert buf[..n + 1] == buf[..n] + [buf[n]];
        n := n + 1;
      }
      assert buf[..n] == buf;
    }

    /** read_terminal once the wait for the flag is over */
    method ReadTerminal(buf: array<Byte>, nbytes: int) returns (cnt: nat)
      requires Valid() && terms[current].enable && Wanted(nbytes) <= buf.Length
      modifies terms, buf
      ensures Valid()
      ensures Now() == old(Now()).(terms := old(terms[..])[current := old(terms[current]).(enable := false)])
      ensures var n := Wanted(nbytes); (buf[..n], cnt) == Copied(terms[current].buffer, n) && buf[n..] == old(buf[n..])
    {
      var n := if nbytes > BUFFER then BUFFER else nbytes;
      terms[current] := terms[current].(enable := false);
      var source := terms[current].buffer;
      cnt := CopyLine(source, buf, n);
    }
  }

  /** How many bytes a read asks for: at most the buffer, and none for a negative count. */
  function Wanted(nbytes: int): (n: nat)
    ensures n <= BUFFER
  {
    if nbytes < 0 then 0 else Min(nbytes, BUFFER)
  }

  /** The copying loop of read_terminal */
  method CopyLine(source: seq<Byte>, buf: array<Byte>, nbytes: int) returns (cnt: nat)
    requires |source| == BUFFER && nbytes <= BUFFER && nbytes <= buf.Length
    modifies buf
    ensures var n := Wanted(nbytes); (buf[..n], cnt) == Copied(source, n) && buf[n..] == old(buf[n..])
  {
    cnt := 0;
    ghost var n := Wanted(nbytes);
    ghost var j := EnterFrom(source, 0, n);
    var kb := 0;
    while kb < nbytes
      invariant 0 <= kb <= j && cnt == kb
      invariant buf[..kb] == source[..kb] && buf[n..] == old(buf[n..])
    {
      if source[kb] == ENTER {
        cnt := cnt + 1;
        buf[kb] := NEWLINE;
        kb := kb + 1;
        var i := kb;
        assert source[..j] + [NEWLINE] + Zeros(0) == source[..j] + [NEWLINE];
        while i < nbytes
          invariant kb <= i <= n
          invariant buf[..i] == source[..j] + [NEWLINE] + Zeros(i - kb) && buf[n..] == old(buf[n..])
        {
          buf[i] := NUL;
          MoreZeros(source[..j] + [NEWLINE], i - kb);
          i := i + 1;
          assert buf[..i] == buf[..i - 1] + [NUL];
        }
        return;
      }
      cnt := cnt + 1;
      buf[kb] := source[kb];
      kb := kb + 1;
    }
  }

  lemma NewlineIsEnter(st: State)
    requires Sized(st)
    ensures Echo(st, [NEWLINE]) == Echo(st, [ENTER])
  {
    OnePut(Logical(st, st.display), NEWLINE, st.display == st.current);
    OnePut(Logical(st, st.display), ENTER, st.display == st.current);
  }

  /** Three terminals with empty lines, the first displayed and current. */
  ghost function Initial(memory: seq<Cell>): State
    requires |memory| == (TERMINALS + 1) * PAGE
  {
    State(seq(TERMINALS, _ => Terminal(Zeros(BUFFER), 0, false, 0, 0)),
          [memory[..PAGE], memory[PAGE..2 * PAGE], memory[2 * PAGE..3 * PAGE], memory[3 * PAGE..]], 0, 0,
          Modifiers(false, false, false, false, false))
  }
}
