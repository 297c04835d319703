/** What each key does to the console: the bytes of the scan codes, shift, caps lock, and the command keys
    (student-distrib/keyboard.c and scancode.h). */
module Keys {
  import opened Common
  import opened CString
  import opened Screen
  import opened Console

  /** The byte that a key gives without and with shift. */
  predicate Gives(ch: Byte, plain: char, shifted: char)
    requires ch < KEYS
  {
    Key(ch, false) == plain as int && Key(ch, true) == shifted as int
  }

  lemma DigitRow()
    ensures Gives(0x02, '1', '!') && Gives(0x03, '2', '@') && Gives(0x04, '3', '#') && Gives(0x05, '4', '$')
    ensures Gives(0x06, '5', '%') && Gives(0x07, '6', '^') && Gives(0x08, '7', '&') && Gives(0x09, '8', '*')
    ensures Gives(0x0A, '9', '(') && Gives(0x0B, '0', ')') && Gives(0x0C, '-', '_') && Gives(0x0D, '=', '+')
  {
  }

  lemma UpperRow()
    ensures Gives(0x10, 'q', 'Q') && Gives(0x11, 'w', 'W') && Gives(0x12, 'e', 'E') && Gives(0x13, 'r', 'R')
    ensures Gives(0x14, 't', 'T') && Gives(0x15, 'y', 'Y') && Gives(0x16, 'u', 'U') && Gives(0x17, 'i', 'I')
    ensures Gives(0x18, 'o', 'O') && Gives(0x19, 'p', 'P') && Gives(0x1A, '[', '{') && Gives(0x1B, ']', '}')
  {
  }

  lemma HomeRow()
    ensures Gives(0x1E, 'a', 'A') && Gives(0x1F, 's', 'S') && Gives(0x20, 'd', 'D') && Gives(0x21, 'f', 'F')
    ensures Gives(0x22, 'g', 'G') && Gives(0x23, 'h', 'H') && Gives(0x24, 'j', 'J') && Gives(0x25, 'k', 'K')
    ensures Gives(0x26, 'l', 'L') && Gives(0x27, ';', ':') && Gives(0x28, '\'', '\"') && Gives(0x29, '`', '~')
  {
  }

  lemma LowerRow()
    ensures Gives(0x2B, '\\', '|') && Gives(0x2C, 'z', 'Z') && Gives(0x2D, 'x', 'X') && Gives(0x2E, 'c', 'C')
    ensures Gives(0x2F, 'v', 'V') && Gives(0x30, 'b', 'B') && Gives(0x31, 'n', 'N') && Gives(0x32, 'm', 'M')
    ensures Gives(0x33, ',', '<') && Gives(0x34, '.', '>') && Gives(0x35, '/', '?')
  {
  }

  /** Backspace, tab, Enter and the space bar */
  lemma OtherKeys(shift: bool)
    ensures Key(0x0E, shift) == 8 && Key(0x0F, shift) == 9 && Key(0x1C, shift) == 13 && Key(0x39, shift) == 32
  {
  }

  predicate Letter(ch: Byte) {
    ch < KEYS && 97 <= Key(ch, false) <= 122
  }

  /** The keys that are letters are the twenty-six of the three letter rows, and shift makes each a capital. */
  lemma LettersAre(ch: Byte)
    ensures Letter(ch) <==> 0x10 <= ch <= 0x19 || 0x1E <= ch <= 0x26 || 0x2C <= ch <= 0x32
    ensures Letter(ch) ==> Key(ch, true) == Key(ch, false) - 32
  {
    hide Key;
    if ch < KEYS {
      KeyIs(ch);
      LettersIn(ch / 16, ch % 16);
    }
  }

  lemma KeyIs(ch: Byte)
    requires ch < KEYS
    ensures ch / 16 <= 5 && ch % 16 < |Plain(ch / 16)|
    ensures Key(ch, false) == Plain(ch / 16)[ch % 16] && Key(ch, true) == Shifted(ch / 16)[ch % 16]
  {
    hide Plain, Shifted;
  }

  lemma LettersIn(row: nat, i: nat)
    requires row <= 5 && i < |Plain(row)|
    ensures 97 <= Plain(row)[i] <= 122 <==>
      (row == 1 && i != 10 && i != 11 && i != 12 && i != 13) ||
      (row == 2 && (i <= 6 || i >= 12)) || (row == 3 && i <= 2)
    ensures 97 <= Plain(row)[i] <= 122 ==> Shifted(row)[i] == Plain(row)[i] - 32
  {
    if row == 0 {
    } else if row == 1 {
    } else if row == 2 {
    } else if row == 3 {
    } else if row == 4 {
    } else {
    }
  }

  /** A key that is no command: not a modifier, escape or a function key with a meaning, and in the table. */
  predicate Plainly(ch: Byte) {
    && ch < KEYS && ch !in {0x01, 0x1D, 0x2A, 0x36, 0x38, 0x3A, 0x3B, 0x3C, 0x3D}
  }

  /** Which byte a key gives: a letter is small if caps lock and shift agree and a capital if exactly one is on; for the
      other keys caps lock makes no difference. Only control with the key l gives none. */
  lemma KeyMeans(m: Modifiers, ch: Byte)
    requires Plainly(ch)
    ensures MeaningOf(m, ch).ClearKey? <==> m.ctrl && ch == 0x26
    ensures !(m.ctrl && ch == 0x26) ==> MeaningOf(m, ch).Character?
    ensures !(m.ctrl && ch == 0x26) && Letter(ch) && m.capsLock == m.shift ==> MeaningOf(m, ch).c == Key(ch, false)
    ensures !(m.ctrl && ch == 0x26) && Letter(ch) && m.capsLock != m.shift ==> MeaningOf(m, ch).c == Key(ch, false) - 32
    ensures !(m.ctrl && ch == 0x26) && !Letter(ch) ==> MeaningOf(m, ch).c == Key(ch, m.shift)
  {
    LettersAre(ch);
    OnlyL(ch);
    hide Key;
  }

  lemma OnlyL(ch: Byte)
    requires ch < KEYS
    ensures Key(ch, false) == 108 <==> ch == 0x26
  {
  }

  /** What typing a letter does to a line that is not full: it goes in, small or capital, and nothing before it
      changes. */
  lemma LetterTyped(st: State, ch: Byte)
    requires Sized(st) && Letter(ch) && !(st.mods.ctrl && ch == 0x26) && st.terms[st.display].size < 127
    ensures var was, now := st.terms[st.display], Keyboard(st, ch).terms[st.display];
      && now.size == was.size + 1
      && now.buffer[..was.size] == was.buffer[..was.size]
      && now.buffer[was.size] == if st.mods.capsLock == st.mods.shift then Key(ch, false) else Key(ch, false) - 32
  {
    hide MeaningOf, PutAll, Key;
    LettersAre(ch);
    KeyMeans(st.mods, ch);
    KeyIsTyped(st, ch);
    var c := MeaningOf(st.mods, ch).c;
    assert c != BACKSPACE && c != ENTER;
  }

  lemma KeyIsTyped(st: State, ch: Byte)
    requires Sized(st) && MeaningOf(st.mods, ch).Character?
    ensures Keyboard(st, ch) == Typed(st, MeaningOf(st.mods, ch).c)
  {
    hide MeaningOf, Typed;
  }

  lemma TypedKeepsModes(st: State, c: Byte)
    requires Sized(st)
    ensures Typed(st, c).mods == st.mods && Typed(st, c).display == st.display && Typed(st, c).current == st.current
  {
  }

  /** The modifiers after any scan code: shift, control and alt are on from press to release, caps lock turns over at
      each press; and the displayed terminal changes only by alt with F1, F2 or F3. */
  lemma KeyboardModes(st: State, ch: Byte)
    requires Sized(st)
    ensures var r, m := Keyboard(st, ch), st.mods;
      && (r.mods.shift <==> ch in {0x2A, 0x36} || (m.shift && ch !in {0xAA, 0xB6}))
      && (r.mods.ctrl <==> ch == 0x1D || (m.ctrl && ch != 0x9D))
      && (r.mods.alt <==> ch == 0x38 || (m.alt && ch != 0xB8))
      && (r.mods.capsLock <==> (ch == 0x3A) != m.capsLock)
      && r.display == (if m.alt && 0x3B <= ch <= 0x3D then ch - 0x3B else st.display)
      && r.current == st.current
  {
    hide Typed, Translate, Key, ClearShown;
    if MeaningOf(st.mods, ch).Character? { TypedKeepsModes(st, MeaningOf(st.mods, ch).c); }
    if MeaningOf(st.mods, ch).ClearKey? { ClearKeepsModes(st); }
  }

  lemma ClearKeepsModes(st: State)
    requires Sized(st)
    ensures var r := ClearShown(st); r.mods == st.mods && r.display == st.display && r.current == st.current
  {
  }

  /** Keys that only change modes, function keys without alt, escape, releases and codes beyond the table leave every
      screen and every line as they are. */
  lemma CommandsAreSilent(st: State, ch: Byte)
    requires Sized(st) && !Plainly(ch) && !(st.mods.alt && 0x3B <= ch <= 0x3D)
    ensures Keyboard(st, ch).terms == st.terms && Keyboard(st, ch).pages == st.pages
  {
    hide Translate, Key;
  }

  // ----- the line and its echo, key by key -----

  /** A character other than tab, backspace and Enter, while the line is not full: it is appended and put once. */
  lemma TypedCharacter(st: State, c: Byte)
    requires Sized(st) && c !in {8, 9, 13} && st.terms[st.display].size < 127
    ensures var r, was, now := Typed(st, c), st.terms[st.display], Typed(st, c).terms[st.display];
      && Logical(r, st.display) == Put(Logical(st, st.display), c, st.display == st.current)
      && now.size == was.size + 1 && now.buffer == was.buffer[was.size := c] && now.enable == was.enable
  {
    OnePut(Logical(st, st.display), c, st.display == st.current);
    hide Put, PutAll;
  }

  /** A tab, while the line is not full: it is appended, and four blanks are put. */
  lemma TypedTab(st: State)
    requires Sized(st) && st.terms[st.display].size < 127
    ensures var r, was, now := Typed(st, 9), st.terms[st.display], Typed(st, 9).terms[st.display];
      var s, shown := Logical(st, st.display), st.display == st.current;
      && Logical(r, st.display) == Put(Put(Put(Put(s, 32, shown), 32, shown), 32, shown), 32, shown)
      && now.size == was.size + 1 && now.buffer == was.buffer[was.size := 9] && now.enable == was.enable
  {
    FourPuts(Logical(st, st.display), 32, st.display == st.current);
    hide Put, PutAll;
  }

  lemma FourPuts(s: Screen, c: Byte, shown: bool)
    requires |s.cells| == PAGE
    ensures PutAll(s, [c, c, c, c], shown) == Put(Put(Put(Put(s, c, shown), c, shown), c, shown), c, shown)
  {
    assert [c, c, c, c][..3] == [c, c, c] && [c, c, c][..2] == [c, c] && [c, c][..1] == [c] && [c][..0] == [];
    hide Put;
    assert PutAll(s, [c], shown) == Put(s, c, shown);
    assert PutAll(s, [c, c], shown) == Put(Put(s, c, shown), c, shown);
    assert PutAll(s, [c, c, c], shown) == Put(Put(Put(s, c, shown), c, shown), c, shown);
  }

  /** A full line takes no further character and shows none. */
  lemma TypedOnFull(st: State, c: Byte)
    requires Sized(st) && c !in {8, 13} && st.terms[st.display].size == 127
    ensures Typed(st, c) == st
  {
  }

  /** A backspace takes the last character of the line away and as many cells back as it was shown in: four for a
      tab, one for any other. On an empty line it does nothing. */
  lemma TypedBackspace(st: State)
    requires Sized(st)
    ensures var r, was, now := Typed(st, 8), st.terms[st.display], Typed(st, 8).terms[st.display];
      var s, shown := Logical(st, st.display), st.display == st.current;
      && (was.size == 0 ==> r == st)
      && (was.size > 0 ==>
           && now.size == was.size - 1 && now.buffer == was.buffer && now.enable == was.enable
           && Logical(r, st.display) ==
                if was.buffer[was.size - 1] == 9 then Put(Put(Put(Put(s, 8, shown), 8, shown), 8, shown), 8, shown)
                else Put(s, 8, shown))
  {
    var s, shown := Logical(st, st.display), st.display == st.current;
    FourPuts(s, 8, shown);
    OnePut(s, 8, shown);
    assert Backspaces(4) == [8, 8, 8, 8] && Backspaces(1) == [8];
    hide Put, PutAll;
  }

  /** Enter, on any line: it is stored behind the line, the line may be read, the next one begins empty, and the
      cursor goes to a new row. */
  lemma TypedEnter(st: State)
    requires Sized(st)
    ensures var r, was, now := Typed(st, 13), st.terms[st.display], Typed(st, 13).terms[st.display];
      && now.size == 0 && now.enable && now.buffer == was.buffer[was.size := 13]
      && Logical(r, st.display) == Put(Logical(st, st.display), 13, st.display == st.current)
  {
    OnePut(Logical(st, st.display), 13, st.display == st.current);
    hide Put, PutAll;
  }

  /** Control with l: the displayed screen is blank with the cursor home and its line is empty. */
  lemma ControlLClears(st: State)
    requires Sized(st) && st.mods.ctrl
    ensures var r := Keyboard(st, 0x26);
      && r.display == st.display && r.terms[st.display].size == 0
      && var s := Logical(r, st.display);
      s.x == 0 && s.y == 0 && forall k | 0 <= k < 2000 :: s.cells[k] == Cell(32, 7)
  {
    KeyMeans(st.mods, 0x26);
    hide MeaningOf;
    ClearBlanks(Logical(st, st.display));
  }

  /** Boot: terminal 0 displayed and current with a blank screen, every line empty and unsubmitted, no key held. */
  lemma BootIs(memory: seq<Cell>)
    requires |memory| == (TERMINALS + 1) * PAGE
    ensures var r := ClearShown(Initial(memory));
      && Sized(r) && r.display == 0 && r.current == 0
      && (forall t | 0 <= t < 3 :: r.terms[t].size == 0 && !r.terms[t].enable && r.terms[t].x == 0 && r.terms[t].y == 0)
      && !r.mods.capsLock && !r.mods.shift && !r.mods.ctrl && !r.mods.alt
      && forall k | 0 <= k < 2000 :: Logical(r, 0).cells[k] == Cell(32, 7)
  {
    ClearBlanks(Logical(Initial(memory), 0));
  }
}
