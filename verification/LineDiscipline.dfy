/** Whole runs of the console: each terminal keeps its own screen, its line is what its user edits, what
    is shown is what will be read, and the cursor never leaves the screen. */
module LineDiscipline {
  import opened Common
  import opened CString
  import opened Screen
  import opened Console

  datatype Event =
    | Press(ch: Byte)   // keyboard interrupt
    | Tick              // timer interrupt
    | Write(c: Byte)    // one character of program output
    | Read              // a read of the current terminal that has got its line

  ghost function Step(st: State, e: Event): (r: State)
    requires Sized(st)
    ensures Sized(r)
  {
    match e
    case Press(ch) => Keyboard(st, ch)
    case Tick => Timer(st)
    case Write(c) => Output(st, c)
    case Read => st.(terms := st.terms[st.current := st.terms[st.current].(enable := false)])
  }

  ghost function Run(st: State, es: seq<Event>): (r: State)
    requires Sized(st)
    ensures Sized(r)
    decreases es
  {
    if es == [] then st else Run(Step(st, es[0]), es[1..])
  }

  /** The line being edited on terminal t. */
  ghost function Pending(st: State, t: nat): (line: seq<Byte>)
    requires Sized(st) && t < TERMINALS
    ensures |line| <= FULL_BUFFER
  {
    st.terms[t].buffer[..st.terms[t].size]
  }

  function Ticks(es: seq<Event>): nat {
    if es == [] then 0 else (if es[0].Tick? then 1 else 0) + Ticks(es[1..])
  }

  lemma StepSelects(st: State, e: Event)
    requires Sized(st)
    ensures Step(st, e).current == if e.Tick? then (st.current + 1) % 3 else st.current
  {
    hide MeaningOf, PutAll, Put, Cleared;
  }

  /** Only ticks move program output to another terminal, one after the other. */
  lemma {:induction false} OutputGoesRound(st: State, es: seq<Event>)
    requires Sized(st)
    ensures Run(st, es).current == (st.current + Ticks(es)) % 3
    decreases es
  {
    hide Step, Sized;
    if es != [] {
      StepSelects(st, es[0]);
      OutputGoesRound(Step(st, es[0]), es[1..]);
    } else {
      CurrentInRange(st);
    }
  }

  lemma CurrentInRange(st: State)
    requires Sized(st)
    ensures st.current < 3
  {
  }

  // ----- screens are virtual -----

  /** Switching the displayed terminal copies two pages and changes no terminal's screen or line. */
  lemma ShowKeepsScreens(st: State, i: nat, t: nat)
    requires Sized(st) && i < TERMINALS && t < TERMINALS
    ensures Logical(Show(st, i), t) == Logical(st, t) && Show(st, i).terms == st.terms
    ensures Show(st, i).display == i && Show(st, i).current == st.current
  {
  }

  /** Program output reaches the current terminal's screen only, displayed or not. */
  lemma OutputTouchesCurrent(st: State, c: Byte, t: nat)
    requires Sized(st) && t < TERMINALS
    ensures Logical(Output(st, c), t)
         == if t == st.current then Put(Logical(st, t), c, st.display == st.current) else Logical(st, t)
    ensures Pending(Output(st, c), t) == Pending(st, t)
    ensures t != st.current ==> Output(st, c).terms[t] == st.terms[t]
  {
  }

  function Writes(w: seq<Byte>): seq<Event> {
    seq(|w|, i requires 0 <= i < |w| => Write(w[i]))
  }

  lemma {:induction false} RunMore(st: State, es: seq<Event>, e: Event)
    requires Sized(st)
    ensures Run(st, es + [e]) == Step(Run(st, es), e)
    decreases es
  {
    hide Step, Sized;
    if es == [] {
      assert es + [e] == [e] && [e][1..] == [];
      assert Run(st, [e]) == Run(Step(st, e), []);
    } else {
      assert (es + [e])[1..] == es[1..] + [e];
      RunMore(Step(st, es[0]), es[1..], e);
    }
  }

  /** A program's write is the output of its bytes, one after the other. */
  lemma {:induction false} WriteIsRun(st: State, w: seq<Byte>)
    requires Sized(st)
    ensures OutputAll(st, w) == Run(st, Writes(w))
  {
    if w == [] {
      NoOutput(st);
      assert Writes(w) == [];
    } else {
      var v, c := w[..|w| - 1], w[|w| - 1];
      WriteIsRun(st, v);
      OutputMore(st, v, c);
      RunMore(st, Writes(v), Write(c));
      assert Writes(w) == Writes(v) + [Write(c)] && w == v + [c];
    }
  }

  /** A key, whatever it does, touches the displayed terminal's screen and line only. */
  lemma KeyTouchesDisplayed(st: State, ch: Byte, t: nat)
    requires Sized(st) && t < TERMINALS && t != st.display
    ensures Logical(Keyboard(st, ch), t) == Logical(st, t) && Keyboard(st, ch).terms[t] == st.terms[t]
  {
    hide MeaningOf;
    match MeaningOf(st.mods, ch)
    case Function(i) => ShowKeepsScreens(st, i, t);
    case _ =>
  }

  // ----- the line editor -----

  datatype LineKey = Insert(c: Byte) | Erase | Submit | Kill

  /** The editor a user expects: append up to 127, delete the last, start afresh. */
  function Edited(line: seq<Byte>, k: LineKey): seq<Byte> {
    match k
    case Insert(c) => if |line| == FULL_BUFFER then line else line + [c]
    case Erase => if line == [] then [] else line[..|line| - 1]
    case Submit => []
    case Kill => []
  }

  function EditedAll(line: seq<Byte>, ks: seq<LineKey>): seq<Byte>
    decreases ks
  {
    if ks == [] then line else EditedAll(Edited(line, ks[0]), ks[1..])
  }

  function KeyOf(m: Meaning): seq<LineKey> {
    match m
    case ClearKey => [Kill]
    case Character(c) => if c == BACKSPACE then [Erase] else if c == ENTER then [Submit] else [Insert(c)]
    case _ => []
  }

  /** The editing keys that event e gives terminal t: none unless it is displayed. */
  ghost function Delivered(st: State, e: Event, t: nat): seq<LineKey>
    requires Sized(st)
  {
    if e.Press? && st.display == t then KeyOf(MeaningOf(st.mods, e.ch)) else []
  }

  ghost function DeliveredAll(st: State, es: seq<Event>, t: nat): seq<LineKey>
    requires Sized(st)
    decreases es
  {
    if es == [] then [] else Delivered(st, es[0], t) + DeliveredAll(Step(st, es[0]), es[1..], t)
  }

  lemma StepEdits(st: State, e: Event, t: nat)
    requires Sized(st) && t < TERMINALS
    ensures Pending(Step(st, e), t) == EditedAll(Pending(st, t), Delivered(st, e, t))
  {
    hide MeaningOf, PutAll, Put, Cleared;
    match e
    case Press(ch) =>
      if t != st.display { KeyTouchesDisplayed(st, ch, t); }
      else {
        var m := MeaningOf(st.mods, ch);
        assert KeyOf(m) == [] || KeyOf(m)[1..] == [];
      }
    case _ =>
  }

  lemma {:induction false} EditedAppend(line: seq<Byte>, ks: seq<LineKey>, ls: seq<LineKey>)
    ensures EditedAll(line, ks + ls) == EditedAll(EditedAll(line, ks), ls)
    decreases ks
  {
    if ks == [] {
      assert ks + ls == ls;
    } else {
      assert (ks + ls)[1..] == ks[1..] + ls;
      EditedAppend(Edited(line, ks[0]), ks[1..], ls);
    }
  }

  /** Whatever else happens, a terminal's pending line is its user's keystrokes run through the editor. */
  lemma {:induction false} LineIsEdited(st: State, es: seq<Event>, t: nat)
    requires Sized(st) && t < TERMINALS
    ensures Pending(Run(st, es), t) == EditedAll(Pending(st, t), DeliveredAll(st, es, t))
    decreases es
  {
    if es != [] {
      StepEdits(st, es[0], t);
      LineIsEdited(Step(st, es[0]), es[1..], t);
      EditedAppend(Pending(st, t), Delivered(st, es[0], t), DeliveredAll(Step(st, es[0]), es[1..], t));
    }
  }

  // ----- a terminal by itself -----

  /** What can happen to one terminal: a character of its own program's output, or an editing key. `shown` says that it
      is displayed and current at that moment. */
  datatype Action = Print(c: Byte, shown: bool) | Strike(k: LineKey, shown: bool)

  /** One terminal as if it were the only one: its screen and its pending line. */
  datatype View = View(screen: Screen, line: seq<Byte>)

  ghost predicate Viewable(v: View) { |v.screen.cells| == PAGE && |v.line| <= FULL_BUFFER }

  /** What an editing key echoes. */
  function Echoed(line: seq<Byte>, k: LineKey): seq<Byte> {
    match k
    case Insert(c) => if |line| == FULL_BUFFER then [] else Drawn(c)
    case Erase => if line == [] then [] else Backspaces(|Drawn(line[|line| - 1])|)
    case Submit => [ENTER]
    case Kill => []
  }

  ghost function Acted(v: View, a: Action): (r: View)
    requires Viewable(v)
    ensures Viewable(r)
  {
    match a
    case Print(c, shown) => v.(screen := Put(v.screen, c, shown))
    case Strike(Kill, _) => View(Cleared(v.screen), [])
    case Strike(k, shown) => View(PutAll(v.screen, Echoed(v.line, k), shown), Edited(v.line, k))
  }

  ghost function ActedAll(v: View, acts: seq<Action>): (r: View)
    requires Viewable(v)
    ensures Viewable(r)
    decreases acts
  {
    if acts == [] then v else ActedAll(Acted(v, acts[0]), acts[1..])
  }

  ghost function ViewOf(st: State, t: nat): (v: View)
    requires Sized(st) && t < TERMINALS
    ensures Viewable(v)
  {
    View(Logical(st, t), Pending(st, t))
  }

  /** What event e is to terminal t: nothing, unless it is output while t is current or a key while t is displayed. */
  ghost function Reaching(st: State, e: Event, t: nat): seq<Action>
    requires Sized(st)
  {
    var shown := st.display == st.current;
    match e
    case Write(c) => if st.current == t then [Print(c, shown)] else []
    case _ =>
      var ks := Delivered(st, e, t);
      if ks == [] then [] else [Strike(ks[0], shown)]
  }

  ghost function ReachingAll(st: State, es: seq<Event>, t: nat): seq<Action>
    requires Sized(st)
    decreases es
  {
    if es == [] then [] else Reaching(st, es[0], t) + ReachingAll(Step(st, es[0]), es[1..], t)
  }

  lemma StepIsActed(st: State, e: Event, t: nat)
    requires Sized(st) && t < TERMINALS
    ensures ViewOf(Step(st, e), t) == ActedAll(ViewOf(st, t), Reaching(st, e, t))
  {
    hide MeaningOf, Put, PutAll, Cleared;
    match e
    case Press(ch) =>
      if t != st.display { KeyTouchesDisplayed(st, ch, t); }
      else { KeyIsActed(st, ch); }
    case Write(c) =>
      OutputTouchesCurrent(st, c, t);
    case _ =>
  }

  lemma KeyIsActed(st: State, ch: Byte)
    requires Sized(st)
    ensures ViewOf(Step(st, Press(ch)), st.display)
         == ActedAll(ViewOf(st, st.display), Reaching(st, Press(ch), st.display))
  {
    hide MeaningOf, Typed, Put, PutAll, Cleared;
    var t := st.display;
    match MeaningOf(st.mods, ch)
    case Modify(m) =>
      assert Pending(Keyboard(st, ch), t) == Pending(st, t);
    case Function(i) => ShowKeepsScreens(st, i, t);
    case ClearKey =>
    case Character(c) =>
      TypedIsActed(st, c);
      assert KeyOf(Character(c))[1..] == [];
    case Ignored =>
  }

  lemma TypedIsActed(st: State, c: Byte)
    requires Sized(st)
    ensures ViewOf(Typed(st, c), st.display)
         == Acted(ViewOf(st, st.display), Strike(KeyOf(Character(c))[0], st.display == st.current))
  {
    hide Put, Cleared, MeaningOf, Drawn, Backspaces;
    var d, line, r := st.terms[st.display], Pending(st, st.display), Typed(st, c);
    if c == BACKSPACE && d.size > 0 {
      assert Pending(r, st.display) == line[..d.size - 1];
    } else if c != BACKSPACE && c != ENTER && d.size < FULL_BUFFER {
      assert Pending(r, st.display) == line + [c];
    }
  }

  lemma {:induction false} ActedAppend(v: View, a: seq<Action>, b: seq<Action>)
    requires Viewable(v)
    ensures ActedAll(v, a + b) == ActedAll(ActedAll(v, a), b)
    decreases a
  {
    hide Acted;
    if a == [] {
      assert a + b == b;
    } else {
      assert (a + b)[1..] == a[1..] + b;
      ActedAppend(Acted(v, a[0]), a[1..], b);
    }
  }

  /** Screens are virtual: after any run, a terminal's screen and line are what its own output and its own keys, in
      their order, make of a terminal that is alone. Terminal switches, ticks, and whatever happens to the other
      terminals leave no trace. */
  lemma {:induction false} TerminalIsAlone(st: State, es: seq<Event>, t: nat)
    requires Sized(st) && t < TERMINALS
    ensures ViewOf(Run(st, es), t) == ActedAll(ViewOf(st, t), ReachingAll(st, es, t))
    decreases es
  {
    hide ViewOf, Step, Reaching, Acted, Sized;
    if es != [] {
      StepIsActed(st, es[0], t);
      TerminalIsAlone(Step(st, es[0]), es[1..], t);
      ActedAppend(ViewOf(st, t), Reaching(st, es[0], t), ReachingAll(Step(st, es[0]), es[1..], t));
    }
  }

  // ----- what is shown is what is read -----

  /** The cursor is on the screen with room before it for the pending line as drawn. */
  ghost predicate Roomy(st: State, t: nat)
    requires Sized(st) && t < TERMINALS
  {
    && InBounds(Logical(st, t)) && |Expand(Pending(st, t))| <= Pos(Logical(st, t))
    && (forall k | 0 <= k < |Pending(st, t)| :: Printable(Pending(st, t)[k]))
  }

  /** The cells before the cursor spell the pending line, tabs as four blanks. */
  ghost predicate Shows(st: State, t: nat)
    requires Sized(st) && t < TERMINALS
  {
    Spelled(Logical(st, t), Expand(Pending(st, t)))
  }

  /** Program output that does not back up into the pending line: a backspace finds a column of its own
      before the cursor, or the displayed terminal's top-left cell, where it does nothing. */
  ghost predicate Harmless(st: State, e: Event)
    requires Sized(st)
  {
    e == Write(BACKSPACE) ==>
      var p := Pos(Logical(st, st.current));
      p > |Expand(Pending(st, st.current))| || (p == 0 && st.display == st.current)
  }

  /** The output that reaches terminal t is harmless; other terminals' output may be anything. */
  ghost predicate HarmlessRun(st: State, es: seq<Event>, t: nat)
    requires Sized(st)
    decreases es
  {
    es == [] || ((st.current == t ==> Harmless(st, es[0])) && HarmlessRun(Step(st, es[0]), es[1..], t))
  }

  /** Output without backspaces is always harmless. */
  lemma {:induction false} ForwardIsHarmless(st: State, es: seq<Event>, t: nat)
    requires Sized(st) && forall i | 0 <= i < |es| :: es[i] != Write(BACKSPACE)
    ensures HarmlessRun(st, es, t)
    decreases es
  {
    if es != [] { ForwardIsHarmless(Step(st, es[0]), es[1..], t); }
  }

  /** Exactly the harmless output leaves the current terminal's cursor on the screen and its line room. */
  lemma OutputKeepsRoomy(st: State, c: Byte)
    requires Sized(st) && Roomy(st, st.current)
    ensures Roomy(Output(st, c), st.current) <==> Harmless(st, Write(c))
  {
    var t, s := st.current, Logical(st, st.current);
    OutputTouchesCurrent(st, c, t);
    PutStaysInBounds(s, c, st.display == t);
    if c == BACKSPACE {
      if Pos(s) > 0 {
        EraseAllRoomy(s, 1, st.display == t);
        OnePut(s, c, st.display == t);
        assert Backspaces(1) == [BACKSPACE];
      }
    } else {
      PutMovesOn(s, c, st.display == t);
    }
  }

  lemma TypedInsert(st: State, c: Byte)
    requires Sized(st) && Printable(c) && Roomy(st, st.display) && |Pending(st, st.display)| < FULL_BUFFER
    ensures Roomy(Typed(st, c), st.display)
    ensures Shows(st, st.display) ==> Shows(Typed(st, c), st.display)
  {
    var d, s, line := st.display, Logical(st, st.display), Pending(st, st.display);
    var r := Typed(st, c);
    assert Pending(r, d) == line + [c];
    assert Logical(r, d) == PutAll(s, Drawn(c), st.display == st.current);
    assert (line + [c])[..|line|] == line;
    PutAllRoomy(s, |Expand(line)|, Drawn(c), st.display == st.current);
    if Shows(st, d) { TypingShows(s, line, c, st.display == st.current); }
  }

  /** Characters put after w columns leave the cursor at least as many columns further. */
  lemma {:induction false} PutAllRoomy(s: Screen, w: nat, v: seq<Byte>, shown: bool)
    requires InBounds(s) && w <= Pos(s) && w + |v| <= SHOWN - COLS
    requires forall k | 0 <= k < |v| :: Printable(v[k])
    ensures InBounds(PutAll(s, v, shown)) && w + |v| <= Pos(PutAll(s, v, shown))
  {
    if v != [] {
      var u := v[..|v| - 1];
      PutAllRoomy(s, w, u, shown);
      PutStaysInBounds(PutAll(s, u, shown), v[|v| - 1], shown);
      PutMovesOn(PutAll(s, u, shown), v[|v| - 1], shown);
    }
  }

  lemma {:induction false} EraseAllRoomy(s: Screen, n: nat, shown: bool)
    requires InBounds(s) && n <= Pos(s)
    ensures InBounds(PutAll(s, Backspaces(n), shown)) && Pos(PutAll(s, Backspaces(n), shown)) == Pos(s) - n
  {
    if n > 0 {
      EraseAllRoomy(s, n - 1, shown);
      assert Backspaces(n)[..n - 1] == Backspaces(n - 1);
      PutStaysInBounds(PutAll(s, Backspaces(n - 1), shown), BACKSPACE, shown);
    }
  }

  lemma TypedErase(st: State)
    requires Sized(st) && Roomy(st, st.display) && Pending(st, st.display) != []
    ensures Roomy(Typed(st, BACKSPACE), st.display)
    ensures Shows(st, st.display) ==> Shows(Typed(st, BACKSPACE), st.display)
  {
    var d, s, line := st.display, Logical(st, st.display), Pending(st, st.display);
    var n, r := |line| - 1, Typed(st, BACKSPACE);
    var k := |Drawn(line[n])|;
    assert Pending(r, d) == line[..n];
    assert Logical(r, d) == PutAll(s, Backspaces(k), st.display == st.current);
    assert |Expand(line)| == |Expand(line[..n])| + k;
    EraseAllRoomy(s, k, st.display == st.current);
    if Shows(st, d) { ErasingShows(s, line, st.display == st.current); }
  }

  /** A line of none of whose terminal's keys are pending is trivially shown. */
  lemma EmptyShows(st: State, t: nat)
    requires Sized(st) && t < TERMINALS && st.terms[t].size == 0 && InBounds(Logical(st, t))
    ensures Roomy(st, t) && Shows(st, t)
  {
    assert Pending(st, t) == [];
  }

  lemma TypedEnter(st: State)
    requires Sized(st) && InBounds(Logical(st, st.display))
    ensures Roomy(Typed(st, ENTER), st.display) && Shows(Typed(st, ENTER), st.display)
  {
    var d, s := st.display, Logical(st, st.display);
    OnePut(s, ENTER, st.display == st.current);
    PutStaysInBounds(s, ENTER, st.display == st.current);
    EmptyShows(Typed(st, ENTER), d);
  }

  /** One event, seen by any terminal. */
  lemma StepKeepsRoomy(st: State, e: Event, t: nat)
    requires Sized(st) && t < TERMINALS && Roomy(st, t) && (st.current == t ==> Harmless(st, e))
    ensures Roomy(Step(st, e), t)
    ensures Shows(st, t) && !(e.Write? && t == st.current) ==> Shows(Step(st, e), t)
  {
    match e
    case Press(ch) =>
      if t != st.display { KeyTouchesDisplayed(st, ch, t); }
      else { KeyKeepsRoomy(st, ch); }
    case Tick =>
    case Write(c) =>
      OutputTouchesCurrent(st, c, t);
      if t == st.current { OutputKeepsRoomy(st, c); }
    case Read =>
      assert Pending(Step(st, e), t) == Pending(st, t) && Logical(Step(st, e), t) == Logical(st, t);
  }

  lemma KeyKeepsRoomy(st: State, ch: Byte)
    requires Sized(st) && Roomy(st, st.display)
    ensures Roomy(Keyboard(st, ch), st.display)
    ensures Shows(st, st.display) ==> Shows(Keyboard(st, ch), st.display)
  {
    hide MeaningOf;
    match MeaningOf(st.mods, ch)
    case Modify(m) =>
      assert Pending(Keyboard(st, ch), st.display) == Pending(st, st.display);
    case Function(i) =>
      ShowKeepsScreens(st, i, st.display);
    case ClearKey =>
      EmptyShows(Keyboard(st, ch), st.display);
    case Character(c) =>
      if c == ENTER { TypedEnter(st); }
      else if c == BACKSPACE { if st.terms[st.display].size != 0 { TypedErase(st); } }
      else if st.terms[st.display].size != FULL_BUFFER { TypedInsert(st, c); }
    case Ignored =>
  }

  /** No terminal's cursor ever leaves its screen, and a pending line always fits before it: 127
      characters of four columns are fewer than 24 rows. */
  lemma {:induction false} CursorBound(st: State, es: seq<Event>, t: nat)
    requires Sized(st) && t < TERMINALS && Roomy(st, t)
    requires HarmlessRun(st, es, t)
    ensures Roomy(Run(st, es), t)
    decreases es
  {
    if es != [] {
      StepKeepsRoomy(st, es[0], t);
      CursorBound(Step(st, es[0]), es[1..], t);
    }
  }

  /** Terminal t has had no program output since its pending line began. */
  ghost function Quiet(st: State, es: seq<Event>, t: nat, before: bool): bool
    requires Sized(st) && t < TERMINALS
    decreases es
  {
    if es == [] then before
    else
      var r := Step(st, es[0]);
      Quiet(r, es[1..], t, r.terms[t].size == 0 || (before && !(es[0].Write? && t == st.current)))
  }

  /** What is shown is what is read: across typing, tabs, deletion, wrapping, scrolling, output elsewhere
      and switching, a line not disturbed by output is spelled just before the cursor. */
  lemma {:induction false} ShownIsPending(st: State, es: seq<Event>, t: nat, before: bool)
    requires Sized(st) && t < TERMINALS && Roomy(st, t) && (before ==> Shows(st, t))
    requires HarmlessRun(st, es, t)
    ensures Quiet(st, es, t, before) ==> Shows(Run(st, es), t)
    decreases es
  {
    if es != [] {
      var r := Step(st, es[0]);
      StepKeepsRoomy(st, es[0], t);
      if r.terms[t].size == 0 { EmptyShows(r, t); }
      ShownIsPending(r, es[1..], t, r.terms[t].size == 0 || (before && !(es[0].Write? && t == st.current)));
    }
  }

  /** The boot state meets the hypotheses of the run theorems. */
  lemma BootIsRoomy(memory: seq<Cell>, t: nat)
    requires |memory| == (TERMINALS + 1) * PAGE && t < TERMINALS
    ensures Sized(Initial(memory)) && Roomy(ClearShown(Initial(memory)), t) && Shows(ClearShown(Initial(memory)), t)
  {
    EmptyShows(ClearShown(Initial(memory)), t);
  }

  /** Without the hypothesis the cursor can leave the screen: a backspace as the first output of terminal 1, which the
      first tick after boot has made current while terminal 0 is displayed. */
  lemma CursorCanLeave(memory: seq<Cell>)
    requires |memory| == (TERMINALS + 1) * PAGE
    ensures Sized(Initial(memory))
    ensures var r := Run(ClearShown(Initial(memory)), [Tick, Write(BACKSPACE)]);
      r.current == 1 && r.display == 0 && !InBounds(Logical(r, 1))
  {
    var boot := ClearShown(Initial(memory));
    var es := [Tick, Write(BACKSPACE)];
    assert es[1..] == [Write(BACKSPACE)] && es[1..][1..] == [];
    var ticked := Step(boot, Tick);
    assert Run(boot, es) == Run(ticked, [Write(BACKSPACE)]) == Run(Step(ticked, Write(BACKSPACE)), []);
    OutputTouchesCurrent(ticked, BACKSPACE, 1);
    PutStaysInBounds(Logical(ticked, 1), BACKSPACE, false);
  }

  // ----- reading the line -----

  /** A submitted line as a read of n bytes returns it. */
  function ReadBack(line: seq<Byte>, n: nat): (seq<Byte>, nat) {
    if |line| < n then (line + [NEWLINE] + Zeros(n - |line| - 1), |line| + 1) else (line[..n], n)
  }

  lemma CopiedLine(buffer: seq<Byte>, line: seq<Byte>, n: nat)
    requires n <= |buffer| && |line| < |buffer| && buffer[..|line|] == line && buffer[|line|] == ENTER
    requires forall k | 0 <= k < |line| :: line[k] != ENTER
    ensures Copied(buffer, n) == ReadBack(line, n)
  {
    var j := EnterFrom(buffer, 0, n);
    assert forall k | 0 <= k < |line| :: buffer[k] == line[k];
    if |line| < n {
      assert j == |line|;
    } else {
      assert j == n;
      assert buffer[..n] == line[..n];
    }
  }

  /** A read copies up to the first Enter among the bytes asked for, counts it as a newline and clears the rest; with no
      Enter among them it copies them all. */
  lemma CopiedIs(buffer: seq<Byte>, n: nat, j: nat)
    requires n <= |buffer| && j <= n && forall k | 0 <= k < j :: buffer[k] != 13
    ensures j == n ==> Copied(buffer, n) == (buffer[..n], n)
    ensures j < n && buffer[j] == 13 ==>
      var (bytes, cnt) := Copied(buffer, n);
      && cnt == j + 1 && |bytes| == n && bytes[..j] == buffer[..j] && bytes[j] == 10
      && forall k | j < k < n :: bytes[k] == 0
  {
  }

  /** From Enter to the read nothing touches terminal t's line: no key for it, no read by it. */
  ghost predicate Undisturbed(st: State, es: seq<Event>, t: nat)
    requires Sized(st)
    decreases es
  {
    es == [] ||
    (Delivered(st, es[0], t) == [] && !(es[0].Read? && st.current == t) && Undisturbed(Step(st, es[0]), es[1..], t))
  }

  lemma {:induction false} LineKept(st: State, es: seq<Event>, t: nat)
    requires Sized(st) && t < TERMINALS && Undisturbed(st, es, t)
    ensures Run(st, es).terms[t].buffer == st.terms[t].buffer && Run(st, es).terms[t].enable == st.terms[t].enable
    decreases es
  {
    if es != [] {
      StepLeavesLine(st, es[0], t);
      LineKept(Step(st, es[0]), es[1..], t);
    }
  }

  lemma StepLeavesLine(st: State, e: Event, t: nat)
    requires Sized(st) && t < TERMINALS && Delivered(st, e, t) == [] && !(e.Read? && st.current == t)
    ensures Step(st, e).terms[t].buffer == st.terms[t].buffer && Step(st, e).terms[t].enable == st.terms[t].enable
  {
    hide MeaningOf;
    match e
    case Press(ch) => if t != st.display { KeyTouchesDisplayed(st, ch, t); }
    case _ =>
  }

  /** Enter makes the line readable, and a read after any undisturbed run returns exactly that line. */
  lemma SubmittedIsRead(st: State, ch: Byte, es: seq<Event>, n: nat)
    requires Sized(st) && MeaningOf(st.mods, ch) == Character(ENTER) && Roomy(st, st.display) && n <= BUFFER
    requires Undisturbed(Keyboard(st, ch), es, st.display)
    ensures var d := Run(Keyboard(st, ch), es).terms[st.display];
      d.enable && Copied(d.buffer, n) == ReadBack(Pending(st, st.display), n)
  {
    var t := st.display;
    var line, r := Pending(st, t), Keyboard(st, ch);
    assert r == Typed(st, ENTER);
    assert r.terms[t].enable && r.terms[t].buffer == st.terms[t].buffer[|line| := ENTER];
    LineKept(r, es, t);
    assert r.terms[t].buffer[..|line|] == line;
    CopiedLine(r.terms[t].buffer, line, n);
  }

  /** Type-ahead shares the buffer: one character typed between Enter and the read leaves the line intact exactly if it
      repeats the line's first. An empty line is always lost: the character overwrites the Enter. */
  lemma TypeAheadOverwrites(st: State, c: Byte, n: nat)
    requires Sized(st) && Roomy(st, st.display) && Printable(c) && 0 < n <= BUFFER
    ensures var line := Pending(st, st.display); var ahead := Typed(Typed(st, ENTER), c).terms[st.display];
      Copied(ahead.buffer, n) == ReadBack(line, n) <==> line != [] && c == line[0]
  {
    var t := st.display;
    var line, ahead := Pending(st, t), Typed(Typed(st, ENTER), c).terms[t];
    if line == [] {
      assert ahead.buffer[0] == c && ReadBack(line, n).0[0] == NEWLINE;
      assert Copied(ahead.buffer, n).0[0] == c;
    } else {
      FirstOverwritten(st, c, n);
    }
  }

  lemma FirstOverwritten(st: State, c: Byte, n: nat)
    requires Sized(st) && Roomy(st, st.display) && Pending(st, st.display) != [] && Printable(c) && 0 < n <= BUFFER
    ensures var line := Pending(st, st.display); var ahead := Typed(Typed(st, ENTER), c).terms[st.display];
      Copied(ahead.buffer, n) == ReadBack(line, n) <==> c == line[0]
  {
    var t := st.display;
    var line, ahead := Pending(st, t), Typed(Typed(st, ENTER), c).terms[t];
    var spoilt := line[0 := c];
    assert ahead.buffer == st.terms[t].buffer[|line| := ENTER][0 := c];
    assert ahead.buffer[..|line|] == spoilt;
    CopiedLine(ahead.buffer, spoilt, n);
    assert ReadBack(spoilt, n).0[0] == c && ReadBack(line, n).0[0] == line[0];
    assert c == line[0] ==> spoilt == line;
  }
}
