/** The process and terminal machine as it is meant: three call stacks, scheduled round-robin.
    Kernel.dfy proves that student-distrib/syscall.c and pit.c carry it out on one shared pid table. */
module Processes {
  import opened Common
  import opened CString

  /** A saved kernel stack position (esp, ebp): an opaque token. */
  datatype Frame = Frame(esp: int, ebp: int)

  /** One program being run. `caller` is where its execute was called; a base shell has none. */
  datatype Activation = Activation(pid: int, args: seq<Byte>, caller: Option<Frame>)

  /** stacks[t] is terminal t's call stack, top last; parked[t] is where it was switched away. */
  datatype Machine = Machine(stacks: seq<seq<Activation>>, parked: seq<Frame>, cur: nat)

  /** Where the processor goes next. */
  datatype Control =
    | Return(ret: int)                // back to the system call's caller
    | EnterUser(pid: int)             // first instruction of a fresh program
    | Resume(frame: Frame, ret: int)  // leave/ret on a saved frame

  datatype Event =
    | Tick(here: Frame)
    | Exec(loads: bool, args: seq<Byte>, here: Frame)
    | Halt(status: Byte)

  function Last(s: seq<Activation>): Activation
    requires s != []
  {
    s[|s| - 1]
  }

  function Init(s: seq<Activation>): seq<Activation>
    requires s != []
  {
    s[..|s| - 1]
  }

  function PidsOf(s: seq<Activation>): set<int> {
    if s == [] then {} else PidsOf(Init(s)) + {Last(s).pid}
  }

  function Live(m: Machine): set<int>
    requires |m.stacks| == TERMINALS
  {
    PidsOf(m.stacks[0]) + PidsOf(m.stacks[1]) + PidsOf(m.stacks[2])
  }

  /** The least pid not in use, or -1. */
  function FreeFrom(used: set<int>, p: int): (r: int)
    requires 1 <= p <= MAX_PID + 1
    ensures r == -1 || p <= r <= MAX_PID
    ensures r != -1 ==> r !in used && forall q | p <= q < r :: q in used
    ensures r == -1 ==> forall q | p <= q <= MAX_PID :: q in used
    decreases MAX_PID + 1 - p
  {
    if p == MAX_PID + 1 then -1 else if p !in used then p else FreeFrom(used, p + 1)
  }

  function FreePid(m: Machine): int
    requires |m.stacks| == TERMINALS
  {
    FreeFrom(Live(m), 1)
  }

  /** A call stack: pids in range and never repeated, every program but the base shell called by another. */
  ghost predicate Proper(s: seq<Activation>) {
    s != [] ==>
      && Proper(Init(s))
      && 1 <= Last(s).pid <= MAX_PID && Last(s).pid !in PidsOf(Init(s))
      && (Last(s).caller == None <==> Init(s) == [])
  }

  ghost predicate Shape(m: Machine) {
    && |m.stacks| == TERMINALS && |m.parked| == TERMINALS && m.cur < TERMINALS
    && (forall t | 0 <= t < TERMINALS :: Proper(m.stacks[t]))
  }

  /** Three proper stacks with no pid in common. */
  ghost predicate Sound(m: Machine) {
    Shape(m) && (forall t, u | 0 <= t < u < TERMINALS :: PidsOf(m.stacks[t]) !! PidsOf(m.stacks[u]))
  }

  /** The current terminal has a process; only a process makes system calls. */
  predicate Running(m: Machine)
    requires |m.stacks| == TERMINALS && m.cur < TERMINALS
  {
    m.stacks[m.cur] != []
  }

  ghost predicate AllAlive(m: Machine)
    requires |m.stacks| == TERMINALS
  {
    forall t | 0 <= t < TERMINALS :: m.stacks[t] != []
  }

  function Top(m: Machine): Activation
    requires |m.stacks| == TERMINALS && m.cur < TERMINALS && Running(m)
  {
    Last(m.stacks[m.cur])
  }

  function SetStack(m: Machine, s: seq<Activation>): Machine
    requires m.cur < |m.stacks|
  {
    m.(stacks := m.stacks[m.cur := s])
  }

  /** execute: push an activation, or change nothing. */
  function Execute(m: Machine, loads: bool, args: seq<Byte>, here: Frame): (Machine, Control)
    requires |m.stacks| == TERMINALS && m.cur < TERMINALS
  {
    var p, s := FreePid(m), m.stacks[m.cur];
    if !loads then (m, Return(-1))
    else if p == -1 then (m, Return(0))
    else (SetStack(m, s + [Activation(p, args, if s == [] then None else Some(here))]), EnterUser(p))
  }

  const NOWHERE := Frame(0, 0)

  /** The status byte as the parent's execute returns it. */
  function ReturnValue(status: Byte): int {
    if status == 0xFF then 256 else status
  }

  /** halt: pop, resuming the caller; a base shell is replaced by a new one. */
  function HaltTop(m: Machine, status: Byte): (Machine, Control)
    requires Shape(m) && Running(m)
  {
    var s := m.stacks[m.cur];
    var m' := SetStack(m, Init(s));
    if |s| == 1 then Execute(m', true, [], NOWHERE)
    else (m', Resume(Top(m).caller.value, ReturnValue(status)))
  }

  /** The next terminal, the current one parked. */
  function Switched(m: Machine, here: Frame): Machine
    requires |m.stacks| == TERMINALS == |m.parked| && m.cur < TERMINALS
  {
    Machine(m.stacks, if Running(m) then m.parked[m.cur := here] else m.parked, (m.cur + 1) % TERMINALS)
  }

  /** A timer interrupt: park the current terminal, take up the next, starting its shell if need be. */
  function Switch(m: Machine, here: Frame): (Machine, Control)
    requires Shape(m)
  {
    var m' := Switched(m, here);
    if Running(m') then (m', Resume(m'.parked[m'.cur], 0)) else Execute(m', true, [], NOWHERE)
  }

  /** Only a terminal's process halts. (execute can also be called by a process whose terminal is no longer selected:
      see TickFindsProcess.) */
  predicate Enabled(m: Machine, e: Event)
    requires |m.stacks| == TERMINALS && m.cur < TERMINALS
  {
    e.Halt? ==> Running(m)
  }

  function Step(m: Machine, e: Event): (Machine, Control)
    requires Shape(m) && Enabled(m, e)
  {
    match e
    case Tick(here) => Switch(m, here)
    case Exec(loads, args, here) => Execute(m, loads, args, here)
    case Halt(status) => HaltTop(m, status)
  }

  function Boot(): Machine {
    Machine([[], [], []], [NOWHERE, NOWHERE, NOWHERE], 0)
  }

  // ----- every step -----

  lemma PushProper(s: seq<Activation>, a: Activation)
    requires Proper(s) && 1 <= a.pid <= MAX_PID && a.pid !in PidsOf(s) && (a.caller == None <==> s == [])
    ensures Proper(s + [a]) && PidsOf(s + [a]) == PidsOf(s) + {a.pid}
  {
    assert Init(s + [a]) == s;
  }

  lemma PushKeeps(m: Machine, a: Activation)
    requires Sound(m) && 1 <= a.pid <= MAX_PID && a.pid !in Live(m)
    requires a.caller == None <==> m.stacks[m.cur] == []
    ensures var m' := SetStack(m, m.stacks[m.cur] + [a]); Sound(m') && Live(m') == Live(m) + {a.pid}
  {
    PushProper(m.stacks[m.cur], a);
    if m.cur == 0 {} else if m.cur == 1 {} else {}
  }

  lemma PopKeeps(m: Machine)
    requires Sound(m) && Running(m)
    ensures var s := m.stacks[m.cur]; var m' := SetStack(m, Init(s));
      Sound(m') && Live(m') == Live(m) - {Top(m).pid} && Top(m).pid in Live(m)
  {
    if m.cur == 0 {} else if m.cur == 1 {} else {}
  }

  lemma ExecuteKeeps(m: Machine, loads: bool, args: seq<Byte>, here: Frame)
    requires Sound(m)
    ensures Sound(Execute(m, loads, args, here).0)
    ensures AllAlive(m) ==> AllAlive(Execute(m, loads, args, here).0)
  {
    var p, s := FreePid(m), m.stacks[m.cur];
    if loads && p != -1 {
      PushKeeps(m, Activation(p, args, if s == [] then None else Some(here)));
    }
  }

  /** Restarting a base shell cannot run out of pids: the one it had has just been freed. */
  lemma RestartSucceeds(m: Machine, status: Byte)
    requires Sound(m) && Running(m) && |m.stacks[m.cur]| == 1
    ensures HaltTop(m, status).1.EnterUser?
    ensures |HaltTop(m, status).0.stacks[m.cur]| == 1 && HaltTop(m, status).0.stacks[m.cur][0].caller == None
    ensures forall t | 0 <= t < TERMINALS && t != m.cur :: HaltTop(m, status).0.stacks[t] == m.stacks[t]
  {
    PopKeeps(m);
    var m' := SetStack(m, m.stacks[m.cur][..0]);
    assert Top(m).pid !in Live(m');
  }

  /** Every step keeps the three stacks apart, and leaves no terminal dead once all three are alive. */
  lemma StepKeeps(m: Machine, e: Event)
    requires Sound(m) && Enabled(m, e)
    ensures Sound(Step(m, e).0)
    ensures AllAlive(m) ==> AllAlive(Step(m, e).0)
  {
    match e
    case Tick(here) =>
      assert Sound(Switched(m, here));
      ExecuteKeeps(Switched(m, here), true, [], NOWHERE);
    case Exec(loads, args, here) => ExecuteKeeps(m, loads, args, here);
    case Halt(status) =>
      PopKeeps(m);
      var s := m.stacks[m.cur];
      ExecuteKeeps(SetStack(m, Init(s)), true, [], NOWHERE);
      if |s| == 1 { RestartSucceeds(m, status); }
  }

  // ----- whole runs -----

  /** Every event is one that can happen where it happens. */
  ghost predicate Possible(m: Machine, es: seq<Event>)
    requires Sound(m)
    decreases es
  {
    es == [] || (Enabled(m, es[0]) && (StepKeeps(m, es[0]); Possible(Step(m, es[0]).0, es[1..])))
  }

  ghost function Run(m: Machine, es: seq<Event>): (r: Machine)
    requires Sound(m) && Possible(m, es)
    ensures Sound(r)
    decreases es
  {
    if es == [] then m else StepKeeps(m, es[0]); Run(Step(m, es[0]).0, es[1..])
  }

  function Ticks(es: seq<Event>): nat {
    if es == [] then 0 else (if es[0].Tick? then 1 else 0) + Ticks(es[1..])
  }

  /** Once every terminal has its shell, every later state gives each terminal a live process,
      whatever is executed, halted or interrupted. */
  lemma {:induction false} NoTerminalGoesDead(m: Machine, es: seq<Event>)
    requires Sound(m) && AllAlive(m) && Possible(m, es)
    ensures AllAlive(Run(m, es))
    decreases es
  {
    if es != [] {
      StepKeeps(m, es[0]);
      NoTerminalGoesDead(Step(m, es[0]).0, es[1..]);
    }
  }

  lemma StepSelects(m: Machine, e: Event)
    requires Sound(m) && Enabled(m, e)
    ensures Step(m, e).0.cur == if e.Tick? then (m.cur + 1) % TERMINALS else m.cur
  {
  }

  /** Only ticks move the selection, one terminal at a time: between two selections of a terminal
      each other terminal is selected exactly once. */
  lemma {:induction false} RoundRobin(m: Machine, es: seq<Event>)
    requires Sound(m) && Possible(m, es)
    ensures Run(m, es).cur == (m.cur + Ticks(es)) % TERMINALS
    decreases es
  {
    hide Proper, PidsOf, Step, Enabled;
    if es != [] {
      StepKeeps(m, es[0]);
      StepSelects(m, es[0]);
      RoundRobin(Step(m, es[0]).0, es[1..]);
    }
  }

  /** The first n activations of terminal t stay in place throughout the run. */
  ghost predicate Stays(m: Machine, es: seq<Event>, t: nat, n: nat)
    requires Sound(m) && Possible(m, es) && t < TERMINALS
    decreases es
  {
    && n <= |m.stacks[t]|
    && (es != [] ==>
      // a halt of the n-th activation itself is the only way to lose it
      && !(es[0].Halt? && m.cur == t && |m.stacks[t]| == n)
      && (StepKeeps(m, es[0]); Stays(Step(m, es[0]).0, es[1..], t, n)))
  }

  lemma StepStays(m: Machine, e: Event, t: nat, n: nat)
    requires Sound(m) && Enabled(m, e) && t < TERMINALS && 1 <= n <= |m.stacks[t]|
    requires !(e.Halt? && m.cur == t && |m.stacks[t]| == n)
    ensures var m' := Step(m, e).0; Sound(m') && n <= |m'.stacks[t]| && m'.stacks[t][..n] == m.stacks[t][..n]
  {
    StepKeeps(m, e);
    hide Proper, PidsOf, FreePid, Execute;
    var s, s' := m.stacks[t], Step(m, e).0.stacks[t];
    match e
    case Tick(here) =>
      ExecuteStays(Switched(m, here), true, [], NOWHERE, t);
    case Exec(loads, args, here) =>
      ExecuteStays(m, loads, args, here, t);
    case Halt(status) =>
      if m.cur != t { ExecuteStays(SetStack(m, Init(m.stacks[m.cur])), true, [], NOWHERE, t); }
      assert s' == s || (n < |s| && s' == Init(s));
  }

  lemma ExecuteStays(m: Machine, loads: bool, args: seq<Byte>, here: Frame, t: nat)
    requires |m.stacks| == TERMINALS && m.cur < TERMINALS && t < TERMINALS
    ensures var m' := Execute(m, loads, args, here).0; var s, s' := m.stacks[t], m'.stacks[t];
      (s' == s || (t == m.cur && s' != [] && Init(s') == s)) && m'.parked == m.parked && m'.cur == m.cur
  {
  }

  lemma {:induction false} StaysPut(m: Machine, es: seq<Event>, t: nat, n: nat)
    requires Sound(m) && Possible(m, es) && t < TERMINALS && n >= 1 && Stays(m, es, t, n)
    ensures n <= |Run(m, es).stacks[t]|
    ensures Run(m, es).stacks[t][..n] == m.stacks[t][..n]
    decreases es
  {
    hide Proper, PidsOf, Step, Enabled;
    if es != [] {
      StepStays(m, es[0], t, n);
      StaysPut(Step(m, es[0]).0, es[1..], t, n);
    }
  }

  /** Call and return match: the halt that ends a program resumes exactly where its execute was
      called, whatever ticks, executes, halts and pid reuses happen in between. */
  lemma CallReturn(m: Machine, args: seq<Byte>, here: Frame, mid: seq<Event>, status: Byte)
    requires Sound(m) && Running(m) && FreePid(m) != -1
    requires var called := Step(m, Exec(true, args, here)).0;
      Sound(called) && Possible(called, mid) && Stays(called, mid, m.cur, |m.stacks[m.cur]| + 1)
      && var back := Run(called, mid); back.cur == m.cur && |back.stacks[m.cur]| == |m.stacks[m.cur]| + 1
    ensures var back := Run(Step(m, Exec(true, args, here)).0, mid);
      && Top(back).pid == FreePid(m) && Top(back).args == args
      && Step(back, Halt(status)).1 == Resume(here, if status == 255 then 256 else status)
      && Step(back, Halt(status)).0.stacks[m.cur] == m.stacks[m.cur]
  {
    var called := Step(m, Exec(true, args, here)).0;
    var n := |m.stacks[m.cur]| + 1;
    StaysPut(called, mid, m.cur, n);
    var back := Run(called, mid);
    assert back.stacks[m.cur] == back.stacks[m.cur][..n] == called.stacks[m.cur][..n] == called.stacks[m.cur];
  }

  /** Terminal t is never selected during the run. */
  ghost predicate Away(m: Machine, es: seq<Event>, t: nat)
    requires Sound(m) && Possible(m, es)
    decreases es
  {
    m.cur != t && (es != [] ==> (StepKeeps(m, es[0]); Away(Step(m, es[0]).0, es[1..], t)))
  }

  lemma StepAway(m: Machine, e: Event, t: nat)
    requires Sound(m) && Enabled(m, e) && t < TERMINALS && m.cur != t && Step(m, e).0.cur != t
    ensures var m' := Step(m, e).0; Sound(m') && m'.stacks[t] == m.stacks[t] && m'.parked[t] == m.parked[t]
  {
    StepKeeps(m, e);
    hide Proper, PidsOf, FreePid, Execute;
    match e
    case Tick(here) => ExecuteStays(Switched(m, here), true, [], NOWHERE, t);
    case Exec(loads, args, here) => ExecuteStays(m, loads, args, here, t);
    case Halt(status) => ExecuteStays(SetStack(m, Init(m.stacks[m.cur])), true, [], NOWHERE, t);
  }

  lemma {:induction false} AwayUntouched(m: Machine, es: seq<Event>, t: nat)
    requires Sound(m) && Possible(m, es) && t < TERMINALS && Away(m, es, t)
    ensures Run(m, es).stacks[t] == m.stacks[t] && Run(m, es).parked[t] == m.parked[t]
    decreases es
  {
    hide Proper, PidsOf, Step, Enabled;
    if es != [] {
      StepAway(m, es[0], t);
      AwayUntouched(Step(m, es[0]).0, es[1..], t);
    }
  }

  lemma TickLeaves(m: Machine, here: Frame)
    requires Sound(m) && Running(m)
    ensures var left := Step(m, Tick(here)).0;
      && |left.stacks| == TERMINALS == |left.parked|
      && left.stacks[m.cur] == m.stacks[m.cur] && left.parked[m.cur] == here
  {
  }

  lemma TickTakesUp(m: Machine, there: Frame, t: nat)
    requires Sound(m) && t == (m.cur + 1) % TERMINALS && m.stacks[t] != []
    ensures var r := Step(m, Tick(there));
      r.1 == Resume(m.parked[t], 0) && r.0.cur == t && r.0.stacks == m.stacks
  {
  }

  /** A terminal is taken up again exactly where the tick that switched away from it left it. */
  lemma TickReturn(m: Machine, here: Frame, mid: seq<Event>, there: Frame)
    requires Sound(m) && Running(m)
    requires var left := Step(m, Tick(here)).0;
      && Sound(left) && Possible(left, mid) && Away(left, mid, m.cur)
      && (Run(left, mid).cur + 1) % TERMINALS == m.cur
    ensures var r := Step(Run(Step(m, Tick(here)).0, mid), Tick(there));
      r.1 == Resume(here, 0) && r.0.cur == m.cur && r.0.stacks[m.cur] == m.stacks[m.cur]
  {
    TickLeaves(m, here);
    var left := Step(m, Tick(here)).0;
    AwayUntouched(left, mid, m.cur);
    TickTakesUp(Run(left, mid), there, m.cur);
  }

  // ----- where the code falls short -----

  /** A tick leaves the selected terminal with a process exactly when it has one or a pid is free.
      (After bring-up the first disjunct always holds: NoTerminalGoesDead.) */
  lemma TickFindsProcess(m: Machine, here: Frame)
    requires Sound(m)
    ensures var r := Step(m, Tick(here)).0;
      r.stacks[r.cur] != [] <==> m.stacks[(m.cur + 1) % TERMINALS] != [] || FreePid(m) != -1
  {
    var m' := Machine(m.stacks, m.parked, m.cur);
    assert Live(m') == Live(m);
  }

  /** Programs started one inside the other, n of them, and then a tick. */
  function Greedy(n: nat, f: Frame): seq<Event> {
    if n == 0 then [Tick(f)] else [Exec(true, [], f)] + Greedy(n - 1, f)
  }

  lemma {:induction false} GreedyStarves(m: Machine, f: Frame, k: nat)
    requires Sound(m) && m.cur == 1 && m.stacks[0] == [] && m.stacks[2] == [] && m.stacks[1] != []
    requires k <= MAX_PID && forall p :: p in PidsOf(m.stacks[1]) <==> 1 <= p <= k
    ensures Possible(m, Greedy(MAX_PID - k, f)) && !Running(Run(m, Greedy(MAX_PID - k, f)))
    decreases MAX_PID - k
  {
    var es := Greedy(MAX_PID - k, f);
    StepKeeps(m, es[0]);
    var m' := Step(m, es[0]).0;
    if k < MAX_PID {
      assert FreePid(m) == k + 1;
      PushProper(m.stacks[1], Activation(k + 1, [], Some(f)));
      assert es[1..] == Greedy(MAX_PID - (k + 1), f);
      GreedyStarves(m', f, k + 1);
    } else {
      assert FreePid(m) == -1;
      TickFindsProcess(m, f);
      assert es[1..] == [] && Run(m, es) == Run(m', []) == m';
    }
  }

  /** During bring-up it can fail: if the first terminal to get its shell starts five programs before
      the next tick, the tick selects a terminal that has no process and gets none. */
  lemma BringUpCanFail(f: Frame)
    ensures var es := [Tick(f)] + Greedy(5, f);
      Sound(Boot()) && Possible(Boot(), es) && !Running(Run(Boot(), es))
  {
    var es := [Tick(f)] + Greedy(5, f);
    assert FreePid(Boot()) == 1;
    StepKeeps(Boot(), Tick(f));
    var m := Step(Boot(), Tick(f)).0;
    assert m.stacks[1] == [Activation(1, [], None)] && Init(m.stacks[1]) == [];
    assert es[1..] == Greedy(5, f);
    GreedyStarves(m, f, 1);
  }
}
