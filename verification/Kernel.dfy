/** execute, halt, process_switch and the pid table of student-distrib/syscall.c, and the timer
    interrupt of student-distrib/pit.c, proved to carry out the three call stacks of Processes.dfy. */
module Kernel {
  import opened Common
  import opened CString
  import opened Command
  import opened Loader
  import Descriptors
  import Directory
  import opened Processes

  const KERNEL_STACK_BOTTOM := 0x80_0000
  const PROCESS_STACK_SIZE := 0x2000
  const FENCE := 4
  const PDE_ST := 2
  const EXEC_FAIL := -1
  const SHELL: seq<Byte> := [115, 104, 101, 108, 108]

  function PcbAddress(pid: int): int { KERNEL_STACK_BOTTOM - PROCESS_STACK_SIZE * pid }

  function StackTop(pid: int): int { KERNEL_STACK_BOTTOM - (pid - 1) * PROCESS_STACK_SIZE - FENCE }

  /** The part of a process control block that control flow depends on. */
  datatype Pcb = Pcb(pid: int, parPid: int, savedEsp: int, savedEbp: int, esp0: int, active: bool,
                     args: seq<Byte>, name: seq<Byte>, files: Descriptors.Files, vidmap: bool)

  function FrameOf(p: Pcb): Frame { Frame(p.savedEsp, p.savedEbp) }

  function RunningOf(s: seq<Activation>): int { if s == [] then -1 else Last(s).pid }

  /** The control blocks, followed by parent links from the top, spell the call stack s: each link goes
      to the caller, and each caller's saved frame is where it called. */
  ghost predicate Linked(s: seq<Activation>, pcbs: seq<Pcb>)
    requires |pcbs| == MAX_PID + 1
  {
    s != [] ==>
      var a, r := Last(s), Init(s);
      && Linked(r, pcbs) && 1 <= a.pid <= MAX_PID
      && pcbs[a.pid].pid == a.pid
      && pcbs[a.pid].parPid == RunningOf(r)
      && pcbs[a.pid].esp0 == StackTop(a.pid)
      && |a.args| < MAX_ARG_LENGTH && NulFree(a.args)
      && pcbs[a.pid].args == Padded(a.args, MAX_ARG_LENGTH)
      && (r != [] ==> 1 <= Last(r).pid <= MAX_PID && a.caller == Some(FrameOf(pcbs[Last(r).pid])))
  }

  /** Writing one control block disturbs only the stacks it belongs to. */
  lemma {:induction false} LinkedFrame(s: seq<Activation>, pcbs: seq<Pcb>, p: int, b: Pcb)
    requires |pcbs| == MAX_PID + 1 && 1 <= p <= MAX_PID && Linked(s, pcbs)
    requires p !in PidsOf(s)
    ensures Linked(s, pcbs[p := b])
  {
    if s != [] {
      LinkedFrame(Init(s), pcbs, p, b);
    }
  }

  /** Saving a frame in the top process, the only thing process_switch does to a stack, keeps it linked. */
  lemma LinkedSave(s: seq<Activation>, pcbs: seq<Pcb>, b: Pcb)
    requires Proper(s) && |pcbs| == MAX_PID + 1 && Linked(s, pcbs) && s != []
    requires var o := pcbs[Last(s).pid]; b == o.(savedEsp := b.savedEsp, savedEbp := b.savedEbp)
    ensures Linked(s, pcbs[Last(s).pid := b])
  {
    LinkedFrame(Init(s), pcbs, Last(s).pid, b);
  }

  /** Distinct processes have disjoint 8 KB regions, and each kernel stack starts inside its own. */
  lemma RegionsDisjoint(p: int, q: int)
    requires 1 <= p < q <= MAX_PID
    ensures PcbAddress(q) + PROCESS_STACK_SIZE <= PcbAddress(p)
    ensures PcbAddress(p) == 0x80_0000 - 0x2000 * p && StackTop(p) == PcbAddress(p) + 0x2000 - 4
  {
  }

  /** The walk along parent links that the source never performs but relies on. */
  function Chain(pcbs: seq<Pcb>, pid: int, fuel: nat): seq<int>
    requires |pcbs| == MAX_PID + 1
    decreases fuel
  {
    if fuel == 0 || !(1 <= pid <= MAX_PID) then [] else Chain(pcbs, pcbs[pid].parPid, fuel - 1) + [pid]
  }

  function PidSeq(s: seq<Activation>): seq<int> {
    seq(|s|, i requires 0 <= i < |s| => s[i].pid)
  }

  /** From a terminal's running_pid the links reach -1 through exactly the pids of its stack. */
  lemma {:induction false} ChainIsStack(s: seq<Activation>, pcbs: seq<Pcb>, fuel: nat)
    requires |pcbs| == MAX_PID + 1 && Linked(s, pcbs) && fuel >= |s|
    ensures Chain(pcbs, RunningOf(s), fuel) == PidSeq(s)
    decreases s
  {
    if s != [] {
      ChainIsStack(Init(s), pcbs, fuel - 1);
    }
  }

  /** The values of the kernel's variables. */
  datatype Snapshot = Snapshot(pidSt: seq<int>, pidCnt: int, pcbs: seq<Pcb>, running: seq<int>, cur: nat,
                               userFrame: int, esp0: int)

  /** pid_st marks exactly the live pids, and pid_cnt counts them. */
  ghost predicate Marks(pidSt: seq<int>, pidCnt: int, live: set<int>) {
    && |pidSt| == MAX_PID && pidCnt == |live|
    && (forall p | 1 <= p <= MAX_PID :: pidSt[p - 1] == if p in live then 1 else 0)
  }

  /** A terminal's running_pid and links spell its stack. */
  ghost predicate Spells(running: int, pcbs: seq<Pcb>, s: seq<Activation>)
    requires |pcbs| == MAX_PID + 1
  {
    running == RunningOf(s) && Linked(s, pcbs)
  }

  ghost predicate Links(running: seq<int>, pcbs: seq<Pcb>, m: Machine) {
    && |running| == TERMINALS && |pcbs| == MAX_PID + 1 && |m.stacks| == TERMINALS
    && (forall t | 0 <= t < TERMINALS :: Spells(running[t], pcbs, m.stacks[t]))
  }

  /** A terminal that is not current is parked where its process's control block says. */
  ghost predicate Parks(running: seq<int>, pcbs: seq<Pcb>, m: Machine) {
    && |running| == TERMINALS && |m.parked| == TERMINALS
    && (forall t | 0 <= t < TERMINALS && t != m.cur && 0 <= running[t] < |pcbs| ::
         FrameOf(pcbs[running[t]]) == m.parked[t])
  }

  /** The user page and the kernel stack are those of the current terminal's process. */
  ghost predicate Context(running: int, userFrame: int, esp0: int) {
    running != -1 ==> userFrame == running + 1 && esp0 == StackTop(running)
  }

  ghost predicate Agrees(k: Snapshot, m: Machine) {
    && Sound(m) && k.cur == m.cur
    && Marks(k.pidSt, k.pidCnt, Live(m)) && Links(k.running, k.pcbs, m) && Parks(k.running, k.pcbs, m)
    && Context(k.running[k.cur], k.userFrame, k.esp0)
  }

  function SetUpPcbs(pcbs: seq<Pcb>, pid: int, par: int, args: seq<Byte>, name: seq<Byte>, here: Frame): (r: seq<Pcb>)
    requires |pcbs| == MAX_PID + 1 && 1 <= pid <= MAX_PID && par != pid && (par == -1 || 1 <= par <= MAX_PID)
    ensures |r| == |pcbs|
  {
    var b := pcbs[pid];
    var spawned := pcbs[pid := Pcb(pid, par, b.savedEsp, b.savedEbp, StackTop(pid), true, args, name,
                                   Descriptors.Started(b.files), false)];
    if par == -1 then spawned else Saved(spawned, par, here)
  }

  lemma RunningIsLive(m: Machine)
    requires Sound(m)
    ensures Running(m) ==> Top(m).pid in Live(m) && 1 <= Top(m).pid <= MAX_PID
    ensures Running(m) ==> forall t | 0 <= t < TERMINALS && t != m.cur :: Top(m).pid !in PidsOf(m.stacks[t])
  {
    if m.cur == 0 {} else if m.cur == 1 {} else {}
  }

  /** The control blocks after execute: the new program linked to its caller, whose frame is saved. */
  lemma SetUpLinks(m: Machine, a: Activation, pcbs: seq<Pcb>, name: seq<Byte>, here: Frame)
    requires Sound(m) && |pcbs| == MAX_PID + 1 && forall t | 0 <= t < TERMINALS :: Linked(m.stacks[t], pcbs)
    requires 1 <= a.pid <= MAX_PID && a.pid !in Live(m) && |a.args| < MAX_ARG_LENGTH && NulFree(a.args)
    requires a.caller == if Running(m) then Some(here) else None
    ensures RunningOf(m.stacks[m.cur]) != a.pid && (Running(m) ==> 1 <= Top(m).pid <= MAX_PID)
    ensures var s := m.stacks[m.cur];
      var after := SetUpPcbs(pcbs, a.pid, RunningOf(s), Padded(a.args, MAX_ARG_LENGTH), name, here);
      && Proper(s + [a]) && Linked(s + [a], after)
      && forall t | 0 <= t < TERMINALS && t != m.cur :: Linked(m.stacks[t], after)
  {
    hide Proper, PidsOf, Linked, Sound;
    ProperStacks(m, a.pid);
    var s := m.stacks[m.cur];
    RunningIsLive(m);
    PushProper(s, a);
    var args := Padded(a.args, MAX_ARG_LENGTH);
    var after := SetUpPcbs(pcbs, a.pid, RunningOf(s), args, name, here);
    var b := pcbs[a.pid];
    var mid := pcbs[a.pid := Pcb(a.pid, RunningOf(s), b.savedEsp, b.savedEbp, StackTop(a.pid), true, args, name,
                                 Descriptors.Started(b.files), false)];
    forall t | 0 <= t < TERMINALS ensures Linked(m.stacks[t], mid) {
      LinkedFrame(m.stacks[t], pcbs, a.pid, mid[a.pid]);
    }
    if s != [] {
      SaveLinks(m, mid, here);
    }
    PushLinked(s, a, after, here);
  }

  lemma ProperStacks(m: Machine, p: int)
    requires Sound(m) && p !in Live(m)
    ensures |m.stacks| == TERMINALS && m.cur < TERMINALS
    ensures forall t | 0 <= t < TERMINALS :: Proper(m.stacks[t]) && p !in PidsOf(m.stacks[t])
    ensures Running(m) ==> Top(m).pid != p
  {
    hide Proper;
    if Running(m) { RunningApart(m, m.cur, m.cur); }
  }

  /** A new top whose control block links to the old one. */
  lemma PushLinked(s: seq<Activation>, a: Activation, pcbs: seq<Pcb>, here: Frame)
    requires |pcbs| == MAX_PID + 1 && Linked(s, pcbs) && 1 <= a.pid <= MAX_PID
    requires |a.args| < MAX_ARG_LENGTH && NulFree(a.args)
    requires var b := pcbs[a.pid];
      && b.pid == a.pid && b.parPid == RunningOf(s) && b.esp0 == StackTop(a.pid)
      && b.args == Padded(a.args, MAX_ARG_LENGTH)
    requires s != [] ==> 1 <= Last(s).pid <= MAX_PID && a.caller == Some(here) && FrameOf(pcbs[Last(s).pid]) == here
    ensures Linked(s + [a], pcbs)
  {
    assert Init(s + [a]) == s && Last(s + [a]) == a;
  }

  function Saved(pcbs: seq<Pcb>, p: int, here: Frame): (r: seq<Pcb>)
    requires 0 <= p < |pcbs|
    ensures |r| == |pcbs|
  {
    pcbs[p := pcbs[p].(savedEsp := here.esp, savedEbp := here.ebp)]
  }

  /** Saving the current process's frame keeps all three stacks linked. */
  lemma SaveLinks(m: Machine, pcbs: seq<Pcb>, here: Frame)
    requires Sound(m) && |pcbs| == MAX_PID + 1 && forall t | 0 <= t < TERMINALS :: Linked(m.stacks[t], pcbs)
    requires Running(m)
    ensures 1 <= Top(m).pid <= MAX_PID
    ensures forall t | 0 <= t < TERMINALS :: Linked(m.stacks[t], Saved(pcbs, Top(m).pid, here))
  {
    var p := Top(m).pid;
    var b := pcbs[p].(savedEsp := here.esp, savedEbp := here.ebp);
    forall t | 0 <= t < TERMINALS ensures Linked(m.stacks[t], Saved(pcbs, p, here)) {
      if t == m.cur {
        LinkedSave(m.stacks[t], pcbs, b);
      } else {
        assert p !in PidsOf(m.stacks[t]);
        LinkedFrame(m.stacks[t], pcbs, p, b);
      }
    }
  }

  /** A running process is in its own terminal's stack and in no other. */
  lemma RunningApart(m: Machine, t: nat, u: nat)
    requires Sound(m) && t < TERMINALS && u < TERMINALS && m.stacks[t] != []
    ensures 1 <= RunningOf(m.stacks[t]) <= MAX_PID && RunningOf(m.stacks[t]) in Live(m)
    ensures t != u ==>
      RunningOf(m.stacks[t]) != RunningOf(m.stacks[u]) && RunningOf(m.stacks[t]) !in PidsOf(m.stacks[u])
  {
    if t == 0 {} else if t == 1 {} else {}
    assert t != u ==> PidsOf(m.stacks[t]) !! PidsOf(m.stacks[u]) by {
      if t < u {} else {}
    }
  }

  lemma ParksApart(running: seq<int>, pcbs: seq<Pcb>, after: seq<Pcb>, m: Machine)
    requires Sound(m) && |pcbs| == |after| == MAX_PID + 1 && Links(running, pcbs, m) && Parks(running, pcbs, m)
    requires forall p | 1 <= p <= MAX_PID && p in Live(m) && p != running[m.cur] ::
      FrameOf(after[p]) == FrameOf(pcbs[p])
    ensures Parks(running, after, m)
  {
    forall t | 0 <= t < TERMINALS && t != m.cur && 0 <= running[t] < |pcbs|
      ensures FrameOf(after[running[t]]) == m.parked[t]
    {
      RunningApart(m, t, m.cur);
    }
  }

  /** The new activation's pid and the current terminal's are two different pids. */
  lemma SetUpParks(k: Snapshot, m: Machine, a: Activation, name: seq<Byte>, here: Frame)
    requires Agrees(k, m) && 1 <= a.pid <= MAX_PID && a.pid !in Live(m) && |a.args| < MAX_ARG_LENGTH
    ensures k.running[k.cur] != a.pid && (k.running[k.cur] == -1 || 1 <= k.running[k.cur] <= MAX_PID)
    ensures Parks(k.running, SetUpPcbs(k.pcbs, a.pid, k.running[k.cur], Padded(a.args, MAX_ARG_LENGTH), name, here), m)
  {
    RunningIsLive(m);
    var after := SetUpPcbs(k.pcbs, a.pid, k.running[k.cur], Padded(a.args, MAX_ARG_LENGTH), name, here);
    ParksApart(k.running, k.pcbs, after, m);
  }

  lemma MarksAdd(pidSt: seq<int>, pidCnt: int, live: set<int>, p: int)
    requires Marks(pidSt, pidCnt, live) && 1 <= p <= MAX_PID && p !in live
    ensures Marks(pidSt[p - 1 := 1], pidCnt + 1, live + {p})
  {
    assert |live + {p}| == |live| + 1;
  }

  lemma MarksRemove(pidSt: seq<int>, pidCnt: int, live: set<int>, p: int)
    requires Marks(pidSt, pidCnt, live) && 1 <= p <= MAX_PID && p in live
    ensures Marks(pidSt[p - 1 := 0], pidCnt - 1, live - {p})
  {
    assert |live - {p}| == |live| - 1;
  }

  lemma Bounds(m: Machine)
    requires Sound(m)
    ensures |m.stacks| == TERMINALS == |m.parked| && m.cur < TERMINALS
  {
  }

  lemma ExecuteLinks(k: Snapshot, m: Machine, a: Activation, name: seq<Byte>, here: Frame)
    requires Agrees(k, m)
    requires 1 <= a.pid <= MAX_PID && a.pid !in Live(m) && |a.args| < MAX_ARG_LENGTH && NulFree(a.args)
    requires a.caller == if Running(m) then Some(here) else None
    requires k.running[k.cur] != a.pid && (k.running[k.cur] == -1 || 1 <= k.running[k.cur] <= MAX_PID)
    ensures Links(k.running[k.cur := a.pid],
                  SetUpPcbs(k.pcbs, a.pid, k.running[k.cur], Padded(a.args, MAX_ARG_LENGTH), name, here),
                  SetStack(m, m.stacks[m.cur] + [a]))
  {
    SetUpLinks(m, a, k.pcbs, name, here);
    var after := SetUpPcbs(k.pcbs, a.pid, k.running[k.cur], Padded(a.args, MAX_ARG_LENGTH), name, here);
    assert Spells(a.pid, after, m.stacks[m.cur] + [a]);
    forall t | 0 <= t < TERMINALS && t != m.cur ensures Spells(k.running[t], after, m.stacks[t]) {
      assert Spells(k.running[t], k.pcbs, m.stacks[t]);
    }
    hide Sound, Spells, Linked, SetUpPcbs, Proper, PidsOf;
  }

  lemma ExecuteParks(k: Snapshot, m: Machine, a: Activation, name: seq<Byte>, here: Frame)
    requires Agrees(k, m) && 1 <= a.pid <= MAX_PID && a.pid !in Live(m) && |a.args| < MAX_ARG_LENGTH
    requires k.running[k.cur] != a.pid && (k.running[k.cur] == -1 || 1 <= k.running[k.cur] <= MAX_PID)
    ensures Parks(k.running[k.cur := a.pid],
                  SetUpPcbs(k.pcbs, a.pid, k.running[k.cur], Padded(a.args, MAX_ARG_LENGTH), name, here),
                  SetStack(m, m.stacks[m.cur] + [a]))
  {
    SetUpParks(k, m, a, name, here);
    hide Sound, Links, Marks, SetUpPcbs;
  }

  /** execute's changes carry out a push. */
  lemma ExecuteAgrees(k: Snapshot, m: Machine, a: Activation, name: seq<Byte>, here: Frame)
    requires Agrees(k, m)
    requires 1 <= a.pid <= MAX_PID && a.pid !in Live(m) && |a.args| < MAX_ARG_LENGTH && NulFree(a.args)
    requires a.caller == if Running(m) then Some(here) else None
    ensures k.running[k.cur] != a.pid && (k.running[k.cur] == -1 || 1 <= k.running[k.cur] <= MAX_PID)
    ensures Agrees(
      Snapshot(k.pidSt[a.pid - 1 := 1], k.pidCnt + 1,
               SetUpPcbs(k.pcbs, a.pid, k.running[k.cur], Padded(a.args, MAX_ARG_LENGTH), name, here),
               k.running[k.cur := a.pid], k.cur, a.pid + 1, StackTop(a.pid)),
      SetStack(m, m.stacks[m.cur] + [a]))
  {
    hide Sound, Links, Marks, SetUpPcbs, Parks, Live;
    Bounds(m);
    SetUpParks(k, m, a, name, here);
    PushKeeps(m, a);
    MarksAdd(k.pidSt, k.pidCnt, Live(m), a.pid);
    ExecuteLinks(k, m, a, name, here);
    ExecuteParks(k, m, a, name, here);
  }

  lemma ArgsStored(k: Snapshot, m: Machine)
    requires Agrees(k, m) && Running(m)
    ensures 1 <= k.running[k.cur] <= MAX_PID
    ensures var stored, a := k.pcbs[k.running[k.cur]].args, Top(m).args;
      && |stored| == MAX_ARG_LENGTH && NUL in stored && StrLen(stored) == |a| && stored[..|a|] == a
  {
    RunningApart(m, m.cur, m.cur);
    var stored, a := k.pcbs[k.running[k.cur]].args, Top(m).args;
    assert stored[|a|] == NUL && stored[..|a|] == a;
    StrLenUnique(stored, |a|);
  }

  /** A stack's top process keeps its own kernel stack top; a terminal not current is parked there. */
  lemma TopFacts(k: Snapshot, m: Machine, t: nat)
    requires Agrees(k, m) && t < TERMINALS && m.stacks[t] != []
    ensures 1 <= k.running[t] <= MAX_PID && k.pcbs[k.running[t]].esp0 == StackTop(k.running[t])
    ensures t != m.cur ==> FrameOf(k.pcbs[k.running[t]]) == m.parked[t]
  {
    RunningApart(m, t, t);
  }

  lemma PopLinks(k: Snapshot, m: Machine)
    requires Agrees(k, m) && Running(m)
    ensures 1 <= Top(m).pid <= MAX_PID && k.running[k.cur] == Top(m).pid
    ensures var b := k.pcbs[Top(m).pid];
      && b.pid == Top(m).pid
      && b.parPid == RunningOf(Init(m.stacks[m.cur]))
      && (b.parPid == -1 <==> |m.stacks[m.cur]| == 1)
      && (b.parPid != -1 ==> 1 <= b.parPid <= MAX_PID && Top(m).caller == Some(FrameOf(k.pcbs[b.parPid])))
  {
    assert Proper(m.stacks[m.cur]) && Proper(Init(m.stacks[m.cur]));
  }

  lemma PopAgreesLinks(running: seq<int>, pcbs: seq<Pcb>, m: Machine)
    requires Links(running, pcbs, m) && Parks(running, pcbs, m)
    requires m.cur < TERMINALS && m.stacks[m.cur] != []
    ensures var m' := SetStack(m, Init(m.stacks[m.cur]));
      var running' := running[m.cur := RunningOf(Init(m.stacks[m.cur]))];
      Links(running', pcbs, m') && Parks(running', pcbs, m')
  {
    assert Spells(running[m.cur], pcbs, m.stacks[m.cur]);
    assert Spells(RunningOf(Init(m.stacks[m.cur])), pcbs, Init(m.stacks[m.cur]));
  }

  /** free_pid and running_pid = par_pid, with paging and tss following, carry out a pop. */
  lemma PopAgrees(k: Snapshot, m: Machine, frame: int, esp0: int)
    requires Agrees(k, m) && Running(m)
    requires Context(RunningOf(Init(m.stacks[m.cur])), frame, esp0)
    ensures 1 <= Top(m).pid <= MAX_PID
    ensures Agrees(
      Snapshot(k.pidSt[Top(m).pid - 1 := 0], k.pidCnt - 1, k.pcbs,
               k.running[k.cur := RunningOf(Init(m.stacks[m.cur]))], k.cur, frame, esp0),
      SetStack(m, Init(m.stacks[m.cur])))
  {
    hide Sound, Marks, Parks, Live;
    Bounds(m);
    PopKeeps(m);
    RunningIsLive(m);
    MarksRemove(k.pidSt, k.pidCnt, Live(m), Top(m).pid);
    PopAgreesLinks(k.running, k.pcbs, m);
  }

  lemma ParkLinks(k: Snapshot, m: Machine, here: Frame)
    requires Agrees(k, m) && Running(m)
    ensures 1 <= Top(m).pid <= MAX_PID && k.running[m.cur] == Top(m).pid
    ensures Links(k.running, Saved(k.pcbs, Top(m).pid, here), m) && Parks(k.running, Saved(k.pcbs, Top(m).pid, here), m)
  {
    RunningIsLive(m);
    SaveLinks(m, k.pcbs, here);
    var pcbs := Saved(k.pcbs, Top(m).pid, here);
    forall t | 0 <= t < TERMINALS ensures Spells(k.running[t], pcbs, m.stacks[t]) {
      assert Spells(k.running[t], k.pcbs, m.stacks[t]);
    }
    ParksApart(k.running, k.pcbs, pcbs, m);
  }

  /** Moving the selection on, with the frame left behind recorded. */
  lemma ParksMoves(running: seq<int>, pcbs: seq<Pcb>, m: Machine, parked: seq<Frame>, next: nat)
    requires Links(running, pcbs, m) && Parks(running, pcbs, m) && m.cur < TERMINALS && next < TERMINALS
    requires running[m.cur] == -1 || (1 <= running[m.cur] <= MAX_PID && RunningOf(m.stacks[m.cur]) == running[m.cur])
    requires parked == if running[m.cur] == -1 then m.parked else m.parked[m.cur := FrameOf(pcbs[running[m.cur]])]
    ensures var m' := Machine(m.stacks, parked, next); Links(running, pcbs, m') && Parks(running, pcbs, m')
  {
    hide Spells;
  }

  lemma SoundMoves(m: Machine, parked: seq<Frame>, next: nat)
    requires Sound(m) && |parked| == TERMINALS && next < TERMINALS
    ensures var m' := Machine(m.stacks, parked, next); Sound(m') && Live(m') == Live(m)
  {
  }

  lemma LinksTop(running: seq<int>, pcbs: seq<Pcb>, m: Machine, t: nat)
    requires Links(running, pcbs, m) && t < TERMINALS
    ensures running[t] == RunningOf(m.stacks[t])
  {
    assert Spells(running[t], pcbs, m.stacks[t]);
  }

  ghost function SavedTop(pcbs: seq<Pcb>, m: Machine, here: Frame): (r: seq<Pcb>)
    requires Sound(m) && |pcbs| == MAX_PID + 1
    ensures |r| == |pcbs|
  {
    RunningIsLive(m);
    if Running(m) then Saved(pcbs, Top(m).pid, here) else pcbs
  }

  /** process_switch's saving of the frame parks the current terminal. */
  lemma ParkAgrees(k: Snapshot, m: Machine, here: Frame, frame: int, esp0: int)
    requires Agrees(k, m) && Context(RunningOf(m.stacks[(m.cur + 1) % TERMINALS]), frame, esp0)
    ensures var next := (m.cur + 1) % TERMINALS;
      Agrees(Snapshot(k.pidSt, k.pidCnt, SavedTop(k.pcbs, m, here), k.running, next, frame, esp0), Switched(m, here))
  {
    hide Sound, Marks, Live, Parks;
    Bounds(m);
    var next := (m.cur + 1) % TERMINALS;
    LinksTop(k.running, k.pcbs, m, next);
    LinksTop(k.running, k.pcbs, m, m.cur);
    if Running(m) { ParkLinks(k, m, here); } else { assert k.running[m.cur] == -1; }
    SoundMoves(m, Switched(m, here).parked, next);
    ParksMoves(k.running, SavedTop(k.pcbs, m, here), m, Switched(m, here).parked, next);
  }

  // ----- the handlers as functions of the kernel's variables -----

  /** What keeps the handlers' array accesses in range and apart; every state of a run has it. */
  ghost predicate Ready(k: Snapshot) {
    && |k.pidSt| == MAX_PID && |k.pcbs| == MAX_PID + 1 && |k.running| == TERMINALS && k.cur < TERMINALS
    && (forall t | 0 <= t < TERMINALS && k.running[t] != -1 ::
         && 1 <= k.running[t] <= MAX_PID && k.pidSt[k.running[t] - 1] == 1
         && k.pcbs[k.running[t]].pid == k.running[t]
         && (k.pcbs[k.running[t]].parPid == -1 || 1 <= k.pcbs[k.running[t]].parPid <= MAX_PID))
    && (forall t, u | 0 <= t < u < TERMINALS && k.running[t] != -1 :: k.running[t] != k.running[u])
  }

  function FreeSlot(pidSt: seq<int>, i: nat): (r: int)
    requires i <= |pidSt|
    ensures r == -1 || i <= r < |pidSt|
    ensures r != -1 ==> pidSt[r] == 0 && forall j | i <= j < r :: pidSt[j] != 0
    ensures r == -1 ==> forall j | i <= j < |pidSt| :: pidSt[j] != 0
    decreases |pidSt| - i
  {
    if i == |pidSt| then -1 else if pidSt[i] == 0 then i else FreeSlot(pidSt, i + 1)
  }

  ghost function Spawned(k: Snapshot, pid: int, args: seq<Byte>, name: seq<Byte>, here: Frame): Snapshot
    requires Ready(k) && 1 <= pid <= MAX_PID && k.running[k.cur] != pid
  {
    Snapshot(k.pidSt[pid - 1 := 1], k.pidCnt + 1, SetUpPcbs(k.pcbs, pid, k.running[k.cur], args, name, here),
             k.running[k.cur := pid], k.cur, PDE_ST + pid - 1, StackTop(pid))
  }

  ghost function ExecuteK(loads: seq<Byte> -> bool, k: Snapshot, command: seq<Byte>, here: Frame): (Snapshot, Control)
    requires Ready(k)
  {
    var name, args := Padded(NameOf(command), FILE_NAME), Padded(ArgsOf(command), MAX_ARG_LENGTH);
    var slot := FreeSlot(k.pidSt, 0);
    if !loads(name) then (k, Return(EXEC_FAIL))
    else if slot == -1 then (k, Return(0))
    else (Spawned(k, slot + 1, args, name, here), EnterUser(slot + 1))
  }

  /** The halting process's pid freed, its files closed and its caller made the running process. */
  ghost function Freed(k: Snapshot): Snapshot
    requires Ready(k) && k.running[k.cur] != -1
  {
    var pid := k.running[k.cur];
    var b := k.pcbs[pid];
    k.(pidSt := k.pidSt[pid - 1 := 0], pidCnt := k.pidCnt - 1, running := k.running[k.cur := b.parPid],
       pcbs := k.pcbs[pid := b.(files := Descriptors.ClosedFrom(b.name, b.files, Descriptors.REAL_FILE))])
  }

  ghost function HaltK(loads: seq<Byte> -> bool, k: Snapshot, status: Byte): (Snapshot, Control)
    requires Ready(k) && k.running[k.cur] != -1
  {
    var par := k.pcbs[k.running[k.cur]].parPid;
    if par == -1 then ExecuteK(loads, Freed(k), SHELL, NOWHERE)
    else
      (Freed(k).(userFrame := PDE_ST + par - 1, esp0 := StackTop(par)),
       Resume(FrameOf(k.pcbs[par]), ReturnValue(status)))
  }

  ghost function Parked(k: Snapshot, here: Frame): Snapshot
    requires Ready(k)
  {
    var p, next := k.running[k.cur], (k.cur + 1) % TERMINALS;
    if p == -1 then k.(cur := next)
    else k.(cur := next, pcbs := k.pcbs[p := k.pcbs[p].(savedEsp := here.esp, savedEbp := here.ebp, esp0 := k.esp0)])
  }

  ghost function SwitchK(loads: seq<Byte> -> bool, k: Snapshot, here: Frame): (Snapshot, Control)
    requires Ready(k)
  {
    var parked := Parked(k, here);
    var q := parked.running[parked.cur];
    if q == -1 then ExecuteK(loads, parked, SHELL, NOWHERE)
    else (parked.(userFrame := PDE_ST + q - 1, esp0 := parked.pcbs[q].esp0), Resume(FrameOf(parked.pcbs[q]), 0))
  }

  // ----- the handlers refine the three stacks -----

  lemma {:induction false} LinkedMember(s: seq<Activation>, pcbs: seq<Pcb>)
    requires |pcbs| == MAX_PID + 1 && Linked(s, pcbs) && s != []
    ensures 1 <= Last(s).pid <= MAX_PID && pcbs[Last(s).pid].pid == Last(s).pid
    ensures pcbs[Last(s).pid].parPid == -1 || 1 <= pcbs[Last(s).pid].parPid <= MAX_PID
  {
  }

  lemma AgreesReady(k: Snapshot, m: Machine)
    requires Agrees(k, m)
    ensures Ready(k) && k.cur == m.cur && k.running[k.cur] == RunningOf(m.stacks[m.cur])
    ensures FreeSlot(k.pidSt, 0) == (if FreePid(m) == -1 then -1 else FreePid(m) - 1)
  {
    Bounds(m);
    forall t | 0 <= t < TERMINALS ensures k.running[t] == RunningOf(m.stacks[t]) {
      LinksTop(k.running, k.pcbs, m, t);
    }
    forall t, u | 0 <= t < TERMINALS && 0 <= u < TERMINALS && k.running[t] != -1
      ensures 1 <= k.running[t] <= MAX_PID && k.running[t] in Live(m) && k.pcbs[k.running[t]].pid == k.running[t]
      ensures k.pcbs[k.running[t]].parPid == -1 || 1 <= k.pcbs[k.running[t]].parPid <= MAX_PID
      ensures t < u ==> k.running[t] != k.running[u]
    {
      RunningApart(m, t, u);
      assert Spells(k.running[t], k.pcbs, m.stacks[t]);
      LinkedMember(m.stacks[t], k.pcbs);
    }
    SlotIsPid(k.pidSt, Live(m), 0);
  }

  /** The scan of pid_st finds the least pid that is not live. */
  lemma {:induction false} SlotIsPid(pidSt: seq<int>, live: set<int>, i: nat)
    requires |pidSt| == MAX_PID && i <= MAX_PID
    requires forall p | 1 <= p <= MAX_PID :: pidSt[p - 1] == if p in live then 1 else 0
    ensures FreeSlot(pidSt, i) == (if FreeFrom(live, i + 1) == -1 then -1 else FreeFrom(live, i + 1) - 1)
    decreases MAX_PID - i
  {
    if i < MAX_PID {
      assert pidSt[(i + 1) - 1] == if i + 1 in live then 1 else 0;
      SlotIsPid(pidSt, live, i + 1);
    }
  }

  /** execute refines Execute. */
  lemma ExecuteRefines(loads: seq<Byte> -> bool, k: Snapshot, m: Machine, command: seq<Byte>, here: Frame)
    requires Agrees(k, m) && NulFree(command)
    ensures Ready(k)
    ensures var ok := loads(Padded(NameOf(command), FILE_NAME));
      var (k', ctl) := ExecuteK(loads, k, command, here); var (m', ctl') := Execute(m, ok, ArgsOf(command), here);
      Agrees(k', m') && ctl == ctl'
  {
    hide Marks, Links, Parks, Live, SetUpPcbs, NameOf, ArgsOf, Padded, Proper, PidsOf;
    Bounds(m);
    AgreesReady(k, m);
    var p := FreePid(m);
    if p != -1 {
      StoredArgsTerminated(command);
      ExecuteAgrees(k, m, Activation(p, ArgsOf(command), if Running(m) then Some(here) else None),
                    Padded(NameOf(command), FILE_NAME), here);
    }
  }

  lemma {:induction false} LinkedFiles(s: seq<Activation>, pcbs: seq<Pcb>, p: int, files: Descriptors.Files)
    requires |pcbs| == MAX_PID + 1 && 0 <= p <= MAX_PID && Linked(s, pcbs)
    ensures Linked(s, pcbs[p := pcbs[p].(files := files)])
  {
    if s != [] { LinkedFiles(Init(s), pcbs, p, files); }
  }

  /** File descriptors play no part in the agreement. */
  lemma FilesAgree(k: Snapshot, m: Machine, p: int, files: Descriptors.Files)
    requires Agrees(k, m) && 0 <= p <= MAX_PID
    ensures Agrees(k.(pcbs := k.pcbs[p := k.pcbs[p].(files := files)]), m)
  {
    hide Sound, Marks, Linked, Live;
    Bounds(m);
    var pcbs := k.pcbs[p := k.pcbs[p].(files := files)];
    forall t | 0 <= t < TERMINALS ensures Spells(k.running[t], pcbs, m.stacks[t]) {
      assert Spells(k.running[t], k.pcbs, m.stacks[t]);
      LinkedFiles(m.stacks[t], k.pcbs, p, files);
    }
  }

  /** halt refines HaltTop: a pop, or a base shell replaced. */
  lemma HaltRefines(loads: seq<Byte> -> bool, k: Snapshot, m: Machine, status: Byte)
    requires Agrees(k, m) && Running(m) && loads(Padded(SHELL, FILE_NAME))
    ensures Ready(k) && k.running[k.cur] != -1
    ensures var (k', ctl) := HaltK(loads, k, status); var (m', ctl') := HaltTop(m, status);
      Agrees(k', m') && ctl == ctl'
  {
    hide Marks, Links, Parks, Live, Proper, PidsOf, ExecuteK, Execute;
    Bounds(m);
    AgreesReady(k, m);
    PopLinks(k, m);
    var pid, popped := Top(m).pid, SetStack(m, Init(m.stacks[m.cur]));
    var files, par := Freed(k).pcbs[pid].files, k.pcbs[pid].parPid;
    if par == -1 {
      PopAgrees(k, m, k.userFrame, k.esp0);
      FilesAgree(Freed(k).(pcbs := k.pcbs), popped, pid, files);
      ShellCommand();
      ExecuteRefines(loads, Freed(k), popped, SHELL, NOWHERE);
    } else {
      var frame, esp0 := PDE_ST + par - 1, StackTop(par);
      PopAgrees(k, m, frame, esp0);
      FilesAgree(Freed(k).(pcbs := k.pcbs, userFrame := frame, esp0 := esp0), popped, pid, files);
    }
  }

  /** The esp0 that process_switch stores is the one already there; the next terminal's top is not touched. */
  lemma ParkedIsSaved(k: Snapshot, m: Machine, here: Frame)
    requires Agrees(k, m)
    ensures Ready(k) && k.cur == m.cur
    ensures Parked(k, here) == k.(cur := (m.cur + 1) % TERMINALS, pcbs := SavedTop(k.pcbs, m, here))
  {
    AgreesReady(k, m);
    if Running(m) { TopFacts(k, m, m.cur); }
  }

  lemma NextFacts(k: Snapshot, m: Machine, here: Frame, next: nat)
    requires Agrees(k, m) && next == (m.cur + 1) % TERMINALS && m.stacks[next] != []
    ensures Ready(k) && var q := k.running[next]; 1 <= q <= MAX_PID && q == RunningOf(m.stacks[next])
    ensures var b := Parked(k, here).pcbs[k.running[next]];
      b.esp0 == StackTop(k.running[next]) && FrameOf(b) == m.parked[next]
  {
    AgreesReady(k, m);
    LinksTop(k.running, k.pcbs, m, next);
    TopFacts(k, m, next);
  }

  /** The timer interrupt refines Switch. */
  lemma SwitchRefines(loads: seq<Byte> -> bool, k: Snapshot, m: Machine, here: Frame)
    requires Agrees(k, m) && loads(Padded(SHELL, FILE_NAME))
    ensures Ready(k)
    ensures var (k', ctl) := SwitchK(loads, k, here); var (m', ctl') := Switch(m, here);
      Agrees(k', m') && ctl == ctl'
  {
    Bounds(m);
    var next := (m.cur + 1) % TERMINALS;
    ParkedIsSaved(k, m, here);
    LinksTop(k.running, k.pcbs, m, next);
    if m.stacks[next] == [] {
      ParkAgrees(k, m, here, k.userFrame, k.esp0);
      ShellCommand();
      ExecuteRefines(loads, Parked(k, here), Switched(m, here), SHELL, NOWHERE);
    } else {
      NextFacts(k, m, here, next);
      var q := k.running[next];
      ParkAgrees(k, m, here, PDE_ST + q - 1, StackTop(q));
    }
  }

  // ----- whole runs of the kernel -----

  /** What happens to the kernel: a timer interrupt, or a system call. Only a terminal's process halts; execute may also
      be called by a process that a failed bring-up tick has left running without a terminal of its own. */
  datatype Call =
    | TimerAt(here: Frame)
    | ExecuteAt(command: seq<Byte>, here: Frame)
    | HaltWith(status: Byte)

  function Meaning(loads: seq<Byte> -> bool, c: Call): Event {
    match c
    case TimerAt(here) => Tick(here)
    case ExecuteAt(command, here) => Exec(loads(Padded(NameOf(command), FILE_NAME)), ArgsOf(command), here)
    case HaltWith(status) => Processes.Halt(status)
  }

  function Meanings(loads: seq<Byte> -> bool, cs: seq<Call>): seq<Event> {
    seq(|cs|, i requires 0 <= i < |cs| => Meaning(loads, cs[i]))
  }

  ghost predicate Callable(k: Snapshot, c: Call) {
    Ready(k) && match c
      case TimerAt(_) => true
      case ExecuteAt(command, _) => NulFree(command)
      case HaltWith(_) => k.running[k.cur] != -1
  }

  ghost function StepK(loads: seq<Byte> -> bool, k: Snapshot, c: Call): (Snapshot, Control)
    requires Callable(k, c)
  {
    match c
    case TimerAt(here) => SwitchK(loads, k, here)
    case ExecuteAt(command, here) => ExecuteK(loads, k, command, here)
    case HaltWith(status) => HaltK(loads, k, status)
  }

  ghost predicate PossibleK(loads: seq<Byte> -> bool, k: Snapshot, cs: seq<Call>)
    decreases |cs|
  {
    cs == [] || (Callable(k, cs[0]) && PossibleK(loads, StepK(loads, k, cs[0]).0, cs[1..]))
  }

  ghost function RunK(loads: seq<Byte> -> bool, k: Snapshot, cs: seq<Call>): Snapshot
    requires PossibleK(loads, k, cs)
    decreases |cs|
  {
    if cs == [] then k else RunK(loads, StepK(loads, k, cs[0]).0, cs[1..])
  }

  lemma StepRefines(loads: seq<Byte> -> bool, k: Snapshot, m: Machine, c: Call)
    requires Agrees(k, m) && Callable(k, c) && loads(Padded(SHELL, FILE_NAME))
    ensures Enabled(m, Meaning(loads, c))
    ensures var (k', ctl) := StepK(loads, k, c); var (m', ctl') := Step(m, Meaning(loads, c));
      Agrees(k', m') && ctl == ctl'
  {
    AgreesReady(k, m);
    hide Agrees, Ready, StepK, Step, Meaning, NameOf, ArgsOf, Padded;
    match c
    case TimerAt(here) => TimerRefines(loads, k, m, here);
    case ExecuteAt(command, here) => CallRefines(loads, k, m, command, here);
    case HaltWith(status) => EndRefines(loads, k, m, status);
  }

  lemma TimerRefines(loads: seq<Byte> -> bool, k: Snapshot, m: Machine, here: Frame)
    requires Agrees(k, m) && loads(Padded(SHELL, FILE_NAME)) && Callable(k, TimerAt(here))
    ensures Enabled(m, Meaning(loads, TimerAt(here)))
    ensures var (k', ctl) := StepK(loads, k, TimerAt(here)); var (m', ctl') := Step(m, Meaning(loads, TimerAt(here)));
      Agrees(k', m') && ctl == ctl'
  {
    SwitchRefines(loads, k, m, here);
    hide Agrees, SwitchK, Switch, Padded, Ready;
  }

  lemma CallRefines(loads: seq<Byte> -> bool, k: Snapshot, m: Machine, command: seq<Byte>, here: Frame)
    requires Agrees(k, m) && Callable(k, ExecuteAt(command, here))
    ensures var c := ExecuteAt(command, here);
      && Enabled(m, Meaning(loads, c))
      && var (k', ctl) := StepK(loads, k, c); var (m', ctl') := Step(m, Meaning(loads, c));
      && Agrees(k', m') && ctl == ctl'
  {
    AgreesReady(k, m);
    ExecuteRefines(loads, k, m, command, here);
    hide Agrees, ExecuteK, Execute, Padded, NameOf, ArgsOf, Ready;
  }

  lemma EndRefines(loads: seq<Byte> -> bool, k: Snapshot, m: Machine, status: Byte)
    requires Agrees(k, m) && loads(Padded(SHELL, FILE_NAME)) && Callable(k, HaltWith(status))
    ensures Enabled(m, Meaning(loads, HaltWith(status)))
    ensures var (k', ctl) := StepK(loads, k, HaltWith(status));
      var (m', ctl') := Step(m, Meaning(loads, HaltWith(status)));
      Agrees(k', m') && ctl == ctl'
  {
    AgreesReady(k, m);
    HaltRefines(loads, k, m, status);
    hide Agrees, HaltK, HaltTop, Padded, Ready;
  }

  /** Every run of the kernel is a run of the three stacks: the kernel's variables agree with them at its end. */
  lemma {:induction false} RunRefines(loads: seq<Byte> -> bool, k: Snapshot, m: Machine, cs: seq<Call>)
    requires Agrees(k, m) && PossibleK(loads, k, cs) && loads(Padded(SHELL, FILE_NAME))
    ensures Possible(m, Meanings(loads, cs))
    ensures Agrees(RunK(loads, k, cs), Run(m, Meanings(loads, cs)))
    decreases |cs|
  {
    hide Linked, Proper, PidsOf, Live, Marks, Parks, Links, Context, Step, StepK;
    if cs != [] {
      StepRefines(loads, k, m, cs[0]);
      StepKeeps(m, Meaning(loads, cs[0]));
      assert Meanings(loads, cs)[1..] == Meanings(loads, cs[1..]);
      assert Meanings(loads, cs)[0] == Meaning(loads, cs[0]);
      RunRefines(loads, StepK(loads, k, cs[0]).0, Step(m, Meaning(loads, cs[0])).0, cs[1..]);
    }
  }

  /** Once every terminal has a process, every terminal has one after every possible run. */
  lemma NoRunningPidGoes(loads: seq<Byte> -> bool, k: Snapshot, m: Machine, cs: seq<Call>)
    requires Agrees(k, m) && PossibleK(loads, k, cs) && loads(Padded(SHELL, FILE_NAME))
    requires |k.running| == TERMINALS && forall t | 0 <= t < TERMINALS :: k.running[t] != -1
    ensures var after := RunK(loads, k, cs);
      |after.running| == TERMINALS && forall t | 0 <= t < TERMINALS :: after.running[t] != -1
  {
    hide Linked, Proper, PidsOf, Live, Marks, Parks, Context, Spells;
    RunRefines(loads, k, m, cs);
    var after, reached := RunK(loads, k, cs), Run(m, Meanings(loads, cs));
    Bounds(m);
    forall t | 0 <= t < TERMINALS ensures m.stacks[t] != [] {
      LinksTop(k.running, k.pcbs, m, t);
    }
    NoTerminalGoesDead(m, Meanings(loads, cs));
    forall t | 0 <= t < TERMINALS ensures after.running[t] != -1 {
      LinksTop(after.running, after.pcbs, reached, t);
      RunningApart(reached, t, t);
    }
  }

  /** What a program that execute starts finds in its control block: its pid, its caller, the terminal's two
      descriptors and no other, and the command's first word, cut to 32 bytes, as its name. No other process's
      files or name change. */
  lemma ProgramStarts(loads: seq<Byte> -> bool, k: Snapshot, command: seq<Byte>, here: Frame)
    requires Ready(k) && NulFree(command) && ExecuteK(loads, k, command, here).1.EnterUser?
    ensures var (after, ctl) := ExecuteK(loads, k, command, here);
      && 1 <= ctl.pid <= MAX_PID && |after.pcbs| == MAX_PID + 1
      && after.running == k.running[k.cur := ctl.pid] && after.userFrame == ctl.pid + 1
      && var b := after.pcbs[ctl.pid];
      && b.pid == ctl.pid && b.parPid == k.running[k.cur] && b.active && !b.vidmap
      && (forall i | 0 <= i < 2 :: b.files[i] == Descriptors.Descriptor(true, 0, 0, Descriptors.TerminalOps))
      && (forall i | 2 <= i < 8 :: !b.files[i].open)
      && |b.name| == 32 && (forall i | 0 <= i < 32 :: b.name[i] == if i < |FirstWord(command)| then command[i] else 0)
      && forall p | 0 <= p <= MAX_PID && p != ctl.pid ::
           after.pcbs[p].files == k.pcbs[p].files && after.pcbs[p].name == k.pcbs[p].name
  {
    hide ArgsOf;
  }

  /** What halt leaves of a process that was called by another: nothing open, for every program whose name does not
      start with gr. */
  lemma HaltLeavesNothingOpen(loads: seq<Byte> -> bool, k: Snapshot, status: Byte)
    requires Ready(k) && k.running[k.cur] != -1 && k.pcbs[k.running[k.cur]].parPid !in {-1, k.running[k.cur]}
    requires Descriptors.Wired(k.pcbs[k.running[k.cur]].files)
    requires var name := k.pcbs[k.running[k.cur]].name; |name| == 32 && (name[0] != 103 || name[1] != 114)
    ensures var after := HaltK(loads, k, status).0;
      && after.pidSt[k.running[k.cur] - 1] == 0
      && forall j | 2 <= j < 8 :: !after.pcbs[k.running[k.cur]].files[j].open
  {
    var b := k.pcbs[k.running[k.cur]];
    Descriptors.HaltCloses(b.name, b.files);
    assert forall j | 2 <= j < 8 :: !Descriptors.ClosedFrom(b.name, b.files, 2)[j].open;
    hide Descriptors.ClosedFrom, StackTop;
    assert HaltK(loads, k, status).0.pcbs == Freed(k).pcbs;
  }

  /** What a call of execute is answered with: -1 exactly when the name does not load, 0 exactly when it does and all
      six pids are taken; otherwise it does not return, and a pid that was free runs. */
  lemma ExecuteAnswers(loads: seq<Byte> -> bool, k: Snapshot, m: Machine, command: seq<Byte>, here: Frame)
    requires Agrees(k, m)
    ensures Ready(k)
    ensures var ok := loads(Padded(NameOf(command), FILE_NAME));
      var ctl := ExecuteK(loads, k, command, here).1;
      && (ctl == Return(-1) <==> !ok)
      && (ctl == Return(0) <==> ok && k.pidCnt == MAX_PID)
      && (ok && k.pidCnt < MAX_PID ==>
           ctl.EnterUser? && 1 <= ctl.pid <= MAX_PID && k.pidSt[ctl.pid - 1] == 0)
    ensures k.pidCnt <= MAX_PID
  {
    hide Live, SetUpPcbs, Links, Parks, Context, NameOf, ArgsOf, Padded;
    AgreesReady(k, m);
    TableFull(m);
  }

  /** There is no free pid exactly when six are live. */
  lemma TableFull(m: Machine)
    requires Sound(m)
    ensures |Live(m)| <= MAX_PID && (FreePid(m) == -1 <==> |Live(m)| == MAX_PID)
  {
    LiveIsSmall(m);
    hide Live, Sound;
    FullSet(Live(m));
  }

  ghost function AllPids(): (r: set<int>)
    ensures forall p :: p in r <==> 1 <= p <= MAX_PID
    ensures |r| == MAX_PID
  {
    {1, 2, 3, 4, 5, 6}
  }

  lemma FullSet(live: set<int>)
    requires live <= AllPids()
    ensures |live| <= MAX_PID && (FreeFrom(live, 1) == -1 <==> |live| == MAX_PID)
  {
    hide AllPids, FreeFrom;
    SubsetSize(live, AllPids());
    var p := FreeFrom(live, 1);
    if p == -1 {
      assert live == AllPids();
    } else {
      SubsetSize(live + {p}, AllPids());
    }
  }

  lemma LiveIsSmall(m: Machine)
    requires Sound(m)
    ensures Live(m) <= AllPids() && |Live(m)| == |m.stacks[0]| + |m.stacks[1]| + |m.stacks[2]|
  {
    forall t | 0 <= t < TERMINALS
      ensures |PidsOf(m.stacks[t])| == |m.stacks[t]| && PidsOf(m.stacks[t]) <= AllPids()
    {
      PidsSize(m.stacks[t]);
    }
    var a, b, c := PidsOf(m.stacks[0]), PidsOf(m.stacks[1]), PidsOf(m.stacks[2]);
    assert a !! b && a + b !! c;
    assert |a + b| == |a| + |b| && |a + b + c| == |a + b| + |c|;
  }

  /** Process p does not halt during the run. */
  ghost predicate Kept(loads: seq<Byte> -> bool, k: Snapshot, cs: seq<Call>, p: int)
    requires PossibleK(loads, k, cs)
    decreases |cs|
  {
    cs != [] ==>
      && !(cs[0].HaltWith? && k.running[k.cur] == p)
      && Kept(loads, StepK(loads, k, cs[0]).0, cs[1..], p)
  }

  lemma {:induction false} KeptStays(loads: seq<Byte> -> bool, k: Snapshot, m: Machine, cs: seq<Call>, t: nat, n: nat)
    requires Agrees(k, m) && PossibleK(loads, k, cs) && loads(Padded(SHELL, FILE_NAME))
    requires t < TERMINALS && 1 <= n <= |m.stacks[t]| && Kept(loads, k, cs, m.stacks[t][n - 1].pid)
    ensures Possible(m, Meanings(loads, cs)) && Stays(m, Meanings(loads, cs), t, n)
    decreases |cs|
  {
    hide Linked, Proper, PidsOf, Live, Marks, Step;
    if cs != [] {
      var e := Meaning(loads, cs[0]);
      assert Meanings(loads, cs)[0] == e && Meanings(loads, cs)[1..] == Meanings(loads, cs[1..]);
      LinksTop(k.running, k.pcbs, m, t);
      StepRefines(loads, k, m, cs[0]);
      StepStays(m, e, t, n);
      var m' := Step(m, e).0;
      assert m'.stacks[t][n - 1] == m'.stacks[t][..n][n - 1] == m.stacks[t][..n][n - 1];
      KeptStays(loads, StepK(loads, k, cs[0]).0, m', cs[1..], t, n);
    }
  }

  /** In a proper stack only the last element has the last pid. */
  lemma TopIsLast(s: seq<Activation>, n: nat)
    requires Proper(s) && 1 <= n <= |s| && s[n - 1].pid == Last(s).pid
    ensures n == |s|
  {
    if n < |s| { PidInside(Init(s), n - 1); }
  }

  lemma {:induction false} PidInside(s: seq<Activation>, i: nat)
    requires i < |s|
    ensures s[i].pid in PidsOf(s)
  {
    if i < |s| - 1 { PidInside(Init(s), i); }
  }

  /** The program that a call of execute has started, at `here`, is the current process after the run `mid`
      and has not halted in between. */
  ghost predicate BackInProgram(loads: seq<Byte> -> bool, k: Snapshot, command: seq<Byte>, here: Frame,
                                mid: seq<Call>)
  {
    && Callable(k, ExecuteAt(command, here)) && k.running[k.cur] != -1
    && var (started, ctl) := StepK(loads, k, ExecuteAt(command, here));
    && ctl.EnterUser? && PossibleK(loads, started, mid) && Kept(loads, started, mid, ctl.pid)
    && var back := RunK(loads, started, mid);
    && Ready(back) && back.running[back.cur] == ctl.pid
  }

  /** A process that is current before and after a run in which it does not halt has its stack back. */
  lemma KeptOnTop(loads: seq<Byte> -> bool, k: Snapshot, m: Machine, cs: seq<Call>)
    requires Agrees(k, m) && loads(Padded(SHELL, FILE_NAME)) && Running(m)
    requires PossibleK(loads, k, cs) && Kept(loads, k, cs, Top(m).pid)
    requires var back := RunK(loads, k, cs); Ready(back) && back.running[back.cur] == Top(m).pid
    ensures Possible(m, Meanings(loads, cs)) && Stays(m, Meanings(loads, cs), m.cur, |m.stacks[m.cur]|)
    ensures var reached := Run(m, Meanings(loads, cs));
      Agrees(RunK(loads, k, cs), reached) && reached.cur == m.cur && reached.stacks[m.cur] == m.stacks[m.cur]
  {
    hide Linked, Proper, PidsOf, Live, Marks, Parks, Context, StepK, Step, Kept, Stays, Links;
    var es, t, n := Meanings(loads, cs), m.cur, |m.stacks[m.cur]|;
    KeptStays(loads, k, m, cs, t, n);
    RunRefines(loads, k, m, cs);
    var back, reached := RunK(loads, k, cs), Run(m, es);
    StaysPut(m, es, t, n);
    assert reached.stacks[t][n - 1] == reached.stacks[t][..n][n - 1] == Top(m);
    PidInside(reached.stacks[t], n - 1);
    RunningIsLive(m);
    LinksTop(back.running, back.pcbs, reached, reached.cur);
    RunningApart(reached, reached.cur, t);
    LinksTop(back.running, back.pcbs, reached, t);
    TopIsLast(reached.stacks[t], n);
  }

  lemma StartedOnTop(loads: seq<Byte> -> bool, k: Snapshot, m: Machine, command: seq<Byte>, here: Frame)
    requires Agrees(k, m) && loads(Padded(SHELL, FILE_NAME)) && Callable(k, ExecuteAt(command, here))
    requires k.running[k.cur] != -1 && StepK(loads, k, ExecuteAt(command, here)).1.EnterUser?
    ensures var call := ExecuteAt(command, here);
      var (started, ctl) := StepK(loads, k, call);
      && Running(m) && FreePid(m) != -1 && Meaning(loads, call) == Exec(true, ArgsOf(command), here)
      && var called := Step(m, Meaning(loads, call)).0;
      && Agrees(started, called) && called.cur == m.cur && Running(called) && Top(called).pid == ctl.pid
      && |called.stacks[m.cur]| == |m.stacks[m.cur]| + 1
  {
    hide Linked, Proper, PidsOf, Live, Marks, Parks, Context, Links, ExecuteK, NameOf, ArgsOf, Padded;
    AgreesReady(k, m);
    StepRefines(loads, k, m, ExecuteAt(command, here));
  }

  /** When the program that a call of execute started finally halts, control goes back to the frame saved by that
      very execute and its terminal's process is the caller again, although ticks and other calls have written the
      same control blocks, and freed and reused pids, in between. */
  lemma HaltReturnsToCaller(loads: seq<Byte> -> bool, k: Snapshot, m: Machine, command: seq<Byte>, here: Frame,
                            mid: seq<Call>, status: Byte)
    requires Agrees(k, m) && loads(Padded(SHELL, FILE_NAME)) && BackInProgram(loads, k, command, here, mid)
    ensures var back := RunK(loads, StepK(loads, k, ExecuteAt(command, here)).0, mid);
      && Callable(back, HaltWith(status))
      && var (after, ctl) := StepK(loads, back, HaltWith(status));
      && back.cur == k.cur && ctl == Resume(here, if status == 255 then 256 else status)
      && Ready(after) && after.cur == k.cur && after.running[k.cur] == k.running[k.cur]
  {
    hide Linked, Proper, PidsOf, Live, Marks, Parks, Context, Links, ExecuteK, HaltK, Kept, Stays;
    StartedOnTop(loads, k, m, command, here);
    var call := ExecuteAt(command, here);
    var e, es, started := Meaning(loads, call), Meanings(loads, mid), StepK(loads, k, call).0;
    var called := Step(m, e).0;
    KeptOnTop(loads, started, called, mid);
    var back, reached := RunK(loads, started, mid), Run(called, es);
    AgreesReady(back, reached);
    CallReturn(m, e.args, here, es, status);
    StepRefines(loads, back, reached, HaltWith(status));
    var (after, _) := StepK(loads, back, HaltWith(status));
    AgreesReady(after, Step(reached, Processes.Halt(status)).0);
    LinksTop(after.running, after.pcbs, Step(reached, Processes.Halt(status)).0, m.cur);
    LinksTop(k.running, k.pcbs, m, m.cur);
  }

  /** Whenever a program asks for its arguments, getargs finds those of the command that started it. */
  lemma ArgsReachProgram(loads: seq<Byte> -> bool, k: Snapshot, m: Machine, command: seq<Byte>, here: Frame,
                         mid: seq<Call>)
    requires Agrees(k, m) && loads(Padded(SHELL, FILE_NAME)) && BackInProgram(loads, k, command, here, mid)
    ensures var back, args := RunK(loads, StepK(loads, k, ExecuteAt(command, here)).0, mid), ArgsOf(command);
      var stored := back.pcbs[back.running[back.cur]].args;
      |stored| == MAX_ARG_LENGTH && NUL in stored && StrLen(stored) == |args| && stored[..|args|] == args
  {
    hide Linked, Proper, PidsOf, Live, Marks, Parks, Context, Links, ExecuteK, Kept, Stays;
    StartedOnTop(loads, k, m, command, here);
    var call := ExecuteAt(command, here);
    var e, es, started := Meaning(loads, call), Meanings(loads, mid), StepK(loads, k, call).0;
    KeptOnTop(loads, started, Step(m, e).0, mid);
    ArgsStored(RunK(loads, started, mid), Run(Step(m, e).0, es));
  }

  lemma SubsetSize(a: set<int>, b: set<int>)
    requires a <= b
    ensures |a| <= |b|
  {
    assert b == a + (b - a) && a !! b - a;
  }

  lemma {:induction false} PidsSize(s: seq<Activation>)
    requires Proper(s)
    ensures |PidsOf(s)| == |s| && PidsOf(s) <= AllPids()
  {
    if s != [] { PidsSize(Init(s)); }
  }

  /** Whom the i-th process of a stack links to. */
  function LinkOf(pids: seq<int>, i: nat): int
    requires i <= |pids|
  {
    if i == 0 then -1 else pids[i - 1]
  }

  /** The links lead from `top` through `pids`, last to first, and the last of them is -1. */
  ghost predicate EndsIn(pcbs: seq<Pcb>, top: int, pids: seq<int>)
    requires |pcbs| == MAX_PID + 1
  {
    && top == LinkOf(pids, |pids|)
    && forall i {:trigger LinkOf(pids, i)} | 0 <= i < |pids| ::
         1 <= pids[i] <= MAX_PID && pcbs[pids[i]].parPid == LinkOf(pids, i)
  }

  lemma EndsMore(pcbs: seq<Pcb>, top: int, pids: seq<int>, p: int)
    requires |pcbs| == MAX_PID + 1 && EndsIn(pcbs, top, pids) && 1 <= p <= MAX_PID && pcbs[p].parPid == top
    ensures EndsIn(pcbs, p, pids + [p])
  {
    var more := pids + [p];
    forall i | 0 <= i < |more| ensures 1 <= more[i] <= MAX_PID && pcbs[more[i]].parPid == LinkOf(more, i) {
      assert LinkOf(more, i) == LinkOf(pids, i);
    }
  }

  lemma {:induction false} LinkedEnds(s: seq<Activation>, pcbs: seq<Pcb>)
    requires |pcbs| == MAX_PID + 1 && Linked(s, pcbs)
    ensures EndsIn(pcbs, RunningOf(s), PidSeq(s))
  {
    if s == [] {
      assert PidSeq(s) == [];
    } else {
      hide EndsIn;
      LinkedEnds(Init(s), pcbs);
      EndsMore(pcbs, RunningOf(Init(s)), PidSeq(Init(s)), Last(s).pid);
      assert PidSeq(s) == PidSeq(Init(s)) + [Last(s).pid];
    }
  }

  lemma {:induction false} LinkedOwn(s: seq<Activation>, pcbs: seq<Pcb>)
    requires |pcbs| == MAX_PID + 1 && Linked(s, pcbs)
    ensures forall p | p in PidsOf(s) :: 1 <= p <= MAX_PID && pcbs[p].pid == p && pcbs[p].esp0 == StackTop(p)
  {
    if s != [] { LinkedOwn(Init(s), pcbs); }
  }

  lemma ChainReaches(s: seq<Activation>, pcbs: seq<Pcb>, fuel: nat)
    requires |pcbs| == MAX_PID + 1 && Linked(s, pcbs) && Proper(s) && fuel >= MAX_PID
    ensures Chain(pcbs, RunningOf(s), fuel) == PidSeq(s) && EndsIn(pcbs, RunningOf(s), PidSeq(s))
  {
    LinkedEnds(s, pcbs);
    PidsSize(s);
    SubsetSize(PidsOf(s), AllPids());
    ChainIsStack(s, pcbs, fuel);
  }

  /** The chain of parent links from terminal t's running_pid, last process last. */
  function ChainOf(k: Snapshot, t: nat): seq<int>
    requires |k.pcbs| == MAX_PID + 1 && |k.running| == TERMINALS && t < TERMINALS
  {
    Chain(k.pcbs, k.running[t], MAX_PID)
  }

  /** The chains are the stacks. */
  lemma ChainsAreStacks(k: Snapshot, m: Machine, t: nat)
    requires Agrees(k, m) && t < TERMINALS
    ensures ChainOf(k, t) == PidSeq(m.stacks[t]) && EndsIn(k.pcbs, k.running[t], ChainOf(k, t))
    ensures forall p :: p in ChainOf(k, t) <==> p in PidsOf(m.stacks[t])
    ensures forall p | p in ChainOf(k, t) :: 1 <= p <= MAX_PID && k.pcbs[p].pid == p && k.pcbs[p].esp0 == StackTop(p)
    ensures forall i, j | 0 <= i < j < |ChainOf(k, t)| :: ChainOf(k, t)[i] != ChainOf(k, t)[j]
  {
    hide Chain;
    var s := m.stacks[t];
    assert Spells(k.running[t], k.pcbs, s);
    ChainReaches(s, k.pcbs, MAX_PID);
    LinkedOwn(s, k.pcbs);
    PidSeqMembers(s);
  }

  lemma {:induction false} PidSeqMembers(s: seq<Activation>)
    requires Proper(s)
    ensures forall p :: p in PidSeq(s) <==> p in PidsOf(s)
    ensures forall i, j | 0 <= i < j < |s| :: PidSeq(s)[i] != PidSeq(s)[j]
  {
    if s != [] {
      PidSeqMembers(Init(s));
      assert PidSeq(s) == PidSeq(Init(s)) + [Last(s).pid];
      assert forall i | 0 <= i < |s| - 1 :: PidSeq(s)[i] in PidSeq(Init(s));
    }
  }

  predicate OnChain(k: Snapshot, p: int)
    requires |k.pcbs| == MAX_PID + 1 && |k.running| == TERMINALS
  {
    p in ChainOf(k, 0) || p in ChainOf(k, 1) || p in ChainOf(k, 2)
  }

  lemma MarksOnChain(k: Snapshot, m: Machine)
    requires Agrees(k, m)
    ensures forall p :: OnChain(k, p) <==> p in Live(m)
    ensures k.pidCnt == |ChainOf(k, 0)| + |ChainOf(k, 1)| + |ChainOf(k, 2)|
  {
    hide ChainOf, Linked, Proper, PidsOf;
    LiveIsSmall(m);
    ChainsAreStacks(k, m, 0);
    ChainsAreStacks(k, m, 1);
    ChainsAreStacks(k, m, 2);
  }

  /** What agreement says in the kernel's own variables. The parent links from each running_pid form a chain that ends
      in -1; no pid is on two chains or twice on one; the pids on chains are those marked in pid_st, and pid_cnt is
      their number; each has its own number and kernel stack top in its control block; and the current process owns the
      user page and the kernel stack. */
  lemma ThreeChains(k: Snapshot, m: Machine)
    requires Agrees(k, m)
    ensures |k.pcbs| == MAX_PID + 1 && |k.running| == TERMINALS && |k.pidSt| == MAX_PID && k.cur < TERMINALS
    ensures forall t | 0 <= t < TERMINALS :: EndsIn(k.pcbs, k.running[t], ChainOf(k, t))
    ensures forall t, i, j | 0 <= t < TERMINALS && 0 <= i < j < |ChainOf(k, t)| :: ChainOf(k, t)[i] != ChainOf(k, t)[j]
    ensures forall t, u, p | 0 <= t < u < TERMINALS && p in ChainOf(k, t) :: p !in ChainOf(k, u)
    ensures forall p | 1 <= p <= MAX_PID :: k.pidSt[p - 1] == if OnChain(k, p) then 1 else 0
    ensures k.pidCnt == |ChainOf(k, 0)| + |ChainOf(k, 1)| + |ChainOf(k, 2)|
    ensures forall p | OnChain(k, p) :: 1 <= p <= MAX_PID && k.pcbs[p].pid == p && k.pcbs[p].esp0 == StackTop(p)
    ensures k.running[k.cur] != -1 ==> k.userFrame == k.running[k.cur] + 1 && k.esp0 == StackTop(k.running[k.cur])
  {
    Bounds(m);
    MarksOnChain(k, m);
    hide Linked, Proper, PidsOf, EndsIn, ChainOf, Live, OnChain;
    forall t, u, p | 0 <= t < u < TERMINALS && p in ChainOf(k, t) ensures p !in ChainOf(k, u) {
      ChainsAreStacks(k, m, t);
      ChainsAreStacks(k, m, u);
    }
    forall t, i, j | 0 <= t < TERMINALS && 0 <= i < j < |ChainOf(k, t)| ensures ChainOf(k, t)[i] != ChainOf(k, t)[j] {
      ChainsAreStacks(k, m, t);
    }
    forall t | 0 <= t < TERMINALS ensures EndsIn(k.pcbs, k.running[t], ChainOf(k, t)) {
      ChainsAreStacks(k, m, t);
    }
    forall p | OnChain(k, p) ensures 1 <= p <= MAX_PID && k.pcbs[p].pid == p && k.pcbs[p].esp0 == StackTop(p) {
      OnSomeChain(k, m, p);
    }
  }

  lemma OnSomeChain(k: Snapshot, m: Machine, p: int)
    requires Agrees(k, m) && OnChain(k, p)
    ensures 1 <= p <= MAX_PID && k.pcbs[p].pid == p && k.pcbs[p].esp0 == StackTop(p)
  {
    hide ChainOf, Linked, Proper, PidsOf;
    ChainsAreStacks(k, m, if p in ChainOf(k, 0) then 0 else if p in ChainOf(k, 1) then 1 else 2);
  }

  class Kernel {
    const pidSt: array<int>
    var pidCnt: int
    const pcb: array<Pcb>
    const runningPid: array<int>
    var currentTid: nat
    var userFrame: int   // page_directory[32].mb.address
    var tssEsp0: int
    const disk: Disk     // the file system image, which nothing writes

    ghost function Now(): Snapshot
      reads this, pidSt, pcb, runningPid
    {
      Snapshot(pidSt[..], pidCnt, pcb[..], runningPid[..], currentTid, userFrame, tssEsp0)
    }

    ghost predicate Valid()
      reads this, pidSt, pcb, runningPid
    {
      pidSt != runningPid && Ready(Now()) && Sane(disk)
    }

    constructor (disk: Disk)
      requires Sane(disk)
      ensures Valid() && Agrees(Now(), Boot()) && this.disk == disk
      ensures fresh(pidSt) && fresh(pcb) && fresh(runningPid)
    {
      pidSt := new int[MAX_PID](_ => 0);
      pcb := new Pcb[MAX_PID + 1](_ =>
        Pcb(0, 0, 0, 0, 0, false, [], [], seq(Descriptors.FILES, _ => Descriptors.CLOSED), false));
      runningPid := new int[TERMINALS](_ => -1);
      pidCnt, currentTid, userFrame, tssEsp0 := 0, 0, 32, KERNEL_STACK_BOTTOM;
      this.disk := disk;
    }

    /** get_pid: the first free slot is taken; -1 when there is none. */
    method GetPid() returns (pid: int)
      requires pidSt.Length == MAX_PID && pidSt != runningPid
      modifies this`pidCnt, pidSt
      ensures var slot := FreeSlot(old(pidSt[..]), 0);
        && pid == (if slot == -1 then -1 else slot + 1)
        && Now() == if slot == -1 then old(Now())
                    else old(Now()).(pidSt := old(pidSt[..])[slot := 1], pidCnt := old(pidCnt) + 1)
    {
      var i := 0;
      while i < MAX_PID
        invariant 0 <= i <= MAX_PID
        invariant forall j | 0 <= j < i :: pidSt[j] != 0
        invariant Now() == old(Now())
      {
        if pidSt[i] == 0 {
          assert i == FreeSlot(old(pidSt[..]), 0) by {
            assert forall j | 0 <= j <= i :: pidSt[j] == Now().pidSt[j] == old(pidSt[..])[j];
          }
          pidCnt := pidCnt + 1;
          pidSt[i] := 1;
          return i + 1;
        }
        i := i + 1;
      }
      assert forall j | 0 <= j < MAX_PID :: pidSt[j] == Now().pidSt[j] == old(pidSt[..])[j];
      return -1;
    }

    /** free_pid */
    method FreePid(pid: int)
      requires pidSt.Length == MAX_PID && 1 <= pid <= MAX_PID && pidSt != runningPid
      modifies this`pidCnt, pidSt
      ensures Now() == old(Now()).(pidSt := old(pidSt[..])[pid - 1 := 0], pidCnt := old(pidCnt) - 1)
    {
      pidSt[pid - 1] := 0;
      pidCnt := pidCnt - 1;
    }

    /** The middle of execute: the new control block, the caller's saved frame, paging and tss. */
    method SetUp(pid: int, args: seq<Byte>, name: seq<Byte>, here: Frame)
      requires pcb.Length == MAX_PID + 1 && currentTid < runningPid.Length && pidSt != runningPid
      requires 1 <= pid <= MAX_PID && runningPid[currentTid] != pid
      requires runningPid[currentTid] == -1 || 1 <= runningPid[currentTid] <= MAX_PID
      modifies this`userFrame, this`tssEsp0, pcb, runningPid
      ensures Now() == old(Now()).(
        pcbs := SetUpPcbs(old(pcb[..]), pid, old(runningPid[currentTid]), args, name, here),
        running := old(runningPid[..])[currentTid := pid], userFrame := PDE_ST + pid - 1, esp0 := StackTop(pid))
    {
      pcb[pid] := pcb[pid].(pid := pid, active := true, parPid := runningPid[currentTid]);
      runningPid[currentTid] := pid;
      pcb[pid] := pcb[pid].(vidmap := false);
      pcb[pid] := pcb[pid].(args := args, name := name);
      pcb[pid] := pcb[pid].(files := Descriptors.Started(pcb[pid].files));
      userFrame := PDE_ST + pid - 1;
      var par := pcb[pid].parPid;
      if par != -1 {
        pcb[par] := pcb[par].(savedEsp := here.esp, savedEbp := here.ebp);
      }
      pcb[pid] := pcb[pid].(esp0 := StackTop(pid));
      tssEsp0 := StackTop(pid);
    }

    /** execute, called at `here`. A null command is answered with 0. */
    method Execute(command: Option<seq<Byte>>, here: Frame) returns (ctl: Control)
      requires Valid() && (command.Some? ==> NulFree(command.value))
      modifies this, pidSt, pcb, runningPid
      ensures command.None? ==> Now() == old(Now()) && ctl == Return(0)
      ensures command.Some? ==> (Now(), ctl) == ExecuteK(Loading(disk), old(Now()), command.value, here)
    {
      hide Loads, NameOf, ArgsOf, Padded;
      if command.None? { return Return(0); }
      var name, args := Parse(command.value);
      var ok := CheckFile(disk, name);
      if !ok { return Return(EXEC_FAIL); }
      assert forall t | 0 <= t < TERMINALS :: Now().running[t] == runningPid[t];
      var pid := GetPid();
      if pid == -1 { return Return(0); }
      SetUp(pid, args, name, here);
      return EnterUser(pid);
    }

    /** The loop of halt that closes what the process has open. */
    method CloseFiles(pid: nat)
      requires pid < pcb.Length
      modifies pcb
      ensures var b := old(pcb[pid]);
        pcb[..] == old(pcb[..])[pid := b.(files := Descriptors.ClosedFrom(b.name, b.files, Descriptors.REAL_FILE))]
    {
      ghost var b := pcb[pid];
      assert pcb[..] == pcb[..][pid := b.(files := b.files)];
      var i := Descriptors.REAL_FILE;
      while i < Descriptors.FILES
        invariant Descriptors.REAL_FILE <= i <= Descriptors.FILES
        invariant pcb[..] == old(pcb[..])[pid := b.(files := pcb[pid].files)]
        invariant Descriptors.ClosedFrom(b.name, pcb[pid].files, i)
               == Descriptors.ClosedFrom(b.name, b.files, Descriptors.REAL_FILE)
      {
        if pcb[pid].files[i].open { var _ := Close(pid, i); }
        i := i + 1;
      }
    }

    /** open, for the process pid. The device's own open succeeds for a name that has just been looked up. */
    method Open(pid: nat, filename: seq<Byte>) returns (fd: int)
      requires Sane(disk) && NulFree(filename) && pid < pcb.Length
      modifies pcb
      ensures var b, e := old(pcb[pid]), Directory.Lookup(disk.boot, filename);
        if filename == [] || e == None then fd == -1 && pcb[..] == old(pcb[..])
        else
          var r := Descriptors.Opened(b.files, e.value.kind, e.value.inode);
          fd == r.1 && pcb[..] == old(pcb[..])[pid := b.(files := r.0)]
      ensures var was, e, now := old(pcb[pid]).files, Directory.Lookup(disk.boot, filename), pcb[pid].files;
        fd != -1 ==>
          && e.Some? && 2 <= fd < 8 && !was[fd].open && (forall i | 2 <= i < fd :: was[i].open)
          && (forall i | 0 <= i < 8 && i != fd :: now[i] == was[i])
          && now[fd].open && now[fd].inode == e.value.inode && now[fd].pos == 0
          && (e.value.kind == 0 ==> now[fd].ops == Descriptors.RtcOps)
          && (e.value.kind == 1 ==> now[fd].ops == Descriptors.DirectoryOps)
          && (e.value.kind == 2 ==> now[fd].ops == Descriptors.FileOps)
    {
      if |filename| == 0 { return -1; }
      var dentry := Directory.ReadDentryByName(disk.boot, filename);
      if dentry == None { return -1; }
      var b := pcb[pid];
      assert pcb[..] == pcb[..][pid := b.(files := b.files)];
      fd := Descriptors.REAL_FILE;
      while fd < Descriptors.FILES
        invariant Descriptors.REAL_FILE <= fd <= Descriptors.FILES && pcb[..] == old(pcb[..])
        invariant Descriptors.FreeFrom(b.files, Descriptors.REAL_FILE) == Descriptors.FreeFrom(b.files, fd)
      {
        if !pcb[pid].files[fd].open {
          var ops := Descriptors.OpsOf(dentry.value.kind);
          pcb[pid] := b.(files := b.files[fd := Descriptors.Descriptor(true, dentry.value.inode, 0, ops)]);
          return;
        }
        fd := fd + 1;
      }
      fd := -1;
    }

    /** close, for the process pid */
    method Close(pid: nat, fd: int) returns (ret: int)
      requires pid < pcb.Length
      modifies pcb
      ensures var b := old(pcb[pid]); var r := Descriptors.Closed(b.name, b.files, fd);
        ret == r.1 && pcb[..] == old(pcb[..])[pid := b.(files := r.0)]
    {
      var b := pcb[pid];
      assert pcb[..] == pcb[..][pid := b.(files := b.files)];
      var e := fd;
      if |b.name| >= 2 && b.name[0] == 103 && b.name[1] == 114 {
        if e != Descriptors.ROOT_FD { e := Descriptors.FILE_FD; }
      }
      if e < Descriptors.REAL_FILE || e >= Descriptors.FILES { return -1; }
      if b.files[e].ops == Descriptors.NoOps { return -1; }
      if !b.files[e].open { return -1; }
      pcb[pid] := b.(files := b.files[e := Descriptors.CLOSED]);
      return 0;
    }

    /** The first part of halt: free the pid and close the files. */
    method CloseDown(pid: int)
      requires Valid() && runningPid[currentTid] == pid != -1
      modifies this`pidCnt, pidSt, pcb
      ensures Now() == Freed(old(Now())).(running := old(runningPid[..]))
    {
      assert pid == Now().running[currentTid] && pcb[pid] == Now().pcbs[pid];
      hide Descriptors.ClosedFrom;
      FreePid(pcb[pid].pid);
      CloseFiles(pid);
    }

    /** halt, called by the current terminal's process. */
    method Halt(status: Byte) returns (ctl: Control)
      requires Valid() && runningPid[currentTid] != -1
      modifies this, pidSt, pcb, runningPid
      ensures (Now(), ctl) == HaltK(Loading(disk), old(Now()), status)
    {
      var returnValue := if status == 0xFF then 256 else status;
      var pid := runningPid[currentTid];
      assert pid == Now().running[currentTid] && pcb[pid] == Now().pcbs[pid];
      hide ExecuteK, NameOf, ArgsOf, Padded, Descriptors.ClosedFrom;
      CloseDown(pid);
      if pcb[pid].parPid == -1 {
        runningPid[currentTid] := -1;
        assert Now() == Freed(old(Now()));
        ShellCommand();
        ctl := Execute(Some(SHELL), NOWHERE);
      } else {
        var parPid := pcb[pid].parPid;
        var frame := Frame(pcb[parPid].savedEsp, pcb[parPid].savedEbp);
        runningPid[currentTid] := parPid;
        tssEsp0 := KERNEL_STACK_BOTTOM - (parPid - 1) * PROCESS_STACK_SIZE - FENCE;
        userFrame := PDE_ST + parPid - 1;
        ctl := Resume(frame, returnValue);
      }
    }

    /** process_switch to the next terminal, called at `here`. */
    method ProcessSwitch(tid: nat, here: Frame) returns (ctl: Control)
      requires Valid() && tid == (currentTid + 1) % TERMINALS
      modifies this, pidSt, pcb, runningPid
      ensures (Now(), ctl) == SwitchK(Loading(disk), old(Now()), here)
    {
      hide ExecuteK, NameOf, ArgsOf, Padded;
      SaveOld(here);
      var newProcess := runningPid[tid];
      assert newProcess == Now().running[tid];
      if newProcess == -1 {
        currentTid := tid;
        assert Now() == Parked(old(Now()), here);
        ShellCommand();
        ctl := Execute(Some(SHELL), NOWHERE);
      } else {
        userFrame := PDE_ST + newProcess - 1;
        var frame := Frame(pcb[newProcess].savedEsp, pcb[newProcess].savedEbp);
        tssEsp0 := pcb[newProcess].esp0;
        currentTid := tid;
        assert pcb[..] == Parked(old(Now()), here).pcbs;
        ctl := Resume(frame, 0);
      }
    }

    /** The first part of process_switch: the old process's frame and stack top go to its control block. */
    method SaveOld(here: Frame)
      requires Valid()
      modifies pcb
      ensures var k := old(Now()); Now() == k.(pcbs := Parked(k, here).pcbs)
    {
      var oldProcess := runningPid[currentTid];
      assert oldProcess == Now().running[currentTid];
      if 0 < oldProcess <= MAX_PID {
        pcb[oldProcess] := pcb[oldProcess].(savedEsp := here.esp, savedEbp := here.ebp);
        pcb[oldProcess] := pcb[oldProcess].(esp0 := tssEsp0);
      }
    }

    /** pit_irq */
    method PitIrq(here: Frame) returns (ctl: Control)
      requires Valid()
      modifies this, pidSt, pcb, runningPid
      ensures (Now(), ctl) == SwitchK(Loading(disk), old(Now()), here)
    {
      var tmpid := (currentTid + 1) % TERMINALS;
      ctl := ProcessSwitch(tmpid, here);
    }

    /** getargs, called by the current terminal's process (ArgsReachProgram says what is stored). */
    method GetArgs(buf: array<Byte>, nbytes: nat) returns (ret: int)
      requires Valid() && runningPid[currentTid] != -1 && nbytes <= buf.Length
      requires var stored := pcb[runningPid[currentTid]].args;
        |stored| == MAX_ARG_LENGTH && NUL in stored && exists k :: 0 <= k < StrLen(stored) && stored[k] != NEWLINE
      modifies buf
      ensures var stored := pcb[runningPid[currentTid]].args;
        && ret == (if StrLen(stored) > nbytes then -1 else 0)
        && (ret == 0 ==>
             buf[..nbytes] == Padded(stored[..StrLen(stored)], nbytes) && buf[nbytes..] == old(buf[nbytes..]))
    {
      ret := Command.GetArgs(pcb[runningPid[currentTid]].args, buf, nbytes);
    }
  }

  /** The first part of execute: clear two buffers and split the command into them. */
  method Parse(command: seq<Byte>) returns (name: seq<Byte>, args: seq<Byte>)
    requires NulFree(command)
    ensures name == Padded(NameOf(command), FILE_NAME)
    ensures args == Padded(ArgsOf(command), MAX_ARG_LENGTH)
    ensures |ArgsOf(command)| < MAX_ARG_LENGTH && NulFree(ArgsOf(command))
  {
    var fname := new Byte[FILE_NAME](_ => NUL);
    var farg := new Byte[MAX_ARG_LENGTH](_ => NUL);
    assert fname[..] == Zeros(FILE_NAME) && farg[..] == Zeros(MAX_ARG_LENGTH);
    HandleCommand(command, fname, farg);
    StoredArgsTerminated(command);
    return fname[..], farg[..];
  }

  lemma ShellCommand()
    ensures NulFree(SHELL) && NameOf(SHELL) == SHELL && ArgsOf(SHELL) == []
    ensures |SHELL| == 5 && forall i | 0 <= i < 5 :: SHELL[i] == "shell"[i] as int
  {
  }

  /** The assumption of the run theorems: the disk holds an executable called shell. */
  lemma ShellLoads(disk: Disk)
    requires Sane(disk)
    ensures Loading(disk)(Padded(SHELL, FILE_NAME))
       <==> Names(disk, SHELL)
  {
    ShellCommand();
    assert FirstWord(SHELL) == SHELL;
    WordDecides(disk, SHELL);
  }
}
