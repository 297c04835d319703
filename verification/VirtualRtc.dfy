/** The per-process virtual real-time clock of student-distrib/rtc.c. */
module VirtualRtc {
  import opened Common
  import opened Division

  const MAX_FREQ := 1024
  const MIN_FREQ := 2

  /** rtc_counter, rtc_maxcount and rtc_trigger of one process; a clock that is not open has maxcount 0. */
  datatype Clock = Clock(counter: int, maxcount: int, trigger: bool)

  ghost predicate Open(c: Clock) { 0 <= c.counter < c.maxcount }

  /** One hardware interrupt, seen by one clock. */
  function Tick(c: Clock): Clock {
    if c.maxcount == 0 then c
    else if c.counter + 1 >= c.maxcount then Clock(0, c.maxcount, true)
    else c.(counter := c.counter + 1)
  }

  function After(c: Clock, n: nat): Clock {
    if n == 0 then c else Tick(After(c, n - 1))
  }

  /** How often n interrupts fire a clock: its counter has just been reset. */
  function Fired(c: Clock, n: nat): nat {
    if n == 0 then 0
    else Fired(c, n - 1) + (if c.maxcount != 0 && After(c, n - 1).counter + 1 >= c.maxcount then 1 else 0)
  }

  /** Every process's clock ticks; entry 0 is no process. */
  function TickedAll(clocks: seq<Clock>): (r: seq<Clock>)
    ensures |r| == |clocks|
  {
    seq(|clocks|, pid requires 0 <= pid < |clocks| => if pid == 0 then clocks[0] else Tick(clocks[pid]))
  }

  /** RTC_irq */
  method Irq(clocks: array<Clock>)
    requires clocks.Length == MAX_PID + 1
    modifies clocks
    ensures clocks[..] == TickedAll(old(clocks[..]))
    ensures forall pid | 1 <= pid <= MAX_PID :: clocks[pid] == Tick(old(clocks[pid]))
    ensures clocks[0] == old(clocks[0])
  {
    var i := 1;
    while i <= MAX_PID
      invariant 1 <= i <= MAX_PID + 1
      invariant forall pid | 1 <= pid < i :: clocks[pid] == Tick(old(clocks[pid]))
      invariant forall pid | i <= pid <= MAX_PID :: clocks[pid] == old(clocks[pid])
      invariant clocks[0] == old(clocks[0])
    {
      if clocks[i].maxcount != 0 {
        clocks[i] := clocks[i].(counter := clocks[i].counter + 1);
        if clocks[i].counter >= clocks[i].maxcount {
          clocks[i] := clocks[i].(trigger := true);
          clocks[i] := clocks[i].(counter := 0);
        }
      }
      i := i + 1;
    }
  }

  /** rtc_open: two interrupts a second. */
  method RtcOpen(clocks: array<Clock>, pid: nat)
    requires 1 <= pid < clocks.Length
    modifies clocks
    ensures clocks[..] == old(clocks[..])[pid := Clock(0, 512, false)]
  {
    clocks[pid] := clocks[pid].(counter := 0);
    clocks[pid] := clocks[pid].(maxcount := MAX_FREQ / MIN_FREQ);
    clocks[pid] := clocks[pid].(trigger := false);
  }

  method RtcClose(clocks: array<Clock>, pid: nat)
    requires 1 <= pid < clocks.Length
    modifies clocks
    ensures clocks[..] == old(clocks[..])[pid := Clock(0, 0, false)]
  {
    clocks[pid] := Clock(0, 0, false);
  }

  /** The frequency that a request is answered with, and its period in interrupts. */
  function Clamped(freq: int): (f: int)
    ensures MIN_FREQ <= f <= MAX_FREQ && (MIN_FREQ <= freq <= MAX_FREQ ==> f == freq)
    ensures (freq < 2 ==> f == 2) && (freq > 1024 ==> f == 1024)
  {
    if freq > MAX_FREQ then MAX_FREQ else if freq < MIN_FREQ then MIN_FREQ else freq
  }

  function PeriodOf(f: int): (m: int)
    requires MIN_FREQ <= f <= MAX_FREQ
    ensures m >= 1 && m * f <= MAX_FREQ < (m + 1) * f
  {
    MAX_FREQ / f
  }

  /** rtc_write; a null buffer is None. */
  method RtcWrite(clocks: array<Clock>, pid: nat, buf: seq<int>, nbytes: int) returns (ret: int)
    requires 1 <= pid < clocks.Length && |buf| <= 1
    modifies clocks
    ensures buf == [] || nbytes != 4 ==> ret == -1 && clocks[..] == old(clocks[..])
    ensures buf != [] && nbytes == 4 ==>
      ret == 4 && clocks[..] == old(clocks[..])[pid := Clock(0, PeriodOf(Clamped(buf[0])), old(clocks[pid]).trigger)]
  {
    if buf == [] || nbytes != 4 { return -1; }
    var freq := buf[0];
    if freq > MAX_FREQ { freq := MAX_FREQ; }
    if freq < MIN_FREQ { freq := MIN_FREQ; }
    clocks[pid] := clocks[pid].(maxcount := MAX_FREQ / freq);
    clocks[pid] := clocks[pid].(counter := 0);
    return 4;
  }

  /** Every interrupt is either counted or fires the clock. */
  lemma {:induction false} Conserved(c: Clock, n: nat)
    requires Open(c)
    ensures Open(After(c, n)) && After(c, n).maxcount == c.maxcount
    ensures Fired(c, n) * c.maxcount + After(c, n).counter == c.counter + n
  {
    if n > 0 {
      Conserved(c, n - 1);
      Distribute(Fired(c, n - 1), -1, c.maxcount);
    }
  }

  /** After n interrupts a clock has fired (c + n) / maxcount times and its counter is the remainder. */
  lemma ClosedForm(c: Clock, n: nat)
    requires Open(c)
    ensures After(c, n).counter == (c.counter + n) % c.maxcount
    ensures Fired(c, n) == (c.counter + n) / c.maxcount
  {
    Conserved(c, n);
    hide After, Fired;
    DivisionIs(c.counter + n, c.maxcount, Fired(c, n), After(c, n).counter);
  }

  // ----- all clocks together -----

  /** What happens to the clocks: an interrupt, or a call by process pid. A read that returns has only cleared the
      trigger; what it waits for is ReadWaits. */
  datatype Event = Interrupt | OpenBy(pid: nat) | CloseBy(pid: nat) | WriteBy(pid: nat, freq: int) | ReadBy(pid: nat)

  function Set(clocks: seq<Clock>, pid: nat, c: Clock): (r: seq<Clock>)
    ensures |r| == |clocks|
  {
    if 1 <= pid < |clocks| then clocks[pid := c] else clocks
  }

  /** What RtcOpen, RtcClose, RtcWrite and Irq make of the clocks. */
  function Step(clocks: seq<Clock>, e: Event): (r: seq<Clock>)
    requires |clocks| == MAX_PID + 1
    ensures |r| == MAX_PID + 1
  {
    match e
    case Interrupt => TickedAll(clocks)
    case OpenBy(pid) => Set(clocks, pid, Clock(0, PeriodOf(MIN_FREQ), false))
    case CloseBy(pid) => Set(clocks, pid, Clock(0, 0, false))
    case WriteBy(pid, freq) =>
      if 1 <= pid < |clocks| then Set(clocks, pid, Clock(0, PeriodOf(Clamped(freq)), clocks[pid].trigger)) else clocks
    case ReadBy(pid) => if 1 <= pid < |clocks| then Set(clocks, pid, clocks[pid].(trigger := false)) else clocks
  }

  function Run(clocks: seq<Clock>, es: seq<Event>): (r: seq<Clock>)
    requires |clocks| == MAX_PID + 1
    ensures |r| == MAX_PID + 1
    decreases es
  {
    if es == [] then clocks else Run(Step(clocks, es[0]), es[1..])
  }

  function Interrupts(es: seq<Event>): nat {
    if es == [] then 0 else (if es[0].Interrupt? then 1 else 0) + Interrupts(es[1..])
  }

  /** How often the clock of process pid fires during the run. */
  function Firings(clocks: seq<Clock>, es: seq<Event>, pid: nat): nat
    requires |clocks| == MAX_PID + 1 && pid <= MAX_PID
    decreases es
  {
    if es == [] then 0
    else (if es[0].Interrupt? then Fired(clocks[pid], 1) else 0) + Firings(Step(clocks, es[0]), es[1..], pid)
  }

  /** Process pid neither opens, closes nor writes its clock; its reads, and all that others do, are allowed. */
  predicate LeavesAlone(e: Event, pid: nat) {
    (e.OpenBy? || e.CloseBy? || e.WriteBy?) ==> e.pid != pid
  }

  lemma StepLeaves(clocks: seq<Clock>, e: Event, pid: nat)
    requires |clocks| == MAX_PID + 1 && 1 <= pid <= MAX_PID && LeavesAlone(e, pid)
    ensures Step(clocks, e)[pid].maxcount == clocks[pid].maxcount
    ensures Step(clocks, e)[pid].counter == if e.Interrupt? then Tick(clocks[pid]).counter else clocks[pid].counter
  {
  }

  /** Every clock is on its own: whatever other processes do with theirs between the interrupts, and however often its
      own process reads it, a clock that fires every maxcount interrupts has after n of them fired (counter + n) /
      maxcount times, and its counter is the remainder. */
  lemma {:induction false} ClocksApart(clocks: seq<Clock>, es: seq<Event>, pid: nat)
    requires |clocks| == MAX_PID + 1 && 1 <= pid <= MAX_PID && Open(clocks[pid])
    requires forall e | e in es :: LeavesAlone(e, pid)
    ensures var c, r, n := clocks[pid], Run(clocks, es)[pid], Interrupts(es);
      && r.maxcount == c.maxcount && r.counter == (c.counter + n) % c.maxcount
      && Firings(clocks, es, pid) == (c.counter + n) / c.maxcount
    decreases es
  {
    RunConserves(clocks, es, pid);
    var c, r := clocks[pid], Run(clocks, es)[pid];
    DivisionIs(c.counter + Interrupts(es), c.maxcount, Firings(clocks, es, pid), r.counter);
  }

  lemma {:induction false} RunConserves(clocks: seq<Clock>, es: seq<Event>, pid: nat)
    requires |clocks| == MAX_PID + 1 && 1 <= pid <= MAX_PID && Open(clocks[pid])
    requires forall e | e in es :: LeavesAlone(e, pid)
    ensures var c, r := clocks[pid], Run(clocks, es)[pid];
      && Open(r) && r.maxcount == c.maxcount
      && Firings(clocks, es, pid) * c.maxcount + r.counter == c.counter + Interrupts(es)
    decreases es
  {
    hide Step, Tick;
    if es != [] {
      var c, next := clocks[pid], Step(clocks, es[0]);
      StepLeaves(clocks, es[0], pid);
      Conserved(c, 1);
      OneTick(c);
      RunConserves(next, es[1..], pid);
      var now: int, later: int := Fired(c, 1), Firings(next, es[1..], pid);
      Distribute(now, -later, c.maxcount);
    }
  }

  lemma OneTick(c: Clock)
    ensures After(c, 1) == Tick(c)
    ensures Open(c) ==> Open(Tick(c))
  {
    assert After(c, 0) == c;
  }

  /** rtc_read clears the trigger and waits: it returns at interrupt maxcount - counter, which is between
      1 and maxcount, and not before; and a clock that is not open never lets it return. */
  lemma {:induction false} ReadWaits(c: Clock, n: nat)
    ensures Open(c) ==> 1 <= c.maxcount - c.counter <= c.maxcount
    ensures Open(c) ==> (After(c.(trigger := false), n).trigger <==> n >= c.maxcount - c.counter)
    ensures Open(c) && n < c.maxcount - c.counter ==> After(c.(trigger := false), n).counter == c.counter + n
    ensures c.maxcount == 0 ==> !After(c.(trigger := false), n).trigger && After(c.(trigger := false), n).maxcount == 0
    ensures After(c.(trigger := false), n).maxcount == c.maxcount
  {
    if n > 0 { ReadWaits(c, n - 1); }
  }

  /** A clock written at frequency f fires at least f times in any 1024 interrupts, and exactly f times
      whenever f divides 1024, as the powers of two do. */
  lemma Frequency(c: Clock, f: int)
    requires Open(c) && MIN_FREQ <= f <= MAX_FREQ && c.maxcount == PeriodOf(f)
    ensures Fired(c, MAX_FREQ) >= f
    ensures MAX_FREQ % f == 0 ==> Fired(c, MAX_FREQ) == f
  {
    Conserved(c, MAX_FREQ);
    if MAX_FREQ % f == 0 { DividesExactly(f); }
    Quotients(c.maxcount, f, Fired(c, MAX_FREQ), After(c, MAX_FREQ).counter, c.counter);
  }

  lemma DividesExactly(f: int)
    requires MIN_FREQ <= f <= MAX_FREQ && MAX_FREQ % f == 0
    ensures PeriodOf(f) * f == MAX_FREQ
  {
  }

  lemma Quotients(m: int, f: int, q: int, r: int, c: int)
    requires 0 <= r < m && 0 <= c < m && m * f <= MAX_FREQ && q * m + r == c + MAX_FREQ
    ensures q >= f
    ensures m * f == MAX_FREQ ==> q == f
  {
    assert f * m == m * f;
    Distribute(q, f, m);
    AtLeast(q - f, m);
  }
}
