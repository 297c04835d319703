/** A process's file descriptor table: open, close, and what execute and halt do to it (student-distrib/syscall.c). */
module Descriptors {
  import opened Common
  import opened CString

  const FILES := 8       // entries of the table
  const REAL_FILE := 2   // the first two are the terminal's
  const ROOT_FD := 2
  const FILE_FD := 3

  /** Which device's functions an entry points to. */
  datatype Ops = NoOps | TerminalOps | RtcOps | DirectoryOps | FileOps

  datatype Descriptor = Descriptor(open: bool, inode: nat, pos: nat, ops: Ops)

  const CLOSED := Descriptor(false, 0, 0, NoOps)

  type Files = f: seq<Descriptor> | |f| == FILES witness seq(FILES, _ => CLOSED)

  /** Every open entry points to functions. */
  ghost predicate Wired(f: Files) {
    forall i | 0 <= i < FILES && f[i].open :: f[i].ops != NoOps
  }

  /** A program called gr... has its descriptors rewritten. */
  predicate Rewritten(name: seq<Byte>) {
    |name| >= 2 && name[0] == 103 && name[1] == 114
  }

  function Effective(name: seq<Byte>, fd: int): int {
    if Rewritten(name) && fd != ROOT_FD then FILE_FD else fd
  }

  /** The table that execute gives a new program: the function pointers of unused entries are left as they were. */
  function Started(f: Files): (r: Files)
    ensures Wired(r) && forall i | 0 <= i < FILES :: r[i].open <==> i < REAL_FILE
  {
    seq(FILES, i requires 0 <= i < FILES =>
      if i < REAL_FILE then Descriptor(true, 0, 0, TerminalOps) else Descriptor(false, 0, 0, f[i].ops))
  }

  /** The first free entry from i on. */
  function FreeFrom(f: Files, i: nat): (r: int)
    requires i <= FILES
    ensures r == -1 || i <= r < FILES
    ensures r != -1 ==> !f[r].open && forall j | i <= j < r :: f[j].open
    ensures r == -1 ==> forall j | i <= j < FILES :: f[j].open
    decreases FILES - i
  {
    if i == FILES then -1 else if !f[i].open then i else FreeFrom(f, i + 1)
  }

  function OpsOf(kind: nat): Ops {
    if kind == 0 then RtcOps else if kind == 1 then DirectoryOps else FileOps
  }

  /** open of a file that exists: the table and the descriptor returned. */
  function Opened(f: Files, kind: nat, inode: nat): (Files, int) {
    var i := FreeFrom(f, REAL_FILE);
    if i == -1 then (f, -1) else (f[i := Descriptor(true, inode, 0, OpsOf(kind))], i)
  }

  /** close: the table and the return value. The devices' own close functions always succeed. */
  function Closed(name: seq<Byte>, f: Files, fd: int): (Files, int) {
    var e := Effective(name, fd);
    if e < REAL_FILE || e >= FILES || f[e].ops == NoOps || !f[e].open then (f, -1) else (f[e := CLOSED], 0)
  }

  /** halt's loop: each open entry from i on is closed. */
  function ClosedFrom(name: seq<Byte>, f: Files, i: nat): Files
    requires i <= FILES
    decreases FILES - i
  {
    if i == FILES then f else ClosedFrom(name, if f[i].open then Closed(name, f, i).0 else f, i + 1)
  }

  /** close answers 0 and frees one entry exactly when that entry is one of the last six, wired and open; the entry
      is the one asked for, but 3 for a program called gr... that asks for any other than 2. Otherwise it answers -1. */
  lemma CloseAnswers(name: seq<Byte>, f: Files, fd: int)
    ensures var e := if |name| >= 2 && name[0] == 103 && name[1] == 114 && fd != 2 then 3 else fd;
      var (g, ret) := Closed(name, f, fd);
      && (ret == 0 <==> 2 <= e < 8 && f[e].open && f[e].ops != NoOps)
      && (ret != 0 ==> ret == -1 && g == f)
      && (ret == 0 ==>
           && !g[e].open && g[e].inode == 0 && g[e].pos == 0 && g[e].ops == NoOps
           && forall i | 0 <= i < 8 && i != e :: g[i] == f[i])
  {
  }

  lemma OpenKeepsWired(name: seq<Byte>, f: Files, kind: nat, inode: nat, fd: int)
    requires Wired(f)
    ensures Wired(Opened(f, kind, inode).0) && Wired(Closed(name, f, fd).0)
  {
  }

  /** Closing the descriptor just opened succeeds and frees its entry, exactly when the program is not rewritten or the
      entry is one of the two that rewriting leaves alone; otherwise entry 3 is closed instead. */
  lemma OpenThenClose(name: seq<Byte>, f: Files, kind: nat, inode: nat)
    requires Wired(f) && Opened(f, kind, inode).1 != -1
    ensures var (g, fd) := Opened(f, kind, inode);
      var h := Closed(name, g, fd).0;
      h == f[fd := CLOSED] <==> !Rewritten(name) || fd <= FILE_FD
  {
    var (g, fd) := Opened(f, kind, inode);
    var h := Closed(name, g, fd).0;
    if Rewritten(name) && fd > FILE_FD {
      assert f[FILE_FD].open && h[fd].open;
    } else {
      assert h == g[fd := CLOSED];
    }
  }

  /** What halt's loop leaves: of an ordinary program nothing from entry i on is open; of a rewritten one, entries 2 and
      3 are closed and the later ones stay as they were. */
  lemma {:induction false} LoopCloses(name: seq<Byte>, f: Files, i: nat)
    requires Wired(f) && REAL_FILE <= i <= FILES
    ensures var r := ClosedFrom(name, f, i);
      && (!Rewritten(name) ==> forall j | i <= j < FILES :: !r[j].open)
      && (!Rewritten(name) ==> forall j | 0 <= j < i :: r[j] == f[j])
      && (Rewritten(name) ==> forall j | 0 <= j < FILES && j != ROOT_FD && j != FILE_FD :: r[j] == f[j])
      && (Rewritten(name) && i == ROOT_FD ==> !r[ROOT_FD].open)
      && (Rewritten(name) && i > ROOT_FD ==> r[ROOT_FD] == f[ROOT_FD])
      && (Rewritten(name) && (i <= FILE_FD || !f[FILE_FD].open) ==> !r[FILE_FD].open)
    decreases FILES - i
  {
    if i < FILES {
      var g := if f[i].open then Closed(name, f, i).0 else f;
      LoopCloses(name, g, i + 1);
    }
  }

  /** halt closes every file of its process if and only if the program is not called gr... or has nothing open from
      descriptor 4 on. */
  lemma HaltCloses(name: seq<Byte>, f: Files)
    requires Wired(f)
    ensures (forall j | REAL_FILE <= j < FILES :: !ClosedFrom(name, f, REAL_FILE)[j].open)
       <==> !Rewritten(name) || forall j | FILE_FD < j < FILES :: !f[j].open
  {
    LoopCloses(name, f, REAL_FILE);
  }
}
