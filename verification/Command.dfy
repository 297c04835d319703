/** Splitting a command line (handle_command) and handing its tail to the program (getargs):
    student-distrib/syscall.c. */
module Command {
  import opened Common
  import opened CString

  const MAX_ARG_LENGTH := 128

  /** The first space at or after i, or the end. */
  function SpaceFrom(c: seq<Byte>, i: nat): (j: nat)
    requires i <= |c|
    ensures i <= j <= |c|
    ensures forall k | i <= k < j :: c[k] != SPACE
    ensures j < |c| ==> c[j] == SPACE
    decreases |c| - i
  {
    if i == |c| || c[i] == SPACE then i else SpaceFrom(c, i + 1)
  }

  /** The first byte at or after i that is not a space, or the end. */
  function NonSpaceFrom(c: seq<Byte>, i: nat): (j: nat)
    requires i <= |c|
    ensures i <= j <= |c|
    ensures forall k | i <= k < j :: c[k] == SPACE
    ensures j < |c| ==> c[j] != SPACE
    decreases |c| - i
  {
    if i == |c| || c[i] != SPACE then i else NonSpaceFrom(c, i + 1)
  }

  /** What execute takes as the program name: at most 32 bytes before the first space. */
  function NameOf(c: seq<Byte>): (n: seq<Byte>)
    ensures |n| <= FILE_NAME
  {
    c[..Min(FILE_NAME, SpaceFrom(c, 0))]
  }

  /** What execute keeps as the argument: no byte beyond the first 128 of the command counts. */
  function ArgsOf(c: seq<Byte>): (a: seq<Byte>)
    ensures |a| <= MAX_ARG_LENGTH
  {
    var start := NonSpaceFrom(c, |NameOf(c)|);
    if start <= Min(MAX_ARG_LENGTH, |c|) then c[start..Min(MAX_ARG_LENGTH, |c|)] else []
  }

  /** A zero-filled buffer holding s. */
  function Padded(s: seq<Byte>, n: nat): (p: seq<Byte>)
    requires |s| <= n
    ensures |p| == n
  {
    s + Zeros(n - |s|)
  }

  /** Its bytes and then zeros. */
  lemma PaddedIs(s: seq<Byte>, n: nat)
    requires |s| <= n
    ensures |Padded(s, n)| == n && forall k | 0 <= k < n :: Padded(s, n)[k] == if k < |s| then s[k] else 0
  {
  }

  lemma PaddedNone(n: nat)
    ensures Padded([], n) == Zeros(n)
  {
  }

  /** One more byte of c written behind those already there. */
  lemma PaddedMore(c: seq<Byte>, from: nat, to: nat, n: nat)
    requires from <= to < |c| && to - from < n
    ensures Padded(c[from..to], n)[to - from := c[to]] == Padded(c[from..to + 1], n)
    ensures c[0..to] == c[..to] && c[0..to + 1] == c[..to + 1]
  {
  }

  /** handle_command, on the two buffers that execute has just cleared. */
  method HandleCommand(command: seq<Byte>, fname: array<Byte>, farg: array<Byte>)
    requires NulFree(command)
    requires fname != farg && fname.Length == FILE_NAME && farg.Length == MAX_ARG_LENGTH
    requires fname[..] == Zeros(FILE_NAME) && farg[..] == Zeros(MAX_ARG_LENGTH)
    modifies fname, farg
    ensures fname[..] == Padded(NameOf(command), FILE_NAME)
    ensures farg[..] == Padded(ArgsOf(command), MAX_ARG_LENGTH)
  {
    hide Padded;
    PaddedNone(FILE_NAME);
    PaddedNone(MAX_ARG_LENGTH);
    var len := |command|;
    var i := 0;
    assert command[..0] == [];
    while i < FILE_NAME && i < len
      invariant 0 <= i <= FILE_NAME && i <= len
      invariant forall k | 0 <= k < i :: command[k] != SPACE
      invariant fname[..] == Padded(command[..i], FILE_NAME)
      invariant farg[..] == Zeros(MAX_ARG_LENGTH)
    {
      if command[i] == SPACE { break; }
      PaddedMore(command, 0, i, FILE_NAME);
      fname[i] := command[i];
      i := i + 1;
    }
    assert i == Min(FILE_NAME, SpaceFrom(command, 0));
    ghost var nameEnd := i;
    while i < len && command[i] == SPACE
      invariant nameEnd <= i <= len
      invariant forall k | nameEnd <= k < i :: command[k] == SPACE
    {
      i := i + 1;
    }
    ghost var start := i;
    assert start == NonSpaceFrom(command, nameEnd) && command[start..start] == [];
    var j := 0;
    while i < MAX_ARG_LENGTH && i < len
      invariant start <= i <= len && j == i - start && (start < i ==> i <= MAX_ARG_LENGTH)
      invariant farg[..] == Padded(command[start..i], MAX_ARG_LENGTH)
      invariant fname[..] == Padded(NameOf(command), FILE_NAME)
    {
      PaddedMore(command, start, i, MAX_ARG_LENGTH);
      farg[j] := command[i];
      i := i + 1;
      j := j + 1;
    }
  }

  /** Whatever the command, a NUL ends the stored argument, so getargs' strlen stays in the array. */
  lemma StoredArgsTerminated(c: seq<Byte>)
    requires NulFree(c)
    ensures |ArgsOf(c)| < MAX_ARG_LENGTH && NulFree(ArgsOf(c))
    ensures NUL in Padded(ArgsOf(c), MAX_ARG_LENGTH)
    ensures StrLen(Padded(ArgsOf(c), MAX_ARG_LENGTH)) == |ArgsOf(c)|
  {
    var a, p := ArgsOf(c), Padded(ArgsOf(c), MAX_ARG_LENGTH);
    if c != [] && c[0] == SPACE {
      assert NonSpaceFrom(c, |NameOf(c)|) > 0;
    }
    assert |a| < MAX_ARG_LENGTH;
    assert p[|a|] == NUL;
    assert p[..|a|] == a;
    StrLenUnique(p, |a|);
  }

  /** A command of the documented shape: a name of 1..32 bytes, spaces, and a remainder. */
  ghost predicate Shaped(name: seq<Byte>, gap: nat, rest: seq<Byte>) {
    && 1 <= |name| <= FILE_NAME && gap >= 1 && rest != [] && rest[0] != SPACE
    && (forall k | 0 <= k < |name| :: name[k] != SPACE)
  }

  function Line(name: seq<Byte>, gap: nat, rest: seq<Byte>): seq<Byte> {
    name + seq(gap, _ => SPACE) + rest
  }

  /** Where the name ends and the remainder begins. */
  lemma LineSplit(name: seq<Byte>, gap: nat, rest: seq<Byte>)
    requires Shaped(name, gap, rest)
    ensures var c := Line(name, gap, rest);
      && |c| == |name| + gap + |rest| && c[..|name|] == name && c[|name| + gap..] == rest
      && SpaceFrom(c, 0) == |name| && NonSpaceFrom(c, |name|) == |name| + gap
  {
    var c := Line(name, gap, rest);
    var n := |name|;
    assert forall k | 0 <= k < n :: c[k] == name[k];
    assert c[n] == SPACE;
    assert forall k | n <= k < n + gap :: c[k] == SPACE;
    assert c[n + gap] == rest[0];
  }

  /** The name always survives; the remainder survives exactly when the whole line fits in 128 bytes. */
  lemma CommandRoundTrip(name: seq<Byte>, gap: nat, rest: seq<Byte>)
    requires Shaped(name, gap, rest)
    ensures NameOf(Line(name, gap, rest)) == name
    ensures ArgsOf(Line(name, gap, rest)) == rest <==> |Line(name, gap, rest)| <= MAX_ARG_LENGTH
  {
    LineSplit(name, gap, rest);
    hide Line;
  }

  /** Exactly: of the remainder, what lies within the first 128 bytes of the line. */
  lemma ArgumentKept(name: seq<Byte>, gap: nat, rest: seq<Byte>)
    requires Shaped(name, gap, rest)
    ensures var room := 128 - |name| - gap;
      ArgsOf(Line(name, gap, rest)) == if room <= 0 then [] else if |rest| <= room then rest else rest[..room]
  {
    LineSplit(name, gap, rest);
    hide Line;
    var c, start := Line(name, gap, rest), |name| + gap;
    if start <= Min(128, |c|) { Window(c, start, Min(128, |c|)); }
  }

  lemma Window(c: seq<Byte>, i: nat, j: nat)
    requires i <= j <= |c|
    ensures c[i..j] == c[i..][..j - i]
  {
  }

  /** A command without spaces has no argument, as far as its name fits; of a longer one the rest is the argument. */
  lemma NoArgument(c: seq<Byte>)
    requires forall k | 0 <= k < |c| :: c[k] != SPACE
    ensures |c| <= 32 ==> NameOf(c) == c && ArgsOf(c) == []
    ensures 32 < |c| <= 128 ==> NameOf(c) == c[..32] && ArgsOf(c) == c[32..]
  {
    assert SpaceFrom(c, 0) == |c|;
    assert NonSpaceFrom(c, |NameOf(c)|) == |NameOf(c)|;
  }

  /** getargs on the calling process's stored arguments. `nbytes` is the room in buf. */
  method GetArgs(args: seq<Byte>, buf: array<Byte>, nbytes: nat) returns (ret: int)
    requires |args| == MAX_ARG_LENGTH && NUL in args && nbytes <= buf.Length
    // With no byte other than newlines the source scans below its own array.
    requires exists k :: 0 <= k < StrLen(args) && args[k] != NEWLINE
    modifies buf
    ensures ret == if StrLen(args) > nbytes then -1 else 0
    ensures ret == 0 ==> buf[..nbytes] == Padded(args[..StrLen(args)], nbytes) && buf[nbytes..] == old(buf[nbytes..])
    ensures ret == -1 ==> buf[..] == old(buf[..])
  {
    var tmpargs := new Byte[MAX_ARG_LENGTH];
    var i: int := 0;
    while i < MAX_ARG_LENGTH
      invariant 0 <= i <= MAX_ARG_LENGTH
      invariant tmpargs[..i] == args[..i]
      invariant buf[..] == old(buf[..])
    {
      tmpargs[i] := args[i];
      i := i + 1;
    }
    assert tmpargs[..] == args && tmpargs[0..] == args;
    var tmplen := Strlen(tmpargs, 0);
    if tmplen > nbytes { return -1; }
    ghost var w: nat :| w < tmplen && args[w] != NEWLINE;
    i := tmplen - 1;
    assert tmpargs[w] == args[..tmplen][w] != NUL;
    while tmpargs[i] == NEWLINE || tmpargs[i] == NUL
      invariant w <= i < tmplen
      invariant tmpargs[..] == args
      decreases i
    {
      i := i - 1;
    }
    if i == -1 { return -1; }
    Strncpy(buf, tmpargs, nbytes);
    assert nbytes == tmplen ==> Zeros(nbytes - tmplen) == [];
    return 0;
  }
}
