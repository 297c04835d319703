/** How execute finds its program: the name buffer it fills, the directory lookup and the executable check
    (student-distrib/syscall.c and filesys.c). */
module Loader {
  import opened Common
  import opened CString
  import opened Command
  import opened Directory
  import FileSystem

  const PROGRAM := 2      // the type of a regular file
  const HEADER := 40
  const ENTRY_AT := 24
  const MAGIC: seq<Byte> := [0x7F, 0x45, 0x4C, 0x46]

  /** What execute can find on the disk. `beyond` is what stands on the kernel stack behind the name buffer, up to the
      next NUL. */
  datatype Disk = Disk(boot: BootBlock, inodes: seq<FileSystem.Inode>, area: seq<seq<Byte>>,
                       beyond: seq<Byte> -> seq<Byte>)

  /** Every entry of program type has an inode whose blocks exist. */
  ghost predicate Sane(d: Disk) {
    && WellFormed(d.boot) && (forall buffer :: NulFree(d.beyond(buffer)))
    && (forall i | 0 <= i < d.boot.count && d.boot.entries[i].kind == PROGRAM ::
         d.boot.entries[i].inode < |d.inodes| && FileSystem.WellFormed(d.area, d.inodes[d.boot.entries[i].inode]))
  }

  /** The C string that starts at the name buffer. */
  function NameSeen(d: Disk, buffer: seq<Byte>): seq<Byte> {
    buffer[..StrLen(buffer)] + (if NUL in buffer then [] else d.beyond(buffer))
  }

  /** The little-endian word at a position. */
  function WordAt(s: seq<Byte>, at: nat): (w: nat)
    requires at + 4 <= |s|
    ensures w < WORD
  {
    var b0: int, b1: int, b2: int, b3: int := s[at], s[at + 1], s[at + 2], s[at + 3];
    b0 + 0x100 * b1 + 0x1_0000 * b2 + 0x100_0000 * b3
  }

  /** The bytes of an executable: a whole header, the magic number, and an entry point. The check returns the entry
      point itself, so the one that reads as -1 is taken for a failure. */
  ghost predicate ElfContent(c: seq<Byte>) {
    |c| >= HEADER && c[..|MAGIC|] == MAGIC && WordAt(c, ENTRY_AT) != WORD - 1
  }

  ghost predicate Executable(d: Disk, e: Dentry) {
    && e.kind == PROGRAM && e.inode < |d.inodes| && FileSystem.WellFormed(d.area, d.inodes[e.inode])
    && ElfContent(FileSystem.Content(d.area, d.inodes[e.inode]))
  }

  /** The entry of this exact name is a program. */
  ghost predicate Names(d: Disk, key: seq<Byte>)
    requires WellFormed(d.boot)
  {
    var i := IndexOf(d.boot, key, 0);
    i.Some? && Executable(d, d.boot.entries[i.value])
  }

  /** Does this name buffer lead to a program? */
  ghost predicate Loads(d: Disk, buffer: seq<Byte>)
    requires WellFormed(d.boot)
  {
    var e := Lookup(d.boot, NameSeen(d, buffer));
    e.Some? && Executable(d, e.value)
  }

  /** The same, as the kernel's handlers are given it. */
  ghost function Loading(d: Disk): seq<Byte> -> bool
    requires WellFormed(d.boot)
  {
    buffer => Loads(d, buffer)
  }

  /** handle_execuable_check */
  method CheckHeader(d: Disk, dentry: Dentry) returns (ret: int)
    requires dentry.kind == PROGRAM ==>
      dentry.inode < |d.inodes| && FileSystem.WellFormed(d.area, d.inodes[dentry.inode])
    ensures ret != -1 <==> Executable(d, dentry)
    ensures ret != -1 ==> ret == WordAt(FileSystem.Content(d.area, d.inodes[dentry.inode]), ENTRY_AT)
  {
    hide FileSystem.Content, FileSystem.WellFormed;
    if dentry.kind != PROGRAM { return -1; }
    var mybuf := new Byte[HEADER];
    ghost var c := FileSystem.Content(d.area, d.inodes[dentry.inode]);
    var r := FileSystem.ReadData(d.area, d.inodes[dentry.inode], 0, mybuf, 0, HEADER);
    if r.n != HEADER { return -1; }
    assert mybuf[..] == c[..HEADER];
    var i := 0;
    while i < |MAGIC|
      invariant 0 <= i <= |MAGIC| && c[..i] == MAGIC[..i]
    {
      assert mybuf[i] == mybuf[..][i] == c[i];
      if MAGIC[i] != mybuf[i] {
        assert c[..|MAGIC|][i] != MAGIC[i];
        return -1;
      }
      i := i + 1;
    }
    assert c[..|MAGIC|] == MAGIC;
    var entry := ReadEntryPoint(mybuf);
    assert entry == WordAt(mybuf[..], ENTRY_AT) == WordAt(c, ENTRY_AT);
    return if entry == WORD - 1 then -1 else entry;
  }

  /** The entry point, its highest byte first */
  method ReadEntryPoint(mybuf: array<Byte>) returns (retVal: nat)
    requires mybuf.Length == HEADER
    ensures retVal == WordAt(mybuf[..], ENTRY_AT)
  {
    retVal := 0;
    var i: int := 3;
    while i >= 0
      invariant -1 <= i <= 3
      invariant retVal == if i == 3 then 0 else if i == 2 then mybuf[27] as nat
        else if i == 1 then mybuf[26] + 0x100 * mybuf[27]
        else if i == 0 then mybuf[25] + 0x100 * mybuf[26] + 0x1_0000 * mybuf[27]
        else WordAt(mybuf[..], ENTRY_AT)
    {
      retVal := retVal * 0x100 + mybuf[i + ENTRY_AT];
      i := i - 1;
    }
  }

  /** An executable, byte by byte. */
  lemma ExecutableIs(d: Disk, e: Dentry)
    requires e.inode < |d.inodes| && FileSystem.WellFormed(d.area, d.inodes[e.inode])
    ensures var c := FileSystem.Content(d.area, d.inodes[e.inode]);
      Executable(d, e) <==>
        && e.kind == 2 && |c| >= 40 && c[0] == 0x7F && c[1] == 69 && c[2] == 76 && c[3] == 70
        && !(c[24] == 0xFF && c[25] == 0xFF && c[26] == 0xFF && c[27] == 0xFF)
  {
    hide FileSystem.Content, FileSystem.WellFormed;
    var c := FileSystem.Content(d.area, d.inodes[e.inode]);
    if |c| >= 40 { assert c[..4] == [c[0], c[1], c[2], c[3]]; }
  }

  /** The file checks of execute */
  method CheckFile(d: Disk, buffer: seq<Byte>) returns (ok: bool)
    requires Sane(d)
    ensures ok == Loads(d, buffer)
  {
    assert NulFree(NameSeen(d, buffer));
    var dentry := ReadDentryByName(d.boot, NameSeen(d, buffer));
    if dentry == None { return false; }
    var entry := CheckHeader(d, dentry.value);
    ok := entry != -1;
  }

  function FirstWord(c: seq<Byte>): seq<Byte> {
    c[..SpaceFrom(c, 0)]
  }

  /** The name buffer holds a NUL exactly when the command's first word has fewer than 32 bytes, and then it spells the
      word; otherwise it holds the word's first 32 bytes. */
  lemma NameSpelled(c: seq<Byte>)
    requires NulFree(c)
    ensures var buffer := Padded(NameOf(c), FILE_NAME);
      && (NUL in buffer <==> |FirstWord(c)| < FILE_NAME)
      && (NUL in buffer ==> buffer[..StrLen(buffer)] == FirstWord(c))
      && (NUL !in buffer ==> buffer == FirstWord(c)[..FILE_NAME] && StrLen(buffer) == FILE_NAME)
  {
    var buffer, word := Padded(NameOf(c), FILE_NAME), FirstWord(c);
    if |word| < FILE_NAME {
      assert buffer[|word|] == NUL && buffer[..|word|] == word;
      StrLenUnique(buffer, |word|);
    } else {
      assert buffer == c[..FILE_NAME];
      assert forall k | 0 <= k < FILE_NAME :: buffer[k] == c[k];
      StrLenUnique(buffer, FILE_NAME);
    }
  }

  /** execute loads a program exactly when the directory entry that its command's first word names is one, for every
      word of fewer than 32 bytes and whatever stands behind the buffer. */
  lemma WordDecides(d: Disk, c: seq<Byte>)
    requires Sane(d) && NulFree(c) && |FirstWord(c)| < FILE_NAME
    ensures Loading(d)(Padded(NameOf(c), FILE_NAME)) <==> Names(d, Key(FirstWord(c)))
  {
    NameSpelled(c);
    assert FirstWord(c) + [] == FirstWord(c);
  }

  /** Of a longer word the first 32 bytes are looked up, and only if nothing or just a carriage return stands behind the
      buffer: the return is dropped, and so is one that ends the 32 bytes. Anything else makes the name too long. */
  lemma LongWordDecides(d: Disk, c: seq<Byte>)
    requires Sane(d) && NulFree(c) && |FirstWord(c)| >= FILE_NAME
    ensures var w := FirstWord(c)[..FILE_NAME];
      Loading(d)(Padded(NameOf(c), FILE_NAME)) <==>
        (d.beyond(w) == [] && Names(d, Key(w))) || (d.beyond(w) == [ENTER] && Names(d, w))
  {
    NameSpelled(c);
    var w := FirstWord(c)[..FILE_NAME];
    var b := d.beyond(w);
    var name := NameSeen(d, w);
    assert w[..FILE_NAME] == w && name == w + b;
    if b == [] {
      assert name == w;
    } else if b == [ENTER] {
      assert Key(name) == w;
    } else {
      assert |Key(name)| > FILE_NAME;
    }
  }

  /** So for a program with a name of 32 bytes the outcome depends on what happens to stand there. */
  lemma LongWordStrays(d: Disk, c: seq<Byte>)
    requires Sane(d) && NulFree(c) && |FirstWord(c)| >= FILE_NAME
    requires var w := FirstWord(c)[..FILE_NAME]; w[FILE_NAME - 1] != ENTER && Names(d, w)
    ensures Loading(d.(beyond := _ => []))(Padded(NameOf(c), FILE_NAME))
    ensures Loading(d.(beyond := _ => [ENTER]))(Padded(NameOf(c), FILE_NAME))
    ensures !Loading(d.(beyond := _ => [SPACE]))(Padded(NameOf(c), FILE_NAME))
  {
    var nothing, enter, blank := d.(beyond := _ => []), d.(beyond := _ => [ENTER]), d.(beyond := _ => [SPACE]);
    assert Sane(nothing) && Sane(enter) && Sane(blank);
    LongWordDecides(nothing, c);
    LongWordDecides(enter, c);
    LongWordDecides(blank, c);
  }
}
