/** The directory of student-distrib/filesys.c: lookup by name and enumeration. */
module Directory {
  import opened Common
  import opened CString

  const MAX_FILES := 63

  datatype Dentry = Dentry(filename: seq<Byte>, kind: nat, inode: nat)

  /** The boot block: 63 slots of which the first `count` are entries. */
  datatype BootBlock = BootBlock(count: nat, entries: seq<Dentry>)

  ghost predicate WellFormed(b: BootBlock) {
    && |b.entries| == MAX_FILES && b.count <= MAX_FILES
    && (forall i | 0 <= i < MAX_FILES :: |b.entries[i].filename| == FILE_NAME)
  }

  /** An entry's name: up to the first NUL, all 32 bytes when there is none. */
  function Name(d: Dentry): (n: seq<Byte>) {
    d.filename[..StrLen(d.filename)]
  }

  /** What is looked up for a file name: one trailing carriage return is dropped. */
  function Key(fname: seq<Byte>): seq<Byte> {
    if fname != [] && fname[|fname| - 1] == ENTER then fname[..|fname| - 1] else fname
  }

  /** strncmp of the first n bytes: zero when they are the same string. */
  method Strncmp(s1: seq<Byte>, s2: seq<Byte>, n: nat) returns (r: int)
    requires n <= |s1| && n <= |s2| && NulFree(s2[..n])
    ensures r == 0 <==> s1[..n] == s2[..n]
  {
    var i := 0;
    while i < n
      invariant 0 <= i <= n && s1[..i] == s2[..i]
    {
      if s1[i] != s2[i] || s1[i] == NUL {
        assert s2[..n][i] == s2[i] && s1[..n][i] == s1[i];
        return (s1[i] as int) - (s2[i] as int);
      }
      i := i + 1;
    }
    return 0;
  }

  /** The first entry with this name. */
  function IndexOf(b: BootBlock, key: seq<Byte>, i: nat): (r: Option<nat>)
    requires b.count <= |b.entries| && i <= b.count
    ensures r.Some? ==> i <= r.value < b.count && Name(b.entries[r.value]) == key
    ensures r.Some? ==> forall j | i <= j < r.value :: Name(b.entries[j]) != key
    ensures r.None? ==> forall j | i <= j < b.count :: Name(b.entries[j]) != key
    decreases b.count - i
  {
    if i == b.count then None else if Name(b.entries[i]) == key then Some(i) else IndexOf(b, key, i + 1)
  }

  /** The entry that a lookup of the C string fname gives. */
  function Lookup(b: BootBlock, fname: seq<Byte>): Option<Dentry>
    requires b.count <= |b.entries|
  {
    var i := IndexOf(b, Key(fname), 0);
    if |Key(fname)| > FILE_NAME || i == None then None else Some(b.entries[i.value])
  }

  /** read_dentry_by_name. For the empty name the source tests the byte before the string for a carriage return, but its
      next loop makes the length 0 in either case. */
  method ReadDentryByName(b: BootBlock, fname: seq<Byte>) returns (r: Option<Dentry>)
    requires WellFormed(b) && NulFree(fname)
    ensures r == Lookup(b, fname)
  {
    var lengthOfName := |fname|;
    if lengthOfName > 0 && fname[lengthOfName - 1] == ENTER { lengthOfName := lengthOfName - 1; }
    if lengthOfName > FILE_NAME { return None; }
    assert Key(fname) == fname[..lengthOfName];
    var i := 0;
    while i < b.count
      invariant 0 <= i <= b.count
      invariant IndexOf(b, Key(fname), 0) == IndexOf(b, Key(fname), i)
    {
      var lengthOfD := StrLen(b.entries[i].filename);
      if lengthOfD == lengthOfName {
        var diff := Strncmp(b.entries[i].filename, fname, lengthOfName);
        if diff == 0 { return Some(b.entries[i]); }
      }
      i := i + 1;
    }
    return None;
  }

  ghost predicate UniqueNames(b: BootBlock) {
    b.count <= |b.entries| && forall i, j | 0 <= i < j < b.count :: Name(b.entries[i]) != Name(b.entries[j])
  }

  /** With unique names, looking an entry up by its own name finds that entry, exactly when the name does
      not end in a carriage return, which the lookup would drop. */
  lemma LookupFinds(b: BootBlock, i: nat)
    requires WellFormed(b) && UniqueNames(b) && i < b.count
    ensures var n := Name(b.entries[i]);
      Lookup(b, n) == Some(b.entries[i]) <==> n == [] || n[|n| - 1] != ENTER
  {
    var n := Name(b.entries[i]);
    var r := IndexOf(b, Key(n), 0);
    if n == [] || n[|n| - 1] != ENTER {
      assert r.Some?;
      assert Name(b.entries[r.value]) == n;
      assert r.value == i;
    } else {
      assert |Key(n)| != |n|;
    }
  }

  /** A name that no entry has, or one longer than 32 bytes, is not found. */
  lemma LookupFails(b: BootBlock, fname: seq<Byte>)
    requires WellFormed(b)
    ensures Lookup(b, fname) == None <==> forall i | 0 <= i < b.count :: Name(b.entries[i]) != Key(fname)
    ensures |Key(fname)| > FILE_NAME ==> Lookup(b, fname) == None
  {
  }

  /** One carriage return at the end of a name makes no difference to what is found. */
  lemma LookupDropsReturn(b: BootBlock, n: seq<Byte>)
    requires WellFormed(b) && (n == [] || n[|n| - 1] != 13)
    ensures Lookup(b, n + [13]) == Lookup(b, n)
  {
    assert (n + [13])[..|n|] == n;
  }

  // ----- enumeration -----

  /** mycopy of a whole number of words */
  method MyCopy(dst: array<Byte>, src: seq<Byte>, num: nat)
    requires num % 4 == 0 && num <= dst.Length && num <= |src|
    modifies dst
    ensures dst[..num] == src[..num] && dst[num..] == old(dst[num..])
  {
    var nchunks := num / 4;
    var i := 0;
    while i < nchunks
      invariant 0 <= i <= nchunks
      invariant dst[..4 * i] == src[..4 * i] && dst[num..] == old(dst[num..])
    {
      dst[4 * i], dst[4 * i + 1], dst[4 * i + 2], dst[4 * i + 3]
        := src[4 * i], src[4 * i + 1], src[4 * i + 2], src[4 * i + 3];
      i := i + 1;
    }
  }

  /** One read of the directory at position pos: the count it returns and the new position. */
  function ReadEntry(b: BootBlock, pos: nat): (int, nat)
    requires |b.entries| == MAX_FILES
  {
    if pos >= MAX_FILES then (-1, pos)
    else if Name(b.entries[pos]) == [] then (0, pos)
    else (FILE_NAME, pos + 1)
  }

  /** A descriptor open on the directory. */
  class DirectoryFile {
    const b: BootBlock
    var pos: nat

    constructor (b: BootBlock)
      ensures pos == 0 && this.b == b
    {
      this.b, pos := b, 0;
    }

    /** read_d for a request of whole words, at most one name */
    method Read(buf: array<Byte>, nbytes: nat) returns (ret: int)
      requires WellFormed(b) && nbytes % 4 == 0 && nbytes <= FILE_NAME && nbytes <= buf.Length
      modifies this, buf
      ensures (ret, pos) == ReadEntry(b, old(pos))
      ensures ret > 0 ==> buf[..nbytes] == b.entries[old(pos)].filename[..nbytes] && buf[nbytes..] == old(buf[nbytes..])
      ensures ret <= 0 ==> buf[..] == old(buf[..])
    {
      if pos >= MAX_FILES { return -1; }
      if StrLen(b.entries[pos].filename) == 0 { return 0; }
      MyCopy(buf, b.entries[pos].filename, nbytes);
      pos := pos + 1;
      return FILE_NAME;
    }
  }

  /** The names that repeated reads give from pos until one gives none, and what that last read returns. */
  function Listing(b: BootBlock, pos: nat): (seq<seq<Byte>>, int)
    requires |b.entries| == MAX_FILES
    decreases MAX_FILES - pos
  {
    var (ret, next) := ReadEntry(b, pos);
    if ret <= 0 then ([], ret)
    else var (names, last) := Listing(b, next); ([Name(b.entries[pos])] + names, last)
  }

  function NamesFrom(b: BootBlock, pos: nat): seq<seq<Byte>>
    requires pos <= b.count <= |b.entries|
    decreases b.count - pos
  {
    if pos == b.count then [] else [Name(b.entries[pos])] + NamesFrom(b, pos + 1)
  }

  /** Every entry's name once, in order; then 0, or, when all 63 slots are used, -1. */
  lemma {:induction false} Enumerates(b: BootBlock, pos: nat)
    requires WellFormed(b) && pos <= b.count
    requires forall i | 0 <= i < b.count :: Name(b.entries[i]) != []
    requires b.count < MAX_FILES ==> Name(b.entries[b.count]) == []
    ensures Listing(b, pos).0 == NamesFrom(b, pos)
    ensures Listing(b, pos).1 == 0 <==> b.count < MAX_FILES
    ensures Listing(b, pos).1 == -1 <==> b.count == MAX_FILES
    decreases b.count - pos
  {
    if pos < b.count { Enumerates(b, pos + 1); }
  }

  /** The names listed are those of the entries: position by position. */
  lemma {:induction false} NamesAt(b: BootBlock, pos: nat, k: nat)
    requires pos <= b.count <= |b.entries| && k < b.count - pos
    ensures |NamesFrom(b, pos)| == b.count - pos && NamesFrom(b, pos)[k] == Name(b.entries[pos + k])
    decreases b.count - pos
  {
    if pos + 1 < b.count { NamesAt(b, pos + 1, if k > 0 then k - 1 else 0); }
  }

  /** The copied buffer spells the entry's name: it is padded with what follows it in its 32 bytes. */
  lemma CopySpellsName(d: Dentry, buf: seq<Byte>)
    requires |d.filename| == FILE_NAME && |buf| > FILE_NAME && buf[..FILE_NAME] == d.filename && buf[FILE_NAME] == NUL
    ensures buf[..StrLen(buf)] == Name(d)
  {
    var n := StrLen(d.filename);
    assert forall k | 0 <= k < FILE_NAME :: buf[..FILE_NAME][k] == buf[k];
    assert buf[..n] == d.filename[..n];
    StrLenUnique(buf, n);
  }
}
