/** The read-only file system's data path: read_data and read_f of student-distrib/filesys.c, and the
    program syscalls/ece391cat.c that reads a file to its end. */
module FileSystem {
  import opened Common
  import opened CString

  const BLOCK_SIZE := 4096
  const INODE_BLK := 1023

  datatype Inode = Inode(size: nat, blocks: seq<nat>)

  /** A data block area and one file in it: every block that holds some of the file exists. */
  ghost predicate WellFormed(area: seq<seq<Byte>>, f: Inode) {
    && |f.blocks| == INODE_BLK && f.size <= INODE_BLK * BLOCK_SIZE
    && (forall b | 0 <= b < |area| :: |area[b]| == BLOCK_SIZE)
    && (forall i | 0 <= i < INODE_BLK && i * BLOCK_SIZE < f.size :: f.blocks[i] < |area|)
  }

  /** The bytes of the file, in order. */
  ghost function Content(area: seq<seq<Byte>>, f: Inode): (c: seq<Byte>)
    requires WellFormed(area, f)
    ensures |c| == f.size
  {
    seq(f.size, k requires 0 <= k < f.size => (BlockOf(f, k); area[f.blocks[k / BLOCK_SIZE]][k % BLOCK_SIZE]))
  }

  lemma BlockOf(f: Inode, k: nat)
    requires k < f.size <= INODE_BLK * BLOCK_SIZE
    ensures k / BLOCK_SIZE < INODE_BLK && k / BLOCK_SIZE * BLOCK_SIZE <= k && k % BLOCK_SIZE < BLOCK_SIZE
  {
  }

  /** What a read of n bytes at offset off should give. */
  function Slice(c: seq<Byte>, off: nat, n: nat): (s: seq<Byte>)
    ensures |s| <= n
  {
    if off >= |c| then [] else c[off..Min(off + n, |c|)]
  }

  lemma Join(c: seq<Byte>, i: nat, j: nat, k: nat)
    requires i <= j <= k <= |c|
    ensures c[i..j] + c[j..k] == c[i..k]
  {
  }

  /** now is was, with s stored at position at. */
  ghost predicate Filled(now: seq<Byte>, was: seq<Byte>, at: nat, s: seq<Byte>) {
    at + |s| <= |was| && now == was[..at] + s + was[at + |s|..]
  }

  lemma FilledNone(was: seq<Byte>, at: nat)
    requires at <= |was|
    ensures forall s: seq<Byte> {:trigger Filled(was, was, at, s)} | s == [] :: Filled(was, was, at, s)
  {
  }

  lemma FilledMore(now: seq<Byte>, mid: seq<Byte>, was: seq<Byte>, at: nat, s: seq<Byte>, t: seq<Byte>)
    requires Filled(mid, was, at, s) && Filled(now, mid, at + |s|, t)
    ensures Filled(now, was, at, s + t)
  {
  }

  /** memcpy */
  method MemCpy(buf: array<Byte>, at: nat, src: seq<Byte>, from: nat, count: nat)
    requires at + count <= buf.Length && from + count <= |src|
    modifies buf
    ensures Filled(buf[..], old(buf[..]), at, src[from..from + count])
  {
    var i := 0;
    while i < count
      invariant 0 <= i <= count
      invariant buf[..at + i] == old(buf[..at]) + src[from..from + i]
      invariant buf[at + i..] == old(buf[at + i..])
    {
      buf[at + i] := src[from + i];
      i := i + 1;
    }
    assert buf[..] == buf[..at + count] + buf[at + count..];
  }

  /** One block's share of a file: bytes lo..hi of the file, all in block i. */
  lemma BlockSlice(area: seq<seq<Byte>>, f: Inode, i: nat, lo: nat, hi: nat)
    requires WellFormed(area, f) && i * BLOCK_SIZE <= lo < hi <= f.size && hi <= (i + 1) * BLOCK_SIZE
    ensures i < INODE_BLK && f.blocks[i] < |area|
    ensures area[f.blocks[i]][lo - i * BLOCK_SIZE..hi - i * BLOCK_SIZE] == Content(area, f)[lo..hi]
  {
    forall k | lo <= k < hi ensures Content(area, f)[k] == area[f.blocks[i]][k - i * BLOCK_SIZE] {
      assert k / BLOCK_SIZE == i && k % BLOCK_SIZE == k - i * BLOCK_SIZE;
    }
  }

  /** The first and the last block index that read_data visits. */
  function BlockIndex(off: nat): (i: nat)
    ensures i * BLOCK_SIZE <= off < (i + 1) * BLOCK_SIZE
  {
    off / BLOCK_SIZE
  }

  /** Copying bytes lo..hi of the file, all in block i; nothing is read when there are none. */
  method CopyShare(area: seq<seq<Byte>>, f: Inode, i: nat, lo: nat, hi: nat, buf: array<Byte>, at: nat)
    requires WellFormed(area, f) && i * BLOCK_SIZE <= lo <= hi <= f.size && hi <= (i + 1) * BLOCK_SIZE
    requires at + (hi - lo) <= buf.Length
    modifies buf
    ensures Filled(buf[..], old(buf[..]), at, Content(area, f)[lo..hi])
  {
    // For a file of the greatest size the last index is one past the table; nothing is then copied.
    var block := if i < INODE_BLK then f.blocks[i] else 0;
    if lo < hi {
      BlockSlice(area, f, i, lo, hi);
      MemCpy(buf, at, area[block], lo - i * BLOCK_SIZE, hi - lo);
    }
  }

  /** The block loop of read_data for an end that does not precede the offset. */
  method CopyBlocks(area: seq<seq<Byte>>, f: Inode, off: nat, end: nat, buf: array<Byte>, at: nat)
    returns (curBytes: nat)
    requires WellFormed(area, f) && off <= end <= f.size && at + (end - off) <= buf.Length
    modifies buf
    ensures curBytes == end - off
    ensures Filled(buf[..], old(buf[..]), at, Content(area, f)[off..end])
  {
    hide BlockIndex, Content, WellFormed, Filled;
    var first, last := BlockIndex(off), BlockIndex(end);
    var flag1 := first * BLOCK_SIZE != off;
    var flag2 := (last + 1) * BLOCK_SIZE != end;
    ghost var c := Content(area, f);
    curBytes := 0;
    var i := first;
    assert Filled(buf[..], buf[..], at, c[off..off]) by { FilledNone(buf[..], at); }
    while i <= last
      invariant first <= i <= last + 1
      invariant off + curBytes == if i == first then off else if i == last + 1 then end else i * BLOCK_SIZE
      invariant off + curBytes <= end
      invariant Filled(buf[..], old(buf[..]), at, c[off..off + curBytes])
    {
      var begin, stop := 0, BLOCK_SIZE;
      if flag1 && i == first { begin := off - i * BLOCK_SIZE; }
      if flag2 && i == last { stop := end - i * BLOCK_SIZE; }
      ghost var mid, lo, hi := buf[..], i * BLOCK_SIZE + begin, i * BLOCK_SIZE + stop;
      assert off <= lo == off + curBytes <= hi <= end;
      CopyShare(area, f, i, i * BLOCK_SIZE + begin, i * BLOCK_SIZE + stop, buf, at + curBytes);
      FilledMore(buf[..], mid, old(buf[..]), at, c[off..lo], c[lo..hi]);
      Join(c, off, lo, hi);
      curBytes := curBytes + (stop - begin);
      i := i + 1;
    }
  }

  datatype Outcome =
    | Stored(n: nat)   // this many bytes were stored
    | Overrun          // memcpy was given a count that wrapped around: nothing is known of memory from buf on

  /** The value of a sum of two unsigned 32-bit numbers. */
  function Wrap(x: nat): (w: nat)
    requires x < 2 * WORD
    ensures w == if x < WORD then x else x - WORD
  {
    x % WORD
  }

  /** read_data into &buf[at]. With 32-bit arguments whose sum does not wrap, any alignment of either end gives exactly
      the slice. If the sum wraps while off lies in the file, either no byte is stored and 0 returned, or, when both
      ends fall in one block, memcpy runs away. */
  method ReadData(area: seq<seq<Byte>>, f: Inode, off: nat, buf: array<Byte>, at: nat, length: nat) returns (r: Outcome)
    requires WellFormed(area, f) && off < WORD && length < WORD
    requires at + Min(length, if off < f.size then f.size - off else 0) <= buf.Length
    modifies buf
    ensures off >= f.size || off + length < WORD ==>
      var s := Slice(Content(area, f), off, length);
      r == Stored(|s|) && Filled(buf[..], old(buf[..]), at, s)
    ensures off < f.size && off + length >= WORD ==> r in {Stored(0), Overrun}
    ensures off < f.size && off + length >= WORD ==>
      (r == Overrun <==> BlockIndex(Wrap(off + length)) == BlockIndex(off))
    ensures off < f.size && off + length >= WORD && r == Stored(0) ==> buf[..] == old(buf[..])
  {
    if off >= f.size { return Stored(0); }
    hide Content, WellFormed, Filled, Wrap;
    var end := Wrap(off + length);
    if end > f.size { end := f.size; }
    if off <= end {
      var n := CopyBlocks(area, f, off, end, buf, at);
      return Stored(n);
    }
    // The sum wrapped. The block loop runs only if both ends fall in one block, and its one memcpy then gets a
    // count of nearly 2^32.
    return if BlockIndex(end) < BlockIndex(off) then Stored(0) else Overrun;
  }

  /** In that case there was something to read: the slice is delivered exactly when the offset is past the end or the
      sum does not wrap. No caller makes the sum wrap: OpenFile.Read shows it for every count that read lets through. */
  lemma WrapLosesData(c: seq<Byte>, off: nat, length: nat)
    requires |c| <= INODE_BLK * BLOCK_SIZE && off < WORD && length < WORD
    ensures off < |c| && off + length >= WORD ==> Slice(c, off, length) != []
  {
  }

  // ----- open files -----

  /** A file descriptor on a regular file. */
  class OpenFile {
    const area: seq<seq<Byte>>
    const f: Inode
    var pos: nat

    ghost predicate Valid()
      reads this
    {
      WellFormed(area, f) && pos <= f.size
    }

    ghost function Bytes(): (c: seq<Byte>)
      requires WellFormed(area, f)
      ensures |c| == f.size
    {
      Content(area, f)
    }

    constructor (area: seq<seq<Byte>>, f: Inode)
      requires WellFormed(area, f)
      ensures Valid() && pos == 0 && this.area == area && this.f == f
    {
      this.area, this.f, pos := area, f, 0;
    }

    /** read_f, for a count that the read system call lets through. */
    method Read(buf: array<Byte>, at: nat, nbytes: nat) returns (len: nat)
      requires Valid() && nbytes < WORD / 2 && at + nbytes <= buf.Length
      modifies this, buf
      ensures Valid()
      ensures var s := Slice(Bytes(), old(pos), nbytes);
        len == |s| && pos == old(pos) + len && Filled(buf[..], old(buf[..]), at, s)
      ensures len == Min(nbytes, f.size - old(pos)) && buf[at..at + len] == Bytes()[old(pos)..pos]
      ensures buf[..at] == old(buf[..at]) && buf[at + len..] == old(buf[at + len..])
    {
      var r := ReadData(area, f, pos, buf, at, nbytes);
      len := r.n;
      pos := pos + len;
    }
  }

  /** What reads of the given sizes, one after the other from off, give together. */
  function Gathered(c: seq<Byte>, off: nat, sizes: seq<nat>): seq<Byte>
    decreases sizes
  {
    if sizes == [] then []
    else var s := Slice(c, off, sizes[0]); s + Gathered(c, off + |s|, sizes[1..])
  }

  function Sum(sizes: seq<nat>): nat {
    if sizes == [] then 0 else sizes[0] + Sum(sizes[1..])
  }

  lemma GatheredFirst(c: seq<Byte>, off: nat, sizes: seq<nat>)
    requires off <= |c| && sizes != []
    ensures var mid := Min(off + sizes[0], |c|);
      off <= mid <= |c| && Gathered(c, off, sizes) == c[off..mid] + Gathered(c, mid, sizes[1..])
    ensures Sum(sizes) == sizes[0] + Sum(sizes[1..])
  {
    var s, mid := Slice(c, off, sizes[0]), Min(off + sizes[0], |c|);
    assert s == c[off..mid];
    hide Slice;
    assert off + |s| == mid;
  }

  lemma MinTwice(a: nat, b: nat, c: nat, limit: nat)
    requires a <= limit
    ensures a <= Min(a + b, limit) <= Min(Min(a + b, limit) + c, limit) == Min(a + (b + c), limit) <= limit
  {
  }

  /** However a file is read, in pieces of any sizes, the pieces concatenate to what one read would give:
      the whole rest of the file once the sizes add up to it. */
  lemma {:induction false} ReadsConcatenate(c: seq<Byte>, off: nat, sizes: seq<nat>)
    requires off <= |c|
    ensures Gathered(c, off, sizes) == c[off..Min(off + Sum(sizes), |c|)]
    decreases sizes
  {
    if sizes == [] {
      assert Sum(sizes) == 0 && c[off..off] == [];
    } else {
      hide Slice, Gathered, Sum, Min;
      var mid, end := Min(off + sizes[0], |c|), Min(off + Sum(sizes), |c|);
      GatheredFirst(c, off, sizes);
      MinTwice(off, sizes[0], Sum(sizes[1..]), |c|);
      ReadsConcatenate(c, mid, sizes[1..]);
      Join(c, off, mid, end);
    }
  }

  /** ece391cat once its file is open: read into one buffer and write it out until nothing is left. */
  method Cat(file: OpenFile) returns (written: seq<Byte>)
    requires file.Valid()
    modifies file
    ensures file.Valid() && file.pos == file.f.size
    ensures written == file.Bytes()[old(file.pos)..]
  {
    hide WellFormed, Content, Filled;
    var buf := new Byte[1024];
    ghost var c, start := file.Bytes(), file.pos;
    written := [];
    ghost var got := file.pos;   // where the bytes in buf begin
    var cnt := file.Read(buf, 0, 1024);
    while cnt != 0
      invariant file.Valid() && file.Bytes() == c && start <= got && file.pos == got + cnt && 0 <= cnt <= 1024
      invariant buf[..cnt] == c[got..file.pos] && written == c[start..got]
      invariant cnt == 0 ==> file.pos == |c|
      decreases |c| - got
    {
      written := written + buf[..cnt];
      Join(c, start, got, file.pos);
      got := file.pos;
      cnt := file.Read(buf, 0, 1024);
    }
  }
}
