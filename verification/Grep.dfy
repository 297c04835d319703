/** The sliding-buffer line search of syscalls/ece391grep.c, against a search of the whole file. */
module Grep {
  import opened CString
  import opened FileSystem

  const BUFSIZE := 1024
  const COLON: Byte := 58

  // ----- what grep is for -----

  ghost predicate OneLine(s: seq<Byte>) {
    forall k | 0 <= k < |s| :: s[k] != NEWLINE
  }

  /** The first newline, or the end. */
  function NewlineIn(c: seq<Byte>): (i: nat)
    ensures i <= |c| && OneLine(c[..i])
    ensures i < |c| ==> c[i] == NEWLINE
  {
    if c == [] || c[0] == NEWLINE then 0
    else
      var i := NewlineIn(c[1..]) + 1;
      assert c[..i] == [c[0]] + c[1..][..i - 1];
      i
  }

  /** The lines of a text, without their newlines. */
  function LinesOf(c: seq<Byte>): seq<seq<Byte>>
    decreases |c|
  {
    var i := NewlineIn(c);
    if i == |c| then [c] else [c[..i]] + LinesOf(c[i + 1..])
  }

  ghost predicate MatchAt(line: seq<Byte>, p: seq<Byte>, i: nat) {
    i + |p| <= |line| && line[i..i + |p|] == p
  }

  ghost predicate Contains(line: seq<Byte>, p: seq<Byte>) {
    exists i: nat :: MatchAt(line, p, i)
  }

  /** Those of the lines that contain p, in order, each as often as it occurs. */
  ghost function Matching(lines: seq<seq<Byte>>, p: seq<Byte>): seq<seq<Byte>> {
    if lines == [] then []
    else (if Contains(lines[0], p) then [lines[0]] else []) + Matching(lines[1..], p)
  }

  // ----- what the program finds -----

  /** A line as the buffer holds it: in pieces of 1024 bytes. */
  function Pieces(line: seq<Byte>): seq<seq<Byte>> {
    if |line| <= BUFSIZE then [line] else [line[..BUFSIZE]] + Pieces(line[BUFSIZE..])
  }

  function AllPieces(lines: seq<seq<Byte>>): seq<seq<Byte>> {
    if lines == [] then [] else Pieces(lines[0]) + AllPieces(lines[1..])
  }

  /** A byte read through the pattern's type: `char` is signed, the buffer's bytes are not. */
  function Signed(b: Byte): int {
    if b < 128 then b else b - 256
  }

  /** The program compares the pattern's first byte, signed, with an unsigned byte of the buffer: from 128 on they
      are never equal. */
  predicate Findable(p: seq<Byte>) {
    p != [] ==> p[0] < 128
  }

  ghost function Found(c: seq<Byte>, p: seq<Byte>): seq<seq<Byte>> {
    if Findable(p) then Matching(AllPieces(LinesOf(c)), p) else []
  }

  ghost function Hit(line: seq<Byte>, p: seq<Byte>): seq<seq<Byte>> {
    if Findable(p) && Contains(line, p) then [line] else []
  }

  /** The write calls that report these lines of the file called fname. */
  function Report(fname: seq<Byte>, lines: seq<seq<Byte>>): (w: seq<seq<Byte>>)
    ensures |w| == 4 * |lines|
  {
    if lines == [] then []
    else Report(fname, lines[..|lines| - 1]) + [fname, [COLON], lines[|lines| - 1], [NEWLINE]]
  }

  lemma {:induction false} MatchingAppend(a: seq<seq<Byte>>, b: seq<seq<Byte>>, p: seq<Byte>)
    ensures Matching(a + b, p) == Matching(a, p) + Matching(b, p)
  {
    if a == [] {
      assert a + b == b;
    } else {
      assert (a + b)[1..] == a[1..] + b;
      MatchingAppend(a[1..], b, p);
    }
  }

  lemma OneHit(line: seq<Byte>, p: seq<Byte>)
    ensures Findable(p) ==> Matching([line], p) == Hit(line, p)
    ensures !Findable(p) ==> Hit(line, p) == []
  {
    assert Matching([], p) == [];
    assert [line][1..] == [];
  }

  lemma {:induction false} NewlineAt(l: seq<Byte>, x: seq<Byte>)
    requires OneLine(l) && (x == [] || x[0] == NEWLINE)
    ensures NewlineIn(l + x) == |l|
  {
    if l == [] {
      assert l + x == x;
    } else {
      assert (l + x)[1..] == l[1..] + x;
      NewlineAt(l[1..], x);
    }
  }

  /** A whole line in the buffer is searched as it is. */
  lemma FoundLine(l: seq<Byte>, x: seq<Byte>, p: seq<Byte>)
    requires OneLine(l) && |l| <= BUFSIZE
    ensures Found(l + [NEWLINE] + x, p) == Hit(l, p) + Found(x, p)
  {
    var c := l + [NEWLINE] + x;
    NewlineAt(l, [NEWLINE] + x);
    assert c == l + ([NEWLINE] + x);
    assert c[..|l|] == l && c[|l| + 1..] == x;
    var rest := LinesOf(x);
    assert LinesOf(c) == [l] + rest;
    assert ([l] + rest)[1..] == rest;
    MatchingAppend([l], AllPieces(rest), p);
    OneHit(l, p);
  }

  /** The last line need not end in a newline. */
  lemma FoundLast(l: seq<Byte>, p: seq<Byte>)
    requires OneLine(l) && |l| <= BUFSIZE
    ensures Found(l, p) == Hit(l, p)
  {
    NewlineAt(l, []);
    assert l + [] == l;
    assert LinesOf(l) == [l];
    assert AllPieces([l]) == [l] + AllPieces([l][1..]) == [l];
    OneHit(l, p);
  }

  lemma LinesSplit(l: seq<Byte>, y: seq<Byte>)
    requires OneLine(l) && (y == [] || y[0] == NEWLINE)
    ensures LinesOf(l + y) == if y == [] then [l] else [l] + LinesOf(y[1..])
  {
    var c := l + y;
    NewlineAt(l, y);
    assert c[..|l|] == l;
    if y == [] {
      assert c == l;
    } else {
      assert c[|l| + 1..] == y[1..];
    }
  }

  /** A newline-free prefix belongs to the first line. */
  lemma {:induction false} LinesPrefix(b: seq<Byte>, x: seq<Byte>)
    requires OneLine(b)
    ensures LinesOf(x) != [] && LinesOf(b + x) == [b + LinesOf(x)[0]] + LinesOf(x)[1..]
  {
    var i := NewlineIn(x);
    var l, y := x[..i], x[i..];
    assert x == l + y && b + x == (b + l) + y;
    LinesSplit(l, y);
    LinesSplit(b + l, y);
  }

  /** Chopping a full buffer off a line, where an empty remainder finds nothing. */
  lemma PiecesChopped(b: seq<Byte>, l: seq<Byte>, p: seq<Byte>)
    requires |b| == BUFSIZE && p != [] && Findable(p)
    ensures Matching(Pieces(b + l), p) == Hit(b, p) + Matching(Pieces(l), p)
  {
    OneHit(b, p);
    if l == [] {
      assert b + l == b && Pieces(l) == [l];
      OneHit(l, p);
    } else {
      assert (b + l)[..BUFSIZE] == b && (b + l)[BUFSIZE..] == l;
      MatchingAppend([b], Pieces(l), p);
    }
  }

  lemma FoundFirst(l: seq<Byte>, rest: seq<seq<Byte>>, p: seq<Byte>)
    ensures Matching(AllPieces([l] + rest), p) == Matching(Pieces(l), p) + Matching(AllPieces(rest), p)
  {
    assert ([l] + rest)[1..] == rest;
    MatchingAppend(Pieces(l), AllPieces(rest), p);
  }

  lemma Associate<T>(a: seq<T>, b: seq<T>, c: seq<T>)
    ensures (a + b) + c == a + (b + c)
  {
  }

  /** A full buffer without a newline is searched as a line of its own. */
  lemma FoundChopped(b: seq<Byte>, x: seq<Byte>, p: seq<Byte>)
    requires OneLine(b) && |b| == BUFSIZE && p != []
    ensures Found(b + x, p) == Hit(b, p) + Found(x, p)
  {
    if Findable(p) {
      hide LinesOf, Pieces, AllPieces, Matching, Contains, OneLine, Hit;
      LinesPrefix(b, x);
      var l, rest := LinesOf(x)[0], LinesOf(x)[1..];
      assert LinesOf(x) == [l] + rest;
      FoundFirst(l, rest, p);
      FoundFirst(b + l, rest, p);
      PiecesChopped(b, l, p);
      Associate(Hit(b, p), Matching(Pieces(l), p), Matching(AllPieces(rest), p));
    }
  }

  lemma SubSlice(c: seq<Byte>, i: nat, j: nat, k: nat, l: nat)
    requires i <= j <= |c| && k <= l <= j - i
    ensures c[i..j][k..l] == c[i + k..i + l]
  {
    var a, b := c[i..j][k..l], c[i + k..i + l];
    assert forall q | 0 <= q < |a| :: a[q] == b[q];
  }

  lemma ContainsPart(line: seq<Byte>, i: nat, j: nat, p: seq<Byte>)
    requires i <= j <= |line| && Contains(line[i..j], p)
    ensures Contains(line, p)
  {
    var part := line[i..j];
    var k: nat :| MatchAt(part, p, k);
    SubSlice(line, i, j, k, k + |p|);
    assert MatchAt(line, p, i + k);
  }

  lemma NoHit(line: seq<Byte>, p: seq<Byte>)
    requires !Contains(line, p)
    ensures Matching([line], p) == []
  {
    assert [line][1..] == [];
  }

  /** A line without the pattern has none in its pieces. */
  lemma {:induction false} PiecesMiss(line: seq<Byte>, p: seq<Byte>)
    requires !Contains(line, p)
    ensures Matching(Pieces(line), p) == []
  {
    if |line| <= BUFSIZE {
      NoHit(line, p);
    } else {
      if Contains(line[..BUFSIZE], p) { ContainsPart(line, 0, BUFSIZE, p); }
      assert line[BUFSIZE..] == line[BUFSIZE..|line|];
      if Contains(line[BUFSIZE..], p) { ContainsPart(line, BUFSIZE, |line|, p); }
      PiecesMiss(line[BUFSIZE..], p);
      MatchingAppend([line[..BUFSIZE]], Pieces(line[BUFSIZE..]), p);
      NoHit(line[..BUFSIZE], p);
    }
  }

  lemma {:induction false} MatchingMembers(lines: seq<seq<Byte>>, p: seq<Byte>)
    ensures forall l :: l in Matching(lines, p) <==> l in lines && Contains(l, p)
  {
    if lines != [] {
      MatchingMembers(lines[1..], p);
      assert lines == [lines[0]] + lines[1..];
    }
  }

  lemma {:induction false} PiecesShort(lines: seq<seq<Byte>>)
    ensures forall l :: l in AllPieces(lines) ==> |l| <= BUFSIZE
  {
    if lines != [] {
      LinePiecesShort(lines[0]);
      PiecesShort(lines[1..]);
    }
  }

  lemma {:induction false} LinePiecesShort(line: seq<Byte>)
    ensures forall l :: l in Pieces(line) ==> |l| <= BUFSIZE
  {
    if |line| > BUFSIZE { LinePiecesShort(line[BUFSIZE..]); }
  }

  ghost predicate LongHit(lines: seq<seq<Byte>>, p: seq<Byte>) {
    exists i :: 0 <= i < |lines| && |lines[i]| > BUFSIZE && Contains(lines[i], p)
  }

  lemma RestHits(lines: seq<seq<Byte>>, p: seq<Byte>)
    requires lines != []
    ensures LongHit(lines[1..], p) ==> LongHit(lines, p)
  {
    if LongHit(lines[1..], p) {
      var i :| 0 <= i < |lines| - 1 && |lines[1..][i]| > BUFSIZE && Contains(lines[1..][i], p);
      assert lines[i + 1] == lines[1..][i];
    }
  }

  lemma {:induction false} ShortLinesFound(lines: seq<seq<Byte>>, p: seq<Byte>)
    requires !LongHit(lines, p)
    ensures Matching(AllPieces(lines), p) == Matching(lines, p)
  {
    if lines != [] {
      var l, rest := lines[0], lines[1..];
      assert lines == [l] + rest;
      RestHits(lines, p);
      ShortLinesFound(rest, p);
      FoundFirst(l, rest, p);
      if |l| > BUFSIZE {
        assert !Contains(lines[0], p);
        PiecesMiss(l, p);
      } else {
        assert Pieces(l) == [l] && Pieces(l)[1..] == [];
      }
    }
  }

  ghost predicate AnyHit(lines: seq<seq<Byte>>, p: seq<Byte>) {
    exists i :: 0 <= i < |lines| && Contains(lines[i], p)
  }

  lemma NoneMatch(lines: seq<seq<Byte>>, p: seq<Byte>)
    ensures Matching(lines, p) == [] <==> !AnyHit(lines, p)
  {
    MatchingMembers(lines, p);
    if AnyHit(lines, p) {
      var i :| 0 <= i < |lines| && Contains(lines[i], p);
      assert lines[i] in Matching(lines, p);
    }
    if Matching(lines, p) != [] {
      var l := Matching(lines, p)[0];
      assert l in Matching(lines, p);
      var i :| 0 <= i < |lines| && lines[i] == l;
    }
  }

  /** Searching the pieces finds what searching the lines finds exactly when no line longer than 1024 bytes contains
      the pattern. */
  lemma PiecesAreNaive(lines: seq<seq<Byte>>, p: seq<Byte>)
    ensures Matching(AllPieces(lines), p) == Matching(lines, p) <==> !LongHit(lines, p)
  {
    if LongHit(lines, p) {
      var i :| 0 <= i < |lines| && |lines[i]| > BUFSIZE && Contains(lines[i], p);
      MatchingMembers(lines, p);
      MatchingMembers(AllPieces(lines), p);
      PiecesShort(lines);
      assert lines[i] in Matching(lines, p) && lines[i] !in Matching(AllPieces(lines), p);
    } else {
      ShortLinesFound(lines, p);
    }
  }

  /** The program finds what a search of the whole file finds exactly when the pattern starts with a byte below 128 and
      no line longer than 1024 bytes contains it, or starts with a higher byte and no line contains it. */
  lemma FoundIsNaive(c: seq<Byte>, p: seq<Byte>)
    ensures Found(c, p) == Matching(LinesOf(c), p)
       <==> if Findable(p) then !LongHit(LinesOf(c), p) else !AnyHit(LinesOf(c), p)
  {
    PiecesAreNaive(LinesOf(c), p);
    NoneMatch(LinesOf(c), p);
  }

  /** A file of one byte 200, searched for that byte: its line matches and is never found. */
  lemma HighByteMissed()
    ensures Matching(LinesOf([200]), [200]) == [[200]] && Found([200], [200]) == []
  {
    var line: seq<Byte> := [200];
    NewlineAt(line, []);
    assert line + [] == line;
    assert LinesOf(line) == [line];
    assert line[0..0 + |line|] == line;
    assert MatchAt(line, line, 0);
    assert [line][1..] == [];
  }

  lemma {:induction false} ReportAppend(fname: seq<Byte>, a: seq<seq<Byte>>, l: seq<Byte>)
    ensures Report(fname, a + [l]) == Report(fname, a) + [fname, [COLON], l, [NEWLINE]]
  {
    assert (a + [l])[..|a|] == a;
  }

  /** Different findings are reported differently. */
  lemma {:induction false} ReportInjective(fname: seq<Byte>, a: seq<seq<Byte>>, b: seq<seq<Byte>>)
    ensures Report(fname, a) == Report(fname, b) ==> a == b
  {
    if Report(fname, a) == Report(fname, b) && a != [] {
      var m := |a| - 1;
      assert Report(fname, a)[..4 * m] == Report(fname, a[..m]);
      assert Report(fname, b)[..4 * m] == Report(fname, b[..m]);
      assert Report(fname, a)[4 * m + 2] == a[m] && Report(fname, b)[4 * m + 2] == b[m];
      ReportInjective(fname, a[..m], b[..m]);
      assert a == a[..m] + [a[m]] && b == b[..m] + [b[m]];
    }
  }

  /** Each finding is reported by four writes: the file's name, a colon, the line, a newline. */
  lemma {:induction false} ReportIs(fname: seq<Byte>, lines: seq<seq<Byte>>, k: nat)
    requires k < |lines|
    ensures var w := Report(fname, lines);
      |w| == 4 * |lines| && w[4 * k] == fname && w[4 * k + 1] == [58] &&
      w[4 * k + 2] == lines[k] && w[4 * k + 3] == [10]
  {
    var m := |lines| - 1;
    if k < m { ReportIs(fname, lines[..m], k); }
  }

  /** Lines put together again, a newline between any two. */
  function Joined(lines: seq<seq<Byte>>): seq<Byte> {
    if lines == [] then [] else if |lines| == 1 then lines[0] else lines[0] + [NEWLINE] + Joined(lines[1..])
  }

  /** The lines of a text make the text when put together, */
  lemma {:induction false} LinesJoin(c: seq<Byte>)
    ensures LinesOf(c) != [] && Joined(LinesOf(c)) == c
    decreases |c|
  {
    var i := NewlineIn(c);
    if i < |c| {
      var rest := LinesOf(c[i + 1..]);
      LinesJoin(c[i + 1..]);
      JoinedMore(c[..i], rest);
      assert LinesOf(c) == [c[..i]] + rest;
      hide Joined, LinesOf, NewlineIn;
      assert c == c[..i] + [NEWLINE] + c[i + 1..];
    } else {
      assert c[..i] == c;
    }
  }

  lemma JoinedMore(l: seq<Byte>, rest: seq<seq<Byte>>)
    requires rest != []
    ensures Joined([l] + rest) == l + [NEWLINE] + Joined(rest)
  {
    assert ([l] + rest)[1..] == rest;
  }

  /** and hold no newline. */
  lemma {:induction false} LinesAreLines(c: seq<Byte>)
    ensures forall l | l in LinesOf(c) :: OneLine(l)
    decreases |c|
  {
    hide OneLine;
    var i := NewlineIn(c);
    if i < |c| { LinesAreLines(c[i + 1..]); } else { assert c[..i] == c; }
  }

  // ----- the program -----

  /** ece391_strncmp of the bytes at data[at..] with the whole pattern; a NUL stands at end. */
  method Strncmp(data: array<Byte>, at: nat, end: nat, s: seq<Byte>) returns (r: int)
    requires at <= end < data.Length && data[end] == NUL && s != [] && NulFree(s)
    ensures r == 0 <==> MatchAt(data[at..end], s, 0)
  {
    var k, n := 0, |s|;
    while data[at + k] == s[k]
      invariant 0 <= k < |s| && n == |s| - k && at + k <= end
      invariant data[at..at + k] == s[..k]
      decreases n
    {
      assert data[at..at + k + 1] == data[at..at + k] + [data[at + k]];
      n := n - 1;
      if n == 0 { break; }
      k := k + 1;
    }
    assert data[at + k] == s[k] ==> k + 1 == |s| && data[at..at + k + 1] == s;
    r := if data[at + k] == s[k] then 0 else (data[at + k] as int) - (s[k] as int);
    if at + |s| <= end {
      assert data[at..end][0..|s|] == data[at..at + |s|];
      assert data[at..at + |s|][k] == data[at + k];
    }
  }

  /** ece391_strcpy(data, data + from), which moves the text at from..end down to the start. */
  method StrcpyDown(data: array<Byte>, from: nat, end: nat)
    requires 0 < from <= end < data.Length && data[end] == NUL && NulFree(data[from..end])
    modifies data
    ensures data[..end - from] == old(data[from..end])
    ensures data[end..] == old(data[end..])
  {
    var k := 0;
    assert forall i | from <= i < end :: data[i] == data[from..end][i - from] != NUL;
    while data[from + k] != NUL
      invariant 0 <= k <= end - from
      invariant data[..k] == old(data[from..from + k])
      invariant data[from + k..] == old(data[from + k..])
      invariant forall i | from + k <= i < end :: data[i] != NUL
      decreases end - k
    {
      assert from + k != end;
      data[k] := data[from + k];
      k := k + 1;
    }
    assert k == end - from;
    data[k] := NUL;
  }

  /** The search of one line, data[start..end]. */
  method SearchLine(data: array<Byte>, start: nat, end: nat, s: seq<Byte>) returns (found: bool)
    requires start <= end < data.Length && data[end] == NUL && s != [] && NulFree(s)
    ensures found == (Findable(s) && Contains(data[start..end], s))
  {
    var check := start;
    while check < end
      invariant start <= check <= end
      invariant Findable(s) ==> forall i: nat | i < check - start :: !MatchAt(data[start..end], s, i)
    {
      if Signed(s[0]) == data[check] {
        var r := Strncmp(data, check, end, s);
        MatchFrom(data[start..end], s, check - start);
        assert data[start..end][check - start..] == data[check..end];
        if r == 0 { return true; }
      } else if check + |s| <= end {
        assert data[start..end][check - start..check - start + |s|][0] == data[check];
      }
      check := check + 1;
    }
    return false;
  }

  lemma MatchFrom(line: seq<Byte>, p: seq<Byte>, i: nat)
    requires i <= |line|
    ensures MatchAt(line, p, i) <==> MatchAt(line[i..], p, 0)
  {
    if i + |p| <= |line| { assert line[i..][0..|p|] == line[i..i + |p|]; }
  }

  /** What the program has found so far, `found`, and what is still to be found in the bytes it has not
      searched together make up what it is to find in the whole file. */
  ghost predicate Accounted(c: seq<Byte>, p: seq<Byte>, found: seq<seq<Byte>>, unsearched: seq<Byte>) {
    Found(c, p) == found + Found(unsearched, p)
  }

  /** Nothing is left to be found when everything has been searched. */
  lemma Finished(c: seq<Byte>, p: seq<Byte>, found: seq<seq<Byte>>)
    requires p != []
    ensures Found([], p) == []
    ensures Accounted(c, p, found, []) ==> Found(c, p) == found
  {
    FoundLast([], p);
    assert forall i: nat :: !MatchAt([], p, i);
  }

  /** One line of the buffer searched: a line ended by a newline, the end of the file, or a full buffer. */
  lemma SearchedLine(c: seq<Byte>, p: seq<Byte>, found: seq<seq<Byte>>, l: seq<Byte>, tail: seq<Byte>, rest: seq<Byte>)
    requires p != [] && OneLine(l) && |l| <= BUFSIZE && Accounted(c, p, found, l + tail)
    requires tail == [NEWLINE] + rest || (tail == [] && rest == []) || (|l| == BUFSIZE && tail == rest)
    ensures Accounted(c, p, found + Hit(l, p), rest)
  {
    hide Found, Hit;
    if tail == [NEWLINE] + rest {
      assert l + tail == l + [NEWLINE] + rest;
      FoundLine(l, rest, p);
    } else if tail == [] {
      assert l + tail == l;
      FoundLast(l, p);
      Finished([], p, []);
    } else {
      FoundChopped(l, rest, p);
    }
  }

  /** What is known of the buffer: data[from..last] holds the bytes of the file before pos. */
  ghost predicate Holds(data: seq<Byte>, from: nat, last: nat, c: seq<Byte>, pos: nat) {
    && from <= last <= BUFSIZE && |data| == BUFSIZE + 1 && last <= pos <= |c|
    && data[from..last] == c[pos - last + from..pos] && data[BUFSIZE] != NEWLINE
  }

  lemma HoldsLine(data: seq<Byte>, from: nat, to: nat, last: nat, c: seq<Byte>, pos: nat)
    requires Holds(data, from, last, c, pos) && from <= to <= last && NulFree(c)
    ensures data[from..to] == c[pos - last + from..pos - last + to] && NulFree(data[from..to])
    ensures Holds(data, to, last, c, pos)
    ensures to < last ==> data[to] == c[pos - last + to] && Holds(data[to := NUL], to + 1, last, c, pos)
    ensures Holds(data[to := NUL], last, last, c, pos) && data[to := NUL][from..to] == data[from..to]
  {
    SubSlice(data, from, last, 0, to - from);
    SubSlice(c, pos - last + from, pos, 0, to - from);
    SubSlice(data, from, last, to - from, last - from);
    SubSlice(c, pos - last + from, pos, to - from, last - from);
    assert data[to..last] == c[pos - last + to..pos];
    if to < last {
      SubSlice(data, to, last, 1, last - to);
      SubSlice(c, pos - last + to, pos, 1, last - to);
      assert data[to := NUL][to + 1..last] == data[to + 1..last];
    }
  }

  /** The bytes from a line on are the line, its end, and what follows. */
  lemma Unsearched(c: seq<Byte>, i: nat, j: nat)
    requires i <= j <= |c|
    ensures c[i..] == c[i..j] + c[j..]
    ensures j < |c| && c[j] == NEWLINE ==> c[j..] == [NEWLINE] + c[j + 1..]
  {
  }

  /** Search one line of the buffer and report it, as the middle of the inner loop does. */
  method SearchAndReport(s: seq<Byte>, fname: seq<Byte>, data: array<Byte>, start: nat, end: nat,
                         written: seq<seq<Byte>>, ghost found: seq<seq<Byte>>) returns (w: seq<seq<Byte>>)
    requires data.Length == BUFSIZE + 1 && start <= end <= BUFSIZE && s != [] && NulFree(s)
    requires written == Report(fname, found)
    modifies data
    ensures data[..] == old(data[..])[end := NUL]
    ensures var l := old(data[start..end]);
      w == written + if Hit(l, s) == [] then [] else [fname, [COLON], l[..StrLen(l)], [NEWLINE]]
    ensures NulFree(old(data[start..end])) ==> w == Report(fname, found + Hit(old(data[start..end]), s))
  {
    data[end] := NUL;
    ghost var l := data[..][start..end];
    assert l == data[start..end] == old(data[start..end]);
    var hit := SearchLine(data, start, end, s);
    w := written;
    if hit {
      var text := Fdputs(data, start, end);
      w := w + [fname, [COLON], text, [NEWLINE]];
      ReportAppend(fname, found, l);
      if NulFree(l) { StrLenUnique(l, |l|); assert l[..|l|] == l; }
    }
    assert found + [] == found;
  }

  /** What ece391_fdputs writes of the text at data[start..end]: up to a NUL in it. */
  method Fdputs(data: array<Byte>, start: nat, end: nat) returns (text: seq<Byte>)
    requires start <= end < data.Length && data[end] == NUL
    ensures var l := data[start..end]; text == l[..StrLen(l)]
  {
    ghost var l := data[start..end];
    assert data[start..][end - start] == NUL;
    var n := Strlen(data, start);
    assert l == data[start..][..end - start];
    assert n <= |l| && l[..n] == data[start..][..n];
    StrLenUnique(l, n);
    text := data[start..start + n];
  }

  /** The scan for the end of a line, which stops at `last` at the latest. */
  method LineEnd(data: array<Byte>, start: nat, last: nat) returns (lineEnd: nat)
    requires start <= last < data.Length
    ensures start <= lineEnd <= last && OneLine(data[..][start..lineEnd])
    ensures lineEnd < last ==> data[lineEnd] == NEWLINE
  {
    lineEnd := start;
    while lineEnd < last && data[lineEnd] != NEWLINE
      invariant start <= lineEnd <= last
      invariant OneLine(data[..][start..lineEnd])
    {
      lineEnd := lineEnd + 1;
    }
  }

  lemma HoldsNone(data: seq<Byte>, last: nat, c: seq<Byte>, pos: nat)
    requires Holds(data, last, last, c, pos)
    ensures Holds(data, 0, 0, c, pos) && last <= pos <= |c|
  {
  }

  /** A partial line is moved to the start of the buffer, to be read on. */
  method Defer(data: array<Byte>, start: nat, last: nat, ghost c: seq<Byte>, ghost pos: nat)
    requires data.Length == BUFSIZE + 1 && 0 < start && Holds(data[..], start, last, c, pos) && NulFree(c)
    modifies data
    ensures Holds(data[..], 0, last - start, c, pos)
  {
    HoldsLine(data[..], start, last, last, c, pos);
    data[last] := NUL;
    StrcpyDown(data, start, last);
  }

  /** One line of the buffer is searched, and the file is searched up to the line's end. */
  method SearchNext(s: seq<Byte>, fname: seq<Byte>, data: array<Byte>, start: nat, end: nat, last: nat,
                    written0: seq<seq<Byte>>, ghost c: seq<Byte>, ghost pos: nat, ghost found0: seq<seq<Byte>>)
    returns (written: seq<seq<Byte>>, ghost found: seq<seq<Byte>>)
    requires s != [] && NulFree(s) && NulFree(c)
    requires data.Length == BUFSIZE + 1 && Holds(data[..], start, last, c, pos) && start <= end <= last
    requires OneLine(data[..][start..end]) && (end < last ==> data[end] == NEWLINE)
    requires end == last ==> pos == |c| || end - start == BUFSIZE
    requires Accounted(c, s, found0, c[pos - last + start..]) && written0 == Report(fname, found0)
    modifies data
    ensures end < last ==> Holds(data[..], end + 1, last, c, pos)
    ensures Holds(data[..], last, last, c, pos)
    ensures Accounted(c, s, found, if end < last then c[pos - last + end + 1..] else c[pos..])
    ensures written == Report(fname, found)
  {
    hide Accounted, Report, Contains, Hit;
    ghost var base := pos - last;
    HoldsLine(data[..], start, end, last, c, pos);
    ghost var l := data[..][start..end];
    assert data[start..end] == l;
    written := SearchAndReport(s, fname, data, start, end, written0, found0);
    found := found0 + Hit(l, s);
    Unsearched(c, base + start, base + end);
    SearchedLine(c, s, found0, l, c[base + end..], if end < last then c[base + end + 1..] else c[pos..]);
  }

  /** The inner loop of do_one_file after a read of cnt bytes has filled data[..last]. */
  method SearchBuffer(s: seq<Byte>, fname: seq<Byte>, data: array<Byte>, last0: nat, cnt: nat, written0: seq<seq<Byte>>,
                      ghost c: seq<Byte>, ghost pos: nat, ghost found0: seq<seq<Byte>>)
    returns (last: nat, written: seq<seq<Byte>>, ghost found: seq<seq<Byte>>)
    requires s != [] && NulFree(s) && NulFree(c)
    requires data.Length == BUFSIZE + 1 && Holds(data[..], 0, last0, c, pos)
    requires cnt == 0 || last0 < BUFSIZE ==> pos == |c|   // a read is only short at the end of the file
    requires Accounted(c, s, found0, c[pos - last0..]) && written0 == Report(fname, found0)
    modifies data
    ensures last < BUFSIZE && last <= pos && Holds(data[..], 0, last, c, pos) && (cnt == 0 ==> last == 0)
    ensures Accounted(c, s, found, c[pos - last..]) && written == Report(fname, found)
  {
    hide Accounted, Report, NulFree, OneLine;
    last, written, found := last0, written0, found0;
    var lineStart := 0;
    while true
      invariant last == last0 && 0 <= lineStart <= last && (lineStart == 0 || lineStart < last)
      invariant Holds(data[..], lineStart, last, c, pos)
      invariant Accounted(c, s, found, c[pos - last + lineStart..]) && written == Report(fname, found)
      decreases last - lineStart
    {
      var lineEnd := LineEnd(data, lineStart, last);
      if data[lineEnd] != NEWLINE && cnt != 0 && lineStart != 0 {
        Defer(data, lineStart, lineEnd, c, pos);
        last := last - lineStart;
        break;
      }
      written, found := SearchNext(s, fname, data, lineStart, lineEnd, last, written, c, pos, found);
      lineStart := lineEnd + 1;
      if lineStart >= last {
        HoldsNone(data[..], last, c, pos);
        assert lineEnd < last ==> pos - last + lineEnd + 1 == pos;
        last := 0;
        break;
      }
    }
  }

  /** Reading more of the file after what the buffer holds. */
  lemma HoldsMore(was: seq<Byte>, now: seq<Byte>, last: nat, cnt: nat, c: seq<Byte>, pos: nat)
    requires Holds(was, 0, last, c, pos) && last + cnt <= BUFSIZE && pos + cnt <= |c| && |now| == |was|
    requires now[..last] == was[..last] && now[last..last + cnt] == c[pos..pos + cnt]
    requires now[last + cnt..] == was[last + cnt..]
    ensures Holds(now, 0, last + cnt, c, pos + cnt)
  {
    assert now[BUFSIZE] == now[last + cnt..][BUFSIZE - last - cnt] == was[BUFSIZE];
    assert now[0..last + cnt] == now[..last] + now[last..last + cnt];
    assert c[pos - last..pos + cnt] == c[pos - last..pos] + c[pos..pos + cnt];
  }

  /** The read at the start of a round, into the rest of the buffer. */
  method FillBuffer(file: OpenFile, data: array<Byte>, last: nat) returns (cnt: nat)
    requires file.Valid() && last < BUFSIZE && data.Length == BUFSIZE + 1
    requires Holds(data[..], 0, last, file.Bytes(), file.pos)
    modifies file, data
    ensures file.Valid() && file.pos == old(file.pos) + cnt && file.f.size == |file.Bytes()|
    ensures last + cnt <= BUFSIZE && Holds(data[..], 0, last + cnt, file.Bytes(), file.pos)
    ensures cnt == 0 || last + cnt < BUFSIZE ==> file.pos == |file.Bytes()|
  {
    hide Content, WellFormed, Filled, Slice;
    ghost var was := data[..];
    cnt := file.Read(data, last, BUFSIZE - last);
    HoldsMore(was, data[..], last, cnt, file.Bytes(), old(file.pos));
  }

  /** The state between two reads. */
  ghost predicate Streaming(c: seq<Byte>, s: seq<Byte>, fname: seq<Byte>, data: seq<Byte>, last: nat, pos: nat,
                            found: seq<seq<Byte>>, written: seq<seq<Byte>>) {
    && last < BUFSIZE && Holds(data, 0, last, c, pos)
    && Accounted(c, s, found, c[pos - last..]) && written == Report(fname, found)
  }

  /** One round of the outer loop: a read after what the buffer holds, and the inner loop. */
  method Round(s: seq<Byte>, fname: seq<Byte>, file: OpenFile, data: array<Byte>, last0: nat, written0: seq<seq<Byte>>,
               ghost found0: seq<seq<Byte>>)
    returns (cnt: nat, last: nat, written: seq<seq<Byte>>, ghost found: seq<seq<Byte>>)
    requires s != [] && NulFree(s) && file.Valid() && NulFree(file.Bytes()) && data.Length == BUFSIZE + 1
    requires Streaming(file.Bytes(), s, fname, data[..], last0, file.pos, found0, written0)
    modifies file, data
    ensures file.Valid() && file.pos == old(file.pos) + cnt
    ensures Streaming(file.Bytes(), s, fname, data[..], last, file.pos, found, written)
    ensures cnt == 0 ==> last == 0 && file.pos == |file.Bytes()|
  {
    hide Content, WellFormed, Found, Accounted, Report, NulFree, Holds;
    ghost var c := file.Bytes();
    cnt := FillBuffer(file, data, last0);
    assert file.pos - (last0 + cnt) == old(file.pos) - last0;
    last, written, found := SearchBuffer(s, fname, data, last0 + cnt, cnt, written0, c, file.pos, found0);
  }

  /** do_one_file on an open file: s is the pattern, data the buffer as the stack held it. */
  method DoOneFile(s: seq<Byte>, fname: seq<Byte>, file: OpenFile, data: array<Byte>) returns (written: seq<seq<Byte>>)
    requires s != [] && NulFree(s)
    requires file.Valid() && file.pos == 0 && NulFree(file.Bytes())
    requires data.Length == BUFSIZE + 1 && data[BUFSIZE] != NEWLINE
    modifies file, data
    ensures written == Report(fname, Found(file.Bytes(), s))
    ensures file.Valid() && file.pos == file.f.size
  {
    ghost var found: seq<seq<Byte>> := [];
    written := [];
    var last: nat := 0;
    assert file.Bytes()[file.pos - last..] == file.Bytes();
    assert Streaming(file.Bytes(), s, fname, data[..], last, file.pos, found, written);
    hide Content, WellFormed, Streaming, Found, Report, NulFree;
    while true
      invariant file.Valid() && NulFree(file.Bytes())
      invariant Streaming(file.Bytes(), s, fname, data[..], last, file.pos, found, written)
      decreases file.f.size - file.pos
    {
      var cnt;
      cnt, last, written, found := Round(s, fname, file, data, last, written, found);
      if cnt == 0 { break; }
    }
    StreamingEnds(file.Bytes(), s, fname, data[..], found, written);
  }

  lemma StreamingEnds(c: seq<Byte>, s: seq<Byte>, fname: seq<Byte>, data: seq<Byte>, found: seq<seq<Byte>>,
                      written: seq<seq<Byte>>)
    requires Streaming(c, s, fname, data, 0, |c|, found, written) && s != []
    ensures written == Report(fname, Found(c, s))
  {
    assert c[|c|..] == [];
    Finished(c, s, found);
  }

  /** grep of one file reports each line that contains the pattern exactly once, in order, and no others, if and only
      if no line longer than 1024 bytes contains it, or, for a pattern starting with a byte of 128 or more, no line. */
  lemma GrepIsNaive(c: seq<Byte>, s: seq<Byte>, fname: seq<Byte>)
    ensures Report(fname, Found(c, s)) == Report(fname, Matching(LinesOf(c), s))
       <==> if Findable(s) then !LongHit(LinesOf(c), s) else !AnyHit(LinesOf(c), s)
  {
    FoundIsNaive(c, s);
    ReportInjective(fname, Found(c, s), Matching(LinesOf(c), s));
  }
}
