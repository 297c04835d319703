/** Number printing: itoa, strrev and printf's number branches of student-distrib/lib.c, and the user-level
    copies in syscalls/ece391support.c. */
module Numbers {
  import opened Common
  import opened CString
  import Division

  const ZERO: Byte := 48
  const MINUS: Byte := 45

  /** The lookup table "0123456789ABC...XYZ", and its inverse. */
  function DigitChar(d: nat): (c: Byte)
    requires d < 36
    ensures DigitValue(c) == d && c != NUL && (c == ZERO <==> d == 0)
  {
    if d < 10 then 48 + d else 55 + d
  }

  function DigitValue(c: Byte): int {
    if c <= 57 then c - 48 else c - 55
  }

  /** What a reader of radix-r numerals makes of a text. */
  function Value(text: seq<Byte>, r: int): int {
    if text == [] then 0 else Value(text[..|text| - 1], r) * r + DigitValue(text[|text| - 1])
  }

  /** Unsigned division, as the loop of itoa uses it. */
  function Quot(v: nat, r: nat): (q: nat)
    requires r >= 2
    ensures q * r <= v < q * r + r && (v < r <==> q == 0) && (v > 0 ==> q < v)
  {
    v / r
  }

  function Rem(v: nat, r: nat): (d: nat)
    requires r >= 2
    ensures d < r && Quot(v, r) * r + d == v && (v < r ==> d == v)
  {
    v % r
  }

  /** The numeral of v, most significant digit first. */
  function Numeral(v: nat, r: nat): (t: seq<Byte>)
    requires 2 <= r <= 36
    ensures |t| >= 1
  {
    hide Quot, Rem;
    if v < r then [DigitChar(v)] else Numeral(Quot(v, r), r) + [DigitChar(Rem(v, r))]
  }

  /** Its digits from the least significant on, as itoa first stores them; none for 0. */
  function Backwards(v: nat, r: nat): seq<Byte>
    requires 2 <= r <= 36
  {
    hide Quot, Rem;
    if v == 0 then [] else [DigitChar(Rem(v, r))] + Backwards(Quot(v, r), r)
  }

  function Reversed(s: seq<Byte>): (t: seq<Byte>)
    ensures |t| == |s| && forall k | 0 <= k < |s| :: t[k] == s[|s| - 1 - k]
  {
    seq(|s|, k requires 0 <= k < |s| => s[|s| - 1 - k])
  }

  /** Reading a numeral back gives the value. */
  lemma {:induction false} NumeralValue(v: nat, r: nat)
    requires 2 <= r <= 36
    ensures Value(Numeral(v, r), r) == v
  {
    hide Quot, Rem;
    if v < r {
      assert Value([], r) == 0;
      assert [DigitChar(v)][..0] == [];
    } else {
      NumeralValue(Quot(v, r), r);
      var t := Numeral(v, r);
      assert t[..|t| - 1] == Numeral(Quot(v, r), r);
    }
  }

  /** A numeral has digits of its radix only, no NUL, and no leading zero unless it is "0". */
  lemma {:induction false} NumeralShape(v: nat, r: nat)
    requires 2 <= r <= 36
    ensures NulFree(Numeral(v, r)) && forall k | 0 <= k < |Numeral(v, r)| :: 0 <= DigitValue(Numeral(v, r)[k]) < r
    ensures Numeral(v, r)[0] == ZERO <==> v == 0
  {
    hide Quot, Rem;
    if v >= r { NumeralShape(Quot(v, r), r); }
  }

  lemma {:induction false} BackwardsIsReversed(v: nat, r: nat)
    requires 2 <= r <= 36 && v > 0
    ensures Reversed(Backwards(v, r)) == Numeral(v, r) && NulFree(Backwards(v, r))
  {
    hide Quot, Rem;
    if v < r {
      assert Quot(v, r) == 0 && Rem(v, r) == v;
      assert Backwards(v, r) == [DigitChar(v)];
    } else {
      BackwardsIsReversed(Quot(v, r), r);
      var b := Backwards(Quot(v, r), r);
      assert Reversed([DigitChar(Rem(v, r))] + b) == Reversed(b) + [DigitChar(Rem(v, r))];
    }
  }

  function Power(r: nat, n: nat): nat {
    if n == 0 then 1 else Power(r, n - 1) * r
  }

  lemma Less(a: nat, b: nat, r: nat)
    requires r > 0 && a * r < b * r
    ensures a < b
  {
    Division.Distribute(b, a, r);
    Division.AtLeast(b - a, r);
  }

  lemma {:induction false} NumeralLength(v: nat, r: nat, n: nat)
    requires 2 <= r <= 36 && n >= 1 && v < Power(r, n)
    ensures |Numeral(v, r)| <= n
  {
    hide Quot, Rem;
    if v >= r {
      assert n > 1 by { assert Power(r, 1) == Power(r, 0) * r == r; }
      Less(Quot(v, r), Power(r, n - 1), r);
      NumeralLength(Quot(v, r), r, n - 1);
    }
  }

  /** Any 32-bit value fits the buffers: 32 digits in binary, eight in hexadecimal, ten in decimal. */
  lemma WordLengths(v: nat)
    requires v < WORD
    ensures |Numeral(v, 2)| <= 32 && |Numeral(v, 16)| <= 8 && |Numeral(v, 10)| <= 10
  {
    assert Power(16, 8) == WORD by { assert Power(16, 4) == 0x1_0000; assert Power(16, 6) == 0x100_0000; }
    assert Power(10, 10) == 10_000_000_000 by { assert Power(10, 4) == 10_000; assert Power(10, 8) == 100_000_000; }
    assert Power(2, 32) == WORD by {
      assert Power(2, 4) == 16; assert Power(2, 8) == 256; assert Power(2, 12) == 4096; assert Power(2, 16) == 0x1_0000;
      assert Power(2, 20) == 0x10_0000; assert Power(2, 24) == 0x100_0000; assert Power(2, 28) == 0x1000_0000;
    }
    NumeralLength(v, 2, 32);
    NumeralLength(v, 16, 8);
    NumeralLength(v, 10, 10);
  }

  /** s with the first and last b positions of the stretch at..at + n exchanged mirror-wise. */
  function Mirrored(s: seq<Byte>, at: nat, n: nat, b: nat): (t: seq<Byte>)
    requires at + n <= |s|
    ensures |t| == |s|
  {
    seq(|s|, j requires 0 <= j < |s| =>
      if at <= j < at + n && (j < at + b || at + n - b <= j) then s[2 * at + n - 1 - j] else s[j])
  }

  lemma MirrorStep(s: seq<Byte>, at: nat, n: nat, b: nat)
    requires at + n <= |s| && 2 * b + 1 < n
    ensures var m := Mirrored(s, at, n, b); var i, j := at + b, at + n - 1 - b;
      Mirrored(s, at, n, b + 1) == m[j := m[i]][i := m[j]]
  {
  }

  lemma MirrorDone(s: seq<Byte>, at: nat, n: nat, b: nat)
    requires at + n <= |s| && 2 * b + 1 >= n
    ensures Mirrored(s, at, n, b) == s[..at] + Reversed(s[at..at + n]) + s[at + n..]
  {
  }

  method Exchange(buf: array<Byte>, i: nat, j: nat)
    requires i < buf.Length && j < buf.Length
    modifies buf
    ensures var m := old(buf[..]); buf[..] == m[j := m[i]][i := m[j]]
  {
    var tmp := buf[j];
    buf[j] := buf[i];
    buf[i] := tmp;
  }

  /** strrev of the string at &buf[at] */
  method StrRev(buf: array<Byte>, at: nat)
    requires at <= buf.Length && NUL in buf[..][at..]
    modifies buf
    ensures at + StrLen(old(buf[..])[at..]) < buf.Length
    ensures var s := old(buf[..]); var n := StrLen(s[at..]); buf[..] == s[..at] + Reversed(s[at..at + n]) + s[at + n..]
  {
    ghost var s := buf[..];
    assert buf[at..] == s[at..];
    var n := Strlen(buf, at);
    ReverseStretch(buf, at, n);
  }

  /** The loop of strrev, end starting on the last of the n bytes. */
  method ReverseStretch(buf: array<Byte>, at: nat, n: nat)
    requires at + n <= buf.Length
    modifies buf
    ensures var s := old(buf[..]); buf[..] == s[..at] + Reversed(s[at..at + n]) + s[at + n..]
  {
    ghost var s := buf[..];
    var beg: int, end: int := 0, n - 1;
    assert Mirrored(s, at, n, 0) == s;
    hide Mirrored, Reversed;
    while beg < end
      invariant 0 <= beg && end == n - 1 - beg && beg <= end + 2
      invariant buf[..] == Mirrored(s, at, n, beg)
    {
      MirrorStep(s, at, n, beg);
      Exchange(buf, at + beg, at + end);
      beg := beg + 1;
      end := end - 1;
    }
    MirrorDone(s, at, n, beg);
  }

  lemma Append(was: seq<Byte>, at: nat, done: seq<Byte>, d: Byte)
    requires at + |done| < |was|
    ensures var n := at + |done|;
      (was[..at] + done + was[n..])[n := d] == was[..at] + (done + [d]) + was[n + 1..]
  {
  }

  method StoreDigit(buf: array<Byte>, n: nat, d: Byte, ghost was: seq<Byte>, ghost at: nat, ghost done: seq<Byte>)
    requires n == at + |done| < buf.Length == |was| && buf[..] == was[..at] + done + was[n..]
    modifies buf
    ensures buf[..] == was[..at] + (done + [d]) + was[n + 1..]
  {
    Append(was, at, done, d);
    buf[n] := d;
  }

  /** The digit loop of itoa, least significant digit first. */
  method StoreDigits(value: nat, buf: array<Byte>, at: nat, radix: nat) returns (n: nat)
    requires 2 <= radix <= 36 && at + |Backwards(value, radix)| < buf.Length
    modifies buf
    ensures n == at + |Backwards(value, radix)|
    ensures buf[..] == old(buf[..])[..at] + Backwards(value, radix) + old(buf[..])[n..]
  {
    hide Quot, Rem, Backwards, DigitChar;
    ghost var b, was := Backwards(value, radix), buf[..];
    ghost var done: seq<Byte> := [];
    BackwardsNone(radix);
    n := at;
    var newval: nat := value;
    while newval > 0
      invariant n == at + |done| && b == done + Backwards(newval, radix)
      invariant buf[..] == was[..at] + done + was[n..]
      decreases newval
    {
      ghost var d := DigitChar(Rem(newval, radix));
      BackwardsMore(newval, radix, done);
      StoreDigit(buf, n, DigitChar(Rem(newval, radix)), was, at, done);
      done := done + [d];
      n := n + 1;
      newval := Quot(newval, radix);
    }
  }

  lemma BackwardsNone(r: nat)
    requires 2 <= r <= 36
    ensures Backwards(0, r) == []
  {
  }

  lemma BackwardsMore(v: nat, r: nat, done: seq<Byte>)
    requires 2 <= r <= 36 && v > 0
    ensures Quot(v, r) < v && |Backwards(v, r)| > 0
    ensures done + Backwards(v, r) == (done + [DigitChar(Rem(v, r))]) + Backwards(Quot(v, r), r)
  {
    hide Quot, Rem;
  }

  /** itoa of anything but zero: digits, a NUL, and the reversal. */
  method ItoaPositive(value: nat, buf: array<Byte>, at: nat, radix: nat)
    requires 0 < value && 2 <= radix <= 36 && at + |Backwards(value, radix)| + 1 <= buf.Length
    modifies buf
    ensures NulFree(Backwards(value, radix))
    ensures var s, t := old(buf[..]), Reversed(Backwards(value, radix));
      buf[..] == s[..at] + t + [NUL] + s[at + |t| + 1..]
  {
    ghost var was := buf[..];
    BackwardsIsReversed(value, radix);
    ghost var b := Backwards(value, radix);
    hide Numeral, Backwards, Reversed, NulFree;
    var n := StoreDigits(value, buf, at, radix);
    buf[n] := NUL;
    Terminate(was, at, b, buf[..]);
    StringAt(buf[..], at, b);
    StrRev(buf, at);
    Reassociate(was[..at], Reversed(b), was[n + 1..]);
  }

  /** itoa into &buf[at]: the numeral and a NUL, nothing else changed. */
  method Itoa(value: nat, buf: array<Byte>, at: nat, radix: nat)
    requires value < WORD && 2 <= radix <= 36 && at + |Numeral(value, radix)| + 1 <= buf.Length
    modifies buf
    ensures var s, t := old(buf[..]), Numeral(value, radix); buf[..] == s[..at] + t + [NUL] + s[at + |t| + 1..]
    ensures var t := Numeral(value, radix); buf[..][at..at + |t|] == t && buf[at + |t|] == NUL
    ensures forall k | 0 <= k < at :: buf[k] == old(buf[k])
  {
    ghost var was, t := buf[..], Numeral(value, radix);
    if value == 0 {
      buf[at] := ZERO;
      buf[at + 1] := NUL;
    } else {
      BackwardsIsReversed(value, radix);
      hide Numeral, Backwards;
      ItoaPositive(value, buf, at, radix);
    }
    assert buf[..] == was[..at] + t + [NUL] + was[at + |t| + 1..];
  }

  lemma Reassociate(a: seq<Byte>, b: seq<Byte>, c: seq<Byte>)
    ensures a + b + ([NUL] + c) == a + b + [NUL] + c
  {
  }

  lemma Terminate(was: seq<Byte>, at: nat, b: seq<Byte>, now: seq<Byte>)
    requires at + |b| < |was| && now == (was[..at] + b + was[at + |b|..])[at + |b| := NUL]
    ensures now[..at] == was[..at] && now[at..at + |b|] == b && now[at + |b|] == NUL
    ensures now[at + |b|..] == [NUL] + was[at + |b| + 1..]
  {
  }

  lemma StringAt(s: seq<Byte>, at: nat, b: seq<Byte>)
    requires at + |b| < |s| && s[at..at + |b|] == b && NulFree(b) && s[at + |b|] == NUL
    ensures NUL in s[at..] && StrLen(s[at..]) == |b|
  {
    assert s[at..][..|b|] == b && s[at..][|b|] == NUL;
    StrLenUnique(s[at..], |b|);
  }

  /** puts of the string at &buf[at]: what reaches the screen. */
  method Puts(buf: array<Byte>, at: nat, ghost t: seq<Byte>) returns (text: seq<Byte>)
    requires at + |t| < buf.Length && buf[..][at..at + |t|] == t && NulFree(t) && buf[at + |t|] == NUL
    ensures text == t
  {
    StringAt(buf[..], at, t);
    assert buf[at..] == buf[..][at..];
    var n := Strlen(buf, at);
    return buf[at..at + n];
  }

  function Padding(n: nat): seq<Byte> { seq(n, _ => ZERO) }

  /** Leading zeros do not change what a text means. */
  lemma {:induction false} PaddingValue(n: nat, t: seq<Byte>, r: int)
    ensures Value(Padding(n) + t, r) == Value(t, r)
  {
    if t != [] {
      PaddingValue(n, t[..|t| - 1], r);
      assert (Padding(n) + t)[..n + |t| - 1] == Padding(n) + t[..|t| - 1];
    } else if n > 0 {
      PaddingValue(n - 1, [], r);
      assert Padding(n)[..n - 1] == Padding(n - 1) + [] && Padding(n) + [] == Padding(n);
    } else {
      assert Padding(0) + t == t;
    }
  }

  method PadZeros(buf: array<Byte>, from: nat, to: nat)
    requires from <= to <= buf.Length
    modifies buf
    ensures buf[..] == old(buf[..])[..from] + Padding(to - from) + old(buf[..])[to..]
  {
    ghost var s := buf[..];
    var i := from;
    assert s[..from] + Padding(0) + s[from..] == s;
    while i < to
      invariant from <= i <= to
      invariant buf[..] == s[..from] + Padding(i - from) + s[i..]
    {
      buf[i] := ZERO;
      i := i + 1;
      assert buf[..] == s[..from] + Padding(i - from) + s[i..];
    }
  }

  lemma PaddedAt(was: seq<Byte>, now: seq<Byte>, start: nat, t: seq<Byte>)
    requires start == |t| <= 8 && 8 + |t| < |was| && now == was[..start] + Padding(8 - start) + was[8..]
    requires was[8..8 + |t|] == t && was[8 + |t|] == NUL
    ensures |now| == |was| && now[start..8 + |t|] == Padding(8 - start) + t && now[8 + |t|] == NUL
  {
    assert now[8..] == was[8..];
    assert was[8..][..|t|] == t && was[8..][|t|] == NUL;
    assert now[start..8 + |t|] == now[start..8] + now[8..][..|t|];
  }

  /** printf's %#x: always eight hexadecimal digits. */
  method PrintHexPadded(value: nat) returns (text: seq<Byte>)
    requires value < WORD
    ensures |Numeral(value, 16)| <= 8 && text == Padding(8 - |Numeral(value, 16)|) + Numeral(value, 16)
  {
    WordLengths(value);
    NumeralShape(value, 16);
    ghost var t := Numeral(value, 16);
    hide Numeral, Value, StrLen, DigitValue;
    var convBuf := new Byte[64];
    Itoa(value, convBuf, 8, 16);
    ghost var stored := convBuf[..];
    StringAt(stored, 8, t);
    assert convBuf[8..] == stored[8..];
    var start := Strlen(convBuf, 8);
    PadZeros(convBuf, start, 8);
    PaddedAt(stored, convBuf[..], start, t);
    text := Puts(convBuf, start, Padding(8 - start) + t);
  }

  /** printf's %x: the numeral; %#x: eight digits; either way a text of the same value. */
  method PrintHex(value: nat, alternate: bool) returns (text: seq<Byte>)
    requires value < WORD
    ensures if alternate then |text| == 8 else text == Numeral(value, 16)
    ensures Value(text, 16) == value
  {
    WordLengths(value);
    NumeralValue(value, 16);
    NumeralShape(value, 16);
    ghost var t := Numeral(value, 16);
    hide Numeral, Value, DigitValue;
    if !alternate {
      var convBuf := new Byte[64];
      Itoa(value, convBuf, 0, 16);
      text := Puts(convBuf, 0, t);
    } else {
      text := PrintHexPadded(value);
      PaddingValue(8 - |t|, t, 16);
    }
  }

  /** printf's %u, and %d, which negates a negative value (the least one too: the result is unsigned). */
  method PrintDecimal(value: int) returns (text: seq<Byte>)
    requires -WORD / 2 <= value < WORD
    ensures value >= 0 ==> text == Numeral(value, 10) && Value(text, 10) == value
    ensures value < 0 ==> text == [MINUS] + Numeral(-value, 10) && Value(text[1..], 10) == -value
  {
    var magnitude := if value < 0 then -value else value;
    NumeralValue(magnitude, 10);
    text := PrintSigned(magnitude, value < 0);
  }

  /** The numeral and its sign stored in one buffer and put out together. */
  method PrintSigned(magnitude: nat, negative: bool) returns (text: seq<Byte>)
    requires magnitude < WORD
    ensures text == (if negative then [MINUS] else []) + Numeral(magnitude, 10)
  {
    WordLengths(magnitude);
    NumeralShape(magnitude, 10);
    var convBuf := new Byte[36];
    ghost var t := Numeral(magnitude, 10);
    hide Numeral, DigitValue;
    if negative {
      convBuf[0] := MINUS;
      Itoa(magnitude, convBuf, 1, 10);
      assert convBuf[..][0..1 + |t|] == [MINUS] + convBuf[..][1..1 + |t|];
      text := Puts(convBuf, 0, [MINUS] + t);
    } else {
      Itoa(magnitude, convBuf, 0, 10);
      text := Puts(convBuf, 0, t);
    }
  }
}
