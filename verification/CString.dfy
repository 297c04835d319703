/** NUL-terminated strings: student-distrib/lib.c and its user-level copy syscalls/ece391support.c. */
module CString {

  type Byte = b: int | 0 <= b < 256

  const NUL: Byte := 0
  const BACKSPACE: Byte := 8
  const TAB: Byte := 9
  const NEWLINE: Byte := 10
  const ENTER: Byte := 13
  const SPACE: Byte := 32

  ghost predicate NulFree(s: seq<Byte>) {
    forall k | 0 <= k < |s| :: s[k] != NUL
  }

  /** n zero bytes. */
  function Zeros(n: nat): (z: seq<Byte>)
    ensures |z| == n
    ensures forall k | 0 <= k < n :: z[k] == NUL
  {
    seq(n, _ => NUL)
  }

  /** The number of bytes before the first NUL (all of them when there is none). */
  function StrLen(s: seq<Byte>): (n: nat)
    ensures n <= |s| && NulFree(s[..n])
    ensures n < |s| ==> s[n] == NUL
  {
    if s == [] || s[0] == NUL then 0 else 1 + StrLen(s[1..])
  }

  /** The two postconditions of StrLen determine it. */
  lemma {:induction false} StrLenUnique(s: seq<Byte>, n: nat)
    requires n <= |s| && NulFree(s[..n])
    requires n < |s| ==> s[n] == NUL
    ensures StrLen(s) == n
  {
    var m := StrLen(s);
    assert forall k | 0 <= k < n :: s[..n][k] == s[k];
    assert forall k | 0 <= k < m :: s[..m][k] == s[k];
  }

  /** A NUL-free prefix of a string that holds a NUL is a proper one. */
  lemma ProperPrefix(s: seq<Byte>, n: nat)
    requires n <= |s| && NUL in s && NulFree(s[..n])
    ensures n < |s|
  {
    assert forall k | 0 <= k < n :: s[..n][k] == s[k];
  }

  method Strlen(a: array<Byte>, at: nat) returns (len: nat)
    requires at <= a.Length && NUL in a[at..]
    ensures len == StrLen(a[at..])
    ensures at + len < a.Length && a[at + len] == NUL
  {
    len := 0;
    while a[at + len] != NUL
      invariant at + len < a.Length
      invariant NulFree(a[at..at + len])
      decreases a.Length - len
    {
      assert a[at..at + len + 1] == a[at..at + len] + [a[at + len]];
      len := len + 1;
      assert a[at..][..len] == a[at..at + len];
      ProperPrefix(a[at..], len);
    }
    assert a[at..][..len] == a[at..at + len];
    StrLenUnique(a[at..], len);
  }

  /** strncpy: bytes of src up to its NUL or n of them, the rest of the n padded with NULs. */
  method Strncpy(dest: array<Byte>, src: array<Byte>, n: nat)
    requires dest != src && n <= dest.Length && NUL in src[..]
    modifies dest
    ensures var m := StrLen(src[..]);
      dest[..n] == if n <= m then src[..n] else src[..m] + Zeros(n - m)
    ensures dest[n..] == old(dest[n..])
  {
    var m := Strlen(src, 0);
    assert src[0..] == src[..];
    var i := 0;
    while src[i] != NUL && i < n
      invariant 0 <= i <= n && i <= m
      invariant dest[..i] == src[..i]
      invariant dest[n..] == old(dest[n..])
      decreases n - i
    {
      dest[i] := src[i];
      i := i + 1;
    }
    assert forall k | 0 <= k < m :: src[..m][k] == src[k];
    ghost var stop := i;
    assert src[..stop] + Zeros(0) == src[..stop];
    while i < n
      invariant stop <= i <= n
      invariant dest[..i] == src[..stop] + Zeros(i - stop)
      invariant dest[n..] == old(dest[n..])
    {
      dest[i] := NUL;
      MoreZeros(src[..stop], i - stop);
      i := i + 1;
      assert dest[..i] == dest[..i - 1] + [NUL];
    }
  }

  lemma MoreZeros(s: seq<Byte>, n: nat)
    ensures s + Zeros(n) + [NUL] == s + Zeros(n + 1)
  {
  }
}
