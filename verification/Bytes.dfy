// Bytes, 32-bit words and flat memory, shared by every other module.

module Bytes {

  datatype Option<+T> = None | Some(value: T)

  type Byte = x: int | 0 <= x < 0x100

  const WORD := 0x1_0000_0000
  type U32 = x: int | 0 <= x < WORD

  /** The value a C computation leaves in a 32-bit unsigned variable. */
  function Wrap(x: int): (r: U32)
    ensures 0 <= x < WORD ==> r == x
    ensures WORD <= x < 2 * WORD ==> r == x - WORD
  {
    x % WORD
  }

  /** A 32-bit word read as a signed integer. */
  function Signed(w: U32): (r: int)
    ensures -0x8000_0000 <= r < 0x8000_0000
  {
    if w < 0x8000_0000 then w else w - WORD
  }

  lemma SignedWrap(x: int)
    requires -0x8000_0000 <= x < 0x8000_0000
    ensures Signed(Wrap(x)) == x
  {
    if x < 0 {
      assert (x + WORD) % WORD == x % WORD;
    }
  }

  // ---- little-endian words -------------------------------------------------

  function EncodeWord(w: U32): (b: seq<Byte>)
    ensures |b| == 4
  {
    [w % 0x100, w / 0x100 % 0x100, w / 0x1_0000 % 0x100, w / 0x100_0000]
  }

  function DecodeWord(b: seq<Byte>): U32
    requires |b| == 4
  {
    var x0: int, x1: int, x2: int, x3: int := b[0], b[1], b[2], b[3];
    x0 + 0x100 * x1 + 0x1_0000 * x2 + 0x100_0000 * x3
  }

  lemma WordRoundTrip(w: U32)
    ensures DecodeWord(EncodeWord(w)) == w
  {
    assert w == w % 0x100 + 0x100 * (w / 0x100);
    assert w / 0x100 / 0x100 == w / 0x1_0000;
    assert w / 0x1_0000 / 0x100 == w / 0x100_0000;
  }

  function EncodeWords(ws: seq<U32>): (b: seq<Byte>)
    ensures |b| == 4 * |ws|
  {
    seq(4 * |ws|, i requires 0 <= i < 4 * |ws| => EncodeWord(ws[i / 4])[i % 4])
  }

  function DecodeWords(b: seq<Byte>): (ws: seq<U32>)
    requires |b| % 4 == 0
    ensures 4 * |ws| == |b|
  {
    seq(|b| / 4, i requires 0 <= i < |b| / 4 => DecodeWord(b[4 * i..4 * i + 4]))
  }

  lemma WordAt(ws: seq<U32>, k: nat)
    requires k < |ws|
    ensures EncodeWords(ws)[4 * k..4 * k + 4] == EncodeWord(ws[k])
  {
    var s, e := EncodeWords(ws)[4 * k..4 * k + 4], EncodeWord(ws[k]);
    forall j | 0 <= j < 4 ensures s[j] == e[j] {
      assert (4 * k + j) / 4 == k && (4 * k + j) % 4 == j;
    }
  }

  lemma WordsRoundTrip(ws: seq<U32>)
    ensures DecodeWords(EncodeWords(ws)) == ws
  {
    var d := DecodeWords(EncodeWords(ws));
    forall k | 0 <= k < |ws| ensures d[k] == ws[k] {
      WordAt(ws, k);
      WordRoundTrip(ws[k]);
    }
  }

  // ---- flat memory ---------------------------------------------------------

  function Zeros(n: nat): (z: seq<Byte>)
    ensures |z| == n && forall i :: 0 <= i < n ==> z[i] == 0
  {
    seq(n, i => 0)
  }

  /** Memory `m` after copying `d` to offset `at`. */
  function Blit<T>(m: seq<T>, at: nat, d: seq<T>): (r: seq<T>)
    requires at + |d| <= |m|
    ensures |r| == |m|
    ensures forall i :: 0 <= i < |m| ==> r[i] == if at <= i < at + |d| then d[i - at] else m[i]
  {
    seq(|m|, i requires 0 <= i < |m| => if at <= i < at + |d| then d[i - at] else m[i])
  }

  lemma BlitRead<T>(m: seq<T>, at: nat, d: seq<T>)
    requires at + |d| <= |m|
    ensures Blit(m, at, d)[at..at + |d|] == d
  {
  }

  /** Any part of the bytes written reads back. */
  lemma BlitPart<T>(m: seq<T>, at: nat, d: seq<T>, lo: nat, hi: nat)
    requires at + |d| <= |m| && lo <= hi <= |d|
    ensures Blit(m, at, d)[at + lo..at + hi] == d[lo..hi]
  {
  }

  lemma SubSlice<T>(s: seq<T>, lo: nat, hi: nat, a: nat, b: nat)
    requires lo <= hi <= |s| && a <= b <= hi - lo
    ensures s[lo..hi][a..b] == s[lo + a..lo + b]
  {
    var x, y := s[lo..hi][a..b], s[lo + a..lo + b];
    forall i | 0 <= i < b - a ensures x[i] == y[i] {
      assert x[i] == s[lo..hi][a + i] == s[lo + a + i];
    }
    assert x == y;
  }

  /** A window that does not meet the bytes written is unchanged. */
  lemma BlitFrame<T>(m: seq<T>, at: nat, d: seq<T>, lo: nat, hi: nat)
    requires at + |d| <= |m| && lo <= hi <= |m|
    requires hi <= at || at + |d| <= lo
    ensures Blit(m, at, d)[lo..hi] == m[lo..hi]
  {
  }

  /** Writing inside a window is writing to the window. */
  lemma BlitInside<T>(m: seq<T>, at: nat, d: seq<T>, lo: nat, hi: nat)
    requires lo <= at && at + |d| <= hi <= |m|
    ensures Blit(m, at, d)[lo..hi] == Blit(m[lo..hi], at - lo, d)
  {
  }

  // ---- table scans ---------------------------------------------------------

  /** The first index whose entry satisfies `p`, or -1. */
  function FirstIndex<T>(s: seq<T>, p: T -> bool): (r: int)
    ensures -1 <= r < |s|
    ensures r >= 0 ==> p(s[r]) && forall j :: 0 <= j < r ==> !p(s[j])
    ensures r < 0 ==> forall j :: 0 <= j < |s| ==> !p(s[j])
  {
    if s == [] then -1
    else if p(s[0]) then 0
    else
      var r := FirstIndex(s[1..], p);
      assert forall j :: 0 < j < |s| ==> s[j] == s[1..][j - 1];
      if r < 0 then -1 else r + 1
  }
}
