/** Bytes, big-endian 32-bit words and block moves: the vocabulary in which the
    flattened device tree is written. */
module Bytes {
  type byte = x: int | 0 <= x < 256

  const WORD: nat := 0x1_0000_0000

  /** The bytes of an ASCII string. */
  function Text(s: string): (r: seq<byte>)
    ensures |r| == |s|
  {
    seq(|s|, i requires 0 <= i < |s| => s[i] as int % 256)
  }

  function BE32(v: nat): (b: seq<byte>)
    requires v < WORD
    ensures |b| == 4
  {
    [v / 0x100_0000, v / 0x1_0000 % 256, v / 0x100 % 256, v % 256]
  }

  function U32(b: seq<byte>, i: nat): (v: nat)
    requires i + 4 <= |b|
    ensures v < WORD
  {
    b[i] as int * 0x100_0000 + b[i + 1] as int * 0x1_0000 + b[i + 2] as int * 0x100 + b[i + 3]
  }

  lemma WordRoundTrip(v: nat)
    requires v < WORD
    ensures U32(BE32(v), 0) == v
  {
    var a, b, c := v / 0x100, v / 0x1_0000, v / 0x100_0000;
    assert v == a * 0x100 + v % 0x100;
    assert a == b * 0x100 + a % 0x100;
    assert b == c * 0x100 + b % 0x100;
  }

  lemma WordInside(pre: seq<byte>, v: nat, post: seq<byte>)
    requires v < WORD
    ensures U32(pre + BE32(v) + post, |pre|) == v
  {
    var b := pre + BE32(v) + post;
    assert forall k :: 0 <= k < 4 ==> b[|pre| + k] == BE32(v)[k];
    WordRoundTrip(v);
  }

  lemma WordBytes(b: seq<byte>, i: nat)
    requires i + 4 <= |b|
    ensures BE32(U32(b, i)) == b[i..i + 4]
  {
    var v := U32(b, i);
    var b0: int, b1: int, b2: int := b[i], b[i + 1], b[i + 2];
    assert v / 0x100_0000 == b0;
    assert v / 0x1_0000 == b0 * 0x100 + b1;
    assert v / 0x100 == b0 * 0x1_0000 + b1 * 0x100 + b2;
  }

  lemma Assoc(a: seq<byte>, b: seq<byte>, c: seq<byte>)
    ensures (a + b) + c == a + (b + c)
  {
  }

  /** Round up to a multiple of the tag size. */
  function Align4(n: nat): (a: nat)
    ensures n <= a < n + 4 && a % 4 == 0
  {
    (n + 3) / 4 * 4
  }

  lemma AlignShift(base: nat, n: nat)
    requires base % 4 == 0
    ensures Align4(base + n) == base + Align4(n)
  {
  }

  /** First index at or after `i` holding a NUL, or the length if there is none. */
  function NulFrom(s: seq<byte>, i: nat): (e: nat)
    requires i <= |s|
    ensures i <= e <= |s|
    decreases |s| - i
  {
    if i == |s| || s[i] == 0 then i else NulFrom(s, i + 1)
  }

  lemma NulFromFacts(s: seq<byte>, i: nat)
    requires i <= |s|
    ensures NulFrom(s, i) < |s| ==> s[NulFrom(s, i)] == 0
    ensures 0 !in s[i..NulFrom(s, i)]
    decreases |s| - i
  {
  }

  lemma NulFromIs(s: seq<byte>, i: nat, e: nat)
    requires i <= e < |s| && s[e] == 0
    requires forall k :: i <= k < e ==> s[k] != 0
    ensures NulFrom(s, i) == e
    decreases |s| - i
  {
  }

  /** The buffer after bytes `x` have been stored at `at`. */
  function Put(buf: seq<byte>, at: nat, x: seq<byte>): (r: seq<byte>)
    requires at + |x| <= |buf|
    ensures |r| == |buf|
  {
    buf[..at] + x + buf[at + |x|..]
  }

  /** The buffer after `n` bytes at `src` have been moved to `dst`. */
  function Moved(buf: seq<byte>, dst: nat, src: nat, n: nat): (r: seq<byte>)
    requires dst + n <= |buf| && src + n <= |buf|
    ensures |r| == |buf|
  {
    Put(buf, dst, buf[src..src + n])
  }

  /** A slice that the stored bytes do not touch is unchanged. */
  lemma PutElsewhere(buf: seq<byte>, at: nat, x: seq<byte>, lo: nat, hi: nat)
    requires at + |x| <= |buf| && lo <= hi <= |buf|
    requires hi <= at || at + |x| <= lo
    ensures Put(buf, at, x)[lo..hi] == buf[lo..hi]
  {
  }

  lemma PutHere(buf: seq<byte>, at: nat, x: seq<byte>)
    requires at + |x| <= |buf|
    ensures Put(buf, at, x)[at..at + |x|] == x
  {
  }

  /** Storing inside a slice is the same as storing into the slice. */
  lemma PutInside(buf: seq<byte>, at: nat, x: seq<byte>, lo: nat, hi: nat)
    requires lo <= at && at + |x| <= hi <= |buf|
    ensures Put(buf, at, x)[lo..hi] == Put(buf[lo..hi], at - lo, x)
  {
  }
}
