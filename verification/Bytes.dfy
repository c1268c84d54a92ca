/** Bytes, little-endian words and in-place splices of byte sequences. */
module Bytes {

  type byte = b: int | 0 <= b < 256

  datatype Option<+T> = None | Some(value: T)

  /** The sub-sequence of `n` elements at offset `at`. */
  function Slice<T>(s: seq<T>, at: nat, n: nat): (r: seq<T>)
    requires at + n <= |s|
    ensures |r| == n
  {
    s[at..at + n]
  }

  /** `s` with `t` stored over it at offset `at` (a `memcpy` into a buffer). */
  function Splice<T>(s: seq<T>, at: nat, t: seq<T>): (r: seq<T>)
    requires at + |t| <= |s|
    ensures |r| == |s|
    ensures forall i :: 0 <= i < |s| ==> r[i] == if at <= i < at + |t| then t[i - at] else s[i]
  {
    s[..at] + t + s[at + |t|..]
  }

  lemma SliceOfSplice<T>(s: seq<T>, at: nat, t: seq<T>, from: nat, n: nat)
    requires at + |t| <= |s| && from + n <= |s|
    ensures from == at && n == |t| ==> Slice(Splice(s, at, t), from, n) == t
    ensures from + n <= at || at + |t| <= from ==> Slice(Splice(s, at, t), from, n) == Slice(s, from, n)
  {
  }

  function Zeros(n: nat): (r: seq<byte>)
    ensures |r| == n && forall i :: 0 <= i < n ==> r[i] == 0
  {
    seq(n, _ => 0)
  }

  function U16At(s: seq<byte>, k: nat): (v: nat)
    requires k + 2 <= |s|
    ensures v < 0x1_0000
  {
    s[k] + 0x100 * (s[k + 1] as int)
  }

  function U32At(s: seq<byte>, k: nat): (v: nat)
    requires k + 4 <= |s|
    ensures v < 0x1_0000_0000
  {
    s[k] + 0x100 * (s[k + 1] as int) + 0x1_0000 * (s[k + 2] as int) + 0x100_0000 * (s[k + 3] as int)
  }

  function U64At(s: seq<byte>, k: nat): (v: nat)
    requires k + 8 <= |s|
    ensures v < 0x1_0000_0000_0000_0000
  {
    U32At(s, k) + 0x1_0000_0000 * U32At(s, k + 4)
  }

  /** The 28 bits of a table entry that name a cluster. */
  function Mask28(v: nat): (r: nat)
    ensures v < 0x1000_0000 ==> r == v
  {
    v % 0x1000_0000
  }

  function LE16(v: nat): (r: seq<byte>)
    requires v < 0x1_0000
    ensures |r| == 2
  {
    [v % 0x100, v / 0x100]
  }

  function LE32(v: nat): (r: seq<byte>)
    requires v < 0x1_0000_0000
    ensures |r| == 4
  {
    [v % 0x100, v / 0x100 % 0x100, v / 0x100 / 0x100 % 0x100, v / 0x100 / 0x100 / 0x100]
  }

  lemma U32OfLE32(v: nat)
    requires v < 0x1_0000_0000
    ensures U32At(LE32(v), 0) == v
  {
    var q := v / 0x100;
    assert v == 0x100 * q + v % 0x100;
    assert q == 0x100 * (q / 0x100) + q % 0x100;
  }

  /** A word stored at `at` is read back there, and words elsewhere are untouched. */
  lemma U32AfterSplice(s: seq<byte>, at: nat, v: nat, k: nat)
    requires at + 4 <= |s| && k + 4 <= |s| && v < 0x1_0000_0000
    ensures k == at ==> U32At(Splice(s, at, LE32(v)), k) == v
    ensures k + 4 <= at || at + 4 <= k ==> U32At(Splice(s, at, LE32(v)), k) == U32At(s, k)
  {
    U32OfLE32(v);
  }
}
