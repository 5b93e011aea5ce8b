/** Bytes, little endian fields and in-place patches of byte buffers. */
module Bytes {

  type byte = b: int | 0 <= b < 256

  datatype Option<+T> = None | Some(value: T)

  function U16(s: seq<byte>, at: nat): (v: nat)
    requires at + 2 <= |s|
    ensures v < 0x1_0000
  {
    s[at] as int + 0x100 * s[at + 1] as int
  }

  function U32(s: seq<byte>, at: nat): (v: nat)
    requires at + 4 <= |s|
    ensures v < 0x1_0000_0000
  {
    U16(s, at) + 0x1_0000 * U16(s, at + 2)
  }

  function U64(s: seq<byte>, at: nat): (v: nat)
    requires at + 8 <= |s|
    ensures v < 0x1_0000_0000_0000_0000
  {
    U32(s, at) + 0x1_0000_0000 * U32(s, at + 4)
  }

  function Le16(v: nat): (s: seq<byte>)
    requires v < 0x1_0000
    ensures |s| == 2 && U16(s, 0) == v
  {
    [v % 0x100, v / 0x100]
  }

  function Le32(v: nat): (s: seq<byte>)
    requires v < 0x1_0000_0000
    ensures |s| == 4 && U32(s, 0) == v
  {
    Le16(v % 0x1_0000) + Le16(v / 0x1_0000)
  }

  function Zeros(n: nat): (s: seq<byte>)
    ensures |s| == n && forall i :: 0 <= i < n ==> s[i] == 0
  {
    seq(n, i => 0)
  }

  /** `s` with `field` written over it from `at` on. */
  function Patch<T>(s: seq<T>, at: nat, field: seq<T>): (r: seq<T>)
    requires at + |field| <= |s|
    ensures |r| == |s|
    ensures forall i :: 0 <= i < |s| ==> r[i] == if at <= i < at + |field| then field[i - at] else s[i]
  {
    s[..at] + field + s[at + |field|..]
  }

  /** A field written reads back, and fields beside it are as before. */
  lemma PatchU16(s: seq<byte>, at: nat, v: nat, other: nat)
    requires at + 2 <= |s| && v < 0x1_0000
    ensures U16(Patch(s, at, Le16(v)), at) == v
    ensures other + 2 <= |s| && (other + 2 <= at || at + 2 <= other) ==>
            U16(Patch(s, at, Le16(v)), other) == U16(s, other)
  {
  }

  lemma PatchU32(s: seq<byte>, at: nat, v: nat, other: nat)
    requires at + 4 <= |s| && v < 0x1_0000_0000
    ensures U32(Patch(s, at, Le32(v)), at) == v
    ensures other + 4 <= |s| && (other + 4 <= at || at + 4 <= other) ==>
            U32(Patch(s, at, Le32(v)), other) == U32(s, other)
  {
  }

  lemma SubsetSize<T>(a: set<T>, b: set<T>)
    requires a <= b
    ensures |a| <= |b|
  {
    assert b == a + (b - a);
  }
}
