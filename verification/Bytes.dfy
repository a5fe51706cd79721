/** Bytes, big-endian numbers, and slice reads and writes as Python's bytearray performs them. */
module Bytes {

  type byte = x: int | 0 <= x < 256
  type u32 = x: int | 0 <= x < 0x1_0000_0000

  /** The number `n` big-endian bytes can hold is below this. */
  function Pow256(n: nat): (r: nat)
    ensures r > 0
  {
    if n == 0 then 1 else 256 * Pow256(n - 1)
  }

  /** The number the bytes form, most significant first. */
  function FromBytes(s: seq<byte>): nat {
    if s == [] then 0 else FromBytes(s[..|s| - 1]) * 256 + s[|s| - 1]
  }

  lemma {:induction false} FromBytesBound(s: seq<byte>)
    ensures FromBytes(s) < Pow256(|s|)
  {
    if s != [] {
      FromBytesBound(s[..|s| - 1]);
    }
  }

  /** The n bytes of a number that fits, most significant first. */
  function ToBytes(v: nat, n: nat): (s: seq<byte>)
    ensures |s| == n
  {
    if n == 0 then [] else ToBytes(v / 256, n - 1) + [v % 256]
  }

  lemma {:induction false} BytesRoundTrip(v: nat, n: nat)
    requires v < Pow256(n)
    ensures FromBytes(ToBytes(v, n)) == v
  {
    if n > 0 {
      BytesRoundTrip(v / 256, n - 1);
      var s := ToBytes(v, n);
      assert s[..|s| - 1] == ToBytes(v / 256, n - 1);
    }
  }

  lemma Pow256Of4()
    ensures Pow256(2) == 0x1_0000 && Pow256(4) == 0x1_0000_0000
  {
    assert Pow256(4) == 256 * Pow256(3) == 256 * 256 * Pow256(2) == 256 * 256 * 256 * Pow256(1);
  }

  lemma Word32RoundTrip(v: u32)
    ensures FromBytes(ToBytes(v, 4)) == v
  {
    Pow256Of4();
    BytesRoundTrip(v, 4);
  }

  /** The big-endian 32-bit word at an offset. */
  function Word32(b: seq<byte>, at: nat): u32
    requires at + 4 <= |b|
  {
    FromBytesBound(b[at..at + 4]);
    Pow256Of4();
    FromBytes(b[at..at + 4])
  }

  /** The first byte counts most. */
  lemma BigEndian(a: byte, b: byte, c: byte, d: byte)
    ensures FromBytes([a, b]) == 256 * a + b
    ensures FromBytes([a, b, c, d]) == 0x100_0000 * a + 0x1_0000 * b + 0x100 * c + d
  {
    assert [a][..0] == [] && [a, b][..1] == [a] && [a, b, c][..2] == [a, b] && [a, b, c, d][..3] == [a, b, c];
    assert FromBytes([a]) == a && FromBytes([a, b]) == 256 * a + b;
  }

  /** s after a slice assignment of t at an offset, of which only what stays inside s is kept. */
  function Overwrite<T>(s: seq<T>, at: nat, t: seq<T>): (r: seq<T>)
    ensures |r| == |s|
  {
    seq(|s|, i requires 0 <= i < |s| => if at <= i < at + |t| then t[i - at] else s[i])
  }

  /** A Python slice with nonnegative bounds: clipped at the end of s, never an error. */
  function Slice<T>(s: seq<T>, lo: nat, hi: nat): (r: seq<T>) {
    if lo >= |s| || hi <= lo then [] else s[lo..if hi < |s| then hi else |s|]
  }

  /** Byte by byte: position m of a slice is position lo + m of s, as long as both are there. */
  lemma SliceExact<T>(s: seq<T>, lo: nat, hi: nat)
    ensures var r := Slice(s, lo, hi);
      && (forall m :: 0 <= m < |r| ==> lo + m < |s| && r[m] == s[lo + m])
      && |r| == if hi <= lo || |s| <= lo then 0 else if hi <= |s| then hi - lo else |s| - lo
  {
  }

  function Fill(b: byte, n: nat): (s: seq<byte>)
    ensures |s| == n
  {
    seq(n, _ => b)
  }

  /** Assign t to a slice of a, in place. */
  method WriteSlice(a: array<byte>, at: nat, t: seq<byte>)
    requires at + |t| <= a.Length
    modifies a
    ensures a[..] == Overwrite(old(a[..]), at, t)
  {
    forall i | 0 <= i < |t| {
      a[at + i] := t[i];
    }
    assert forall i :: 0 <= i < a.Length ==> a[i] == Overwrite(old(a[..]), at, t)[i];
  }
}
