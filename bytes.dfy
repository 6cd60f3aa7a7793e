/** Raw bytes, fixed-width unsigned integers and the little-endian layout the
    trace writers use for every integer field of their packed records (the
    host's byte order, little-endian on every target the writers support). */
module Bytes {

  newtype byte = x: int | 0 <= x < 0x100
  newtype u16 = x: int | 0 <= x < 0x1_0000
  newtype u32 = x: int | 0 <= x < 0x1_0000_0000
  newtype u64 = x: int | 0 <= x < 0x1_0000_0000_0000_0000

  const TWO_POW_32: int := 0x1_0000_0000
  const TWO_POW_64: int := 0x1_0000_0000_0000_0000

  datatype Option<+T> = None | Some(value: T)

  function Min(a: int, b: int): int { if a < b then a else b }
  function Max(a: int, b: int): int { if a < b then b else a }

  function Pow256(n: nat): (r: nat)
    ensures r > 0
  {
    if n == 0 then 1 else 256 * Pow256(n - 1)
  }

  /** The `n` low-order bytes of `x`, least significant first. */
  function LE(x: nat, n: nat): (r: seq<byte>)
    ensures |r| == n
  {
    if n == 0 then [] else [(x % 256) as byte] + LE(x / 256, n - 1)
  }

  /** The unsigned value of a little-endian byte string. */
  function ReadLE(s: seq<byte>): (r: nat)
  {
    if s == [] then 0 else s[0] as nat + 256 * ReadLE(s[1..])
  }

  lemma {:induction false} ReadLEBound(s: seq<byte>)
    ensures ReadLE(s) < Pow256(|s|)
  {
    if s != [] {
      ReadLEBound(s[1..]);
    }
  }

  lemma {:induction false} LERoundTrip(x: nat, n: nat)
    requires x < Pow256(n)
    ensures ReadLE(LE(x, n)) == x
  {
    if n > 0 {
      LERoundTrip(x / 256, n - 1);
      assert LE(x, n)[1..] == LE(x / 256, n - 1);
    }
  }

  function LE16(x: u16): (r: seq<byte>)
    ensures |r| == 2
  {
    LE(x as nat, 2)
  }

  function LE32(x: u32): (r: seq<byte>)
    ensures |r| == 4
  {
    LE(x as nat, 4)
  }

  function LE64(x: u64): (r: seq<byte>)
    ensures |r| == 8
  {
    LE(x as nat, 8)
  }

  function ReadLE16(s: seq<byte>): u16
    requires |s| >= 2
  {
    ReadLEBound(s[..2]);
    ReadLE(s[..2]) as u16
  }

  function ReadLE32(s: seq<byte>): u32
    requires |s| >= 4
  {
    ReadLEBound(s[..4]);
    ReadLE(s[..4]) as u32
  }

  function ReadLE64(s: seq<byte>): u64
    requires |s| >= 8
  {
    ReadLEBound(s[..8]);
    assert Pow256(8) == TWO_POW_64;
    ReadLE(s[..8]) as u64
  }

  lemma LE16RoundTrip(x: u16)
    ensures ReadLE16(LE16(x)) == x
  {
    LERoundTrip(x as nat, 2);
    assert LE16(x)[..2] == LE16(x);
  }

  lemma LE32RoundTrip(x: u32)
    ensures ReadLE32(LE32(x)) == x
  {
    assert Pow256(4) == TWO_POW_32;
    LERoundTrip(x as nat, 4);
    assert LE32(x)[..4] == LE32(x);
  }

  lemma LE64RoundTrip(x: u64)
    ensures ReadLE64(LE64(x)) == x
  {
    assert Pow256(8) == TWO_POW_64;
    LERoundTrip(x as nat, 8);
    assert LE64(x)[..8] == LE64(x);
  }

  /** Copies `bytes` into `a` starting at `at`, as `memcpy` does, and changes nothing else. */
  method CopyInto(a: array<byte>, at: nat, bytes: seq<byte>)
    requires at + |bytes| <= a.Length
    modifies a
    ensures a[..] == old(a[..at]) + bytes + old(a[at + |bytes|..])
  {
    var i := 0;
    while i < |bytes|
      invariant 0 <= i <= |bytes|
      invariant a[..at] == old(a[..at])
      invariant a[at..at + i] == bytes[..i]
      invariant a[at + i..] == old(a[at + i..])
    {
      a[at + i] := bytes[i];
      i := i + 1;
      assert a[at..at + i] == a[at..at + i - 1] + [a[at + i - 1]];
    }
    assert a[..] == a[..at] + a[at..at + |bytes|] + a[at + |bytes|..];
  }
}
