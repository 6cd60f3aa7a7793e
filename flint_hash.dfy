/** The name hash of the Flint writer (tools/flint.h): MurmurHash3 in its
    x86 32-bit variant (`murmur32`) and the cache key built from it
    (`hash_entry`). Arithmetic is on 32-bit words, so every multiplication and
    addition wraps modulo 2^32 as uint32_t does. */
module FlintHash {
  import opened Bytes

  const C1: bv32 := 0xcc9e2d51
  const C2: bv32 := 0x1b873593
  const N: bv32 := 0xe6546b64
  const F1: bv32 := 0x85ebca6b
  const F2: bv32 := 0xc2b2ae35

  /** The seed hash_entry starts from (the 32-bit FNV offset basis). */
  const ENTRY_SEED: u32 := 2166136261

  /** The scrambling of one 32-bit word: times c1, rotate left 15, times c2. */
  function ScrambleK(k: bv32): bv32
  {
    var a := k * C1;
    var b := (a << 15) | (a >> 17);
    b * C2
  }

  /** Folding one scrambled block into the state: xor, rotate left 13,
      times 5 plus 0xe6546b64. */
  function MixH(h: bv32, k: bv32): bv32
  {
    var x := h ^ ScrambleK(k);
    var y := (x << 13) | (x >> 19);
    y * 5 + N
  }

  /** Block `i` of the key, read as a little-endian word. */
  function Word(key: seq<bv8>, i: nat): bv32
    requires 4 * i + 4 <= |key|
  {
    (key[4 * i] as bv32)
    | ((key[4 * i + 1] as bv32) << 8)
    | ((key[4 * i + 2] as bv32) << 16)
    | ((key[4 * i + 3] as bv32) << 24)
  }

  /** The state after the first `n` blocks. */
  function Blocks(seed: bv32, key: seq<bv8>, n: nat): bv32
    requires 4 * n <= |key|
  {
    if n == 0 then seed else MixH(Blocks(seed, key, n - 1), Word(key, n - 1))
  }

  /** The 1 to 3 bytes after the last whole block, as one word (the
      fall-through switch on len & 3). */
  function TailWord(key: seq<bv8>): bv32
  {
    var rem := |key| % 4;
    var base := |key| - rem;
    var k2: bv32 := if rem == 3 then (key[base + 2] as bv32) << 16 else 0;
    var k1: bv32 := if rem >= 2 then k2 ^ ((key[base + 1] as bv32) << 8) else k2;
    if rem >= 1 then k1 ^ (key[base] as bv32) else k1
  }

  /** The final avalanche (fmix32). */
  function FMix(h: bv32): bv32
  {
    var a := h ^ (h >> 16);
    var b := a * F1;
    var c := b ^ (b >> 13);
    var d := c * F2;
    d ^ (d >> 16)
  }

  /** A length as a 32-bit word, counted up modulo 2^32. */
  function Len32(n: nat): bv32
  {
    if n == 0 then 0 else Len32(n - 1) + 1
  }

  /** What follows the block loop: the tail, the length and fmix32. */
  function Finish(h: bv32, key: seq<bv8>): bv32
  {
    var t := if |key| % 4 == 0 then h else h ^ ScrambleK(TailWord(key));
    FMix(t ^ Len32(|key|))
  }

  /** MurmurHash3_x86_32 of a key of 32-bit words' bytes. */
  function Murmur32Bits(key: seq<bv8>, seed: bv32): bv32
  {
    Finish(Blocks(seed, key, |key| / 4), key)
  }

  function Bits(s: seq<byte>): (r: seq<bv8>)
    ensures |r| == |s|
  {
    seq(|s|, i requires 0 <= i < |s| => s[i] as bv8)
  }

  /** MurmurHash3_x86_32 of `key` with `seed`. */
  function Murmur32(key: seq<byte>, seed: u32): u32
  {
    Murmur32Bits(Bits(key), seed as bv32) as u32
  }

  /** murmur32: the loop over the 4-byte blocks, then the tail and the
      finaliser. */
  method Murmur32BitsLoop(key: seq<bv8>, seed: bv32) returns (h: bv32)
    ensures h == Murmur32Bits(key, seed)
  {
    var l := |key| / 4;
    h := seed;
    var i := 0;
    while i < l
      invariant 0 <= i <= l
      invariant h == Blocks(seed, key, i)
    {
      var k := Word(key, i);
      h := MixH(h, k);
      i := i + 1;
    }
    h := Finish(h, key);
  }

  /** murmur32 on the bytes of the name buffer. */
  method Murmur32Loop(key: seq<byte>, seed: u32) returns (r: u32)
    ensures r == Murmur32(key, seed)
  {
    var d := Bits(key);
    var s: bv32 := seed as bv32;
    var h := Murmur32BitsLoop(d, s);
    assert h == Murmur32Bits(d, s);
    r := h as u32;
  }

  /** Known answers of MurmurHash3_x86_32: the empty key with seed 0 hashes
      to 0, and the empty key with seed 1 to the published 0x514e28b7. */
  lemma EmptyKeyAnswers()
    ensures Murmur32Bits([], 0) == 0
    ensures Murmur32Bits([], 1) == 0x514e28b7
  {
  }

  /** The published answer for the one-block key "test" with seed 0. */
  lemma OneBlockAnswer()
    ensures Murmur32Bits([0x74, 0x65, 0x73, 0x74], 0) == 0xba6bd213
  {
    assert Len32(4) == 4;
    assert Blocks(0, [0x74, 0x65, 0x73, 0x74], 1) == MixH(0, Word([0x74, 0x65, 0x73, 0x74], 0));
  }

  /** The published answer for "abc" with seed 0, a key made of a tail only. */
  lemma TailOnlyAnswer()
    ensures Murmur32Bits([0x61, 0x62, 0x63], 0) == 0xb3dd93fa
  {
    assert Len32(3) == 3;
  }

  /** The published answer for "Hello, world!" with seed 1234: three blocks
      and a one-byte tail. */
  lemma BlocksAndTailAnswer()
    ensures Murmur32Bits([0x48, 0x65, 0x6c, 0x6c, 0x6f, 0x2c, 0x20, 0x77, 0x6f, 0x72, 0x6c, 0x64, 0x21], 1234) == 0xfaf6cdb3
  {
    var key: seq<bv8> := [0x48, 0x65, 0x6c, 0x6c, 0x6f, 0x2c, 0x20, 0x77, 0x6f, 0x72, 0x6c, 0x64, 0x21];
    assert Len32(13) == 13;
    assert Blocks(1234, key, 1) == MixH(1234, Word(key, 0));
    assert Blocks(1234, key, 2) == MixH(Blocks(1234, key, 1), Word(key, 1));
    assert Blocks(1234, key, 3) == MixH(Blocks(1234, key, 2), Word(key, 2));
  }

  /** The byte-level hash agrees with the word-level one on "test". */
  lemma Murmur32OnBytes()
    ensures Murmur32([0x74, 0x65, 0x73, 0x74], 0) == 0xba6bd213
  {
    assert Bits([0x74, 0x65, 0x73, 0x74]) == [0x74, 0x65, 0x73, 0x74];
    OneBlockAnswer();
  }

  /** hash_entry: the name hashed from the fixed seed, then re-seeded through
      the four little-endian bytes of the pid and then of the tid. */
  function HashEntry(name: seq<byte>, tid: u32, pid: u32): u32
  {
    Murmur32(LE32(tid), Murmur32(LE32(pid), Murmur32(name, ENTRY_SEED)))
  }

  /** hash_entry as the source computes it, by three calls of murmur32. */
  method HashEntryLoop(name: seq<byte>, tid: u32, pid: u32) returns (r: u32)
    ensures r == HashEntry(name, tid, pid)
  {
    r := Murmur32Loop(name, ENTRY_SEED);
    r := Murmur32Loop(LE32(pid), r);
    r := Murmur32Loop(LE32(tid), r);
  }
}
