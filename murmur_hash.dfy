/**
 * `MurmurHash2`: the 32-bit hash the topic-alias store keys topic names by.
 * All arithmetic is on unsigned 32-bit words and wraps, as `uint` does; the
 * seed is fixed.  The hash is taken over the UTF-8 bytes of the topic name.
 */
module MurmurHash {
  import opened Bytes

  const M: bv32 := 0x5bd1e995
  const Seed: bv32 := 0xc58f1a7a

  /** The four bytes from `i` as a little-endian word. */
  function Block(data: seq<Byte>, i: nat): bv32
    requires i + 4 <= |data|
  {
    (data[i] as bv32) | ((data[i + 1] as bv32) << 8) | ((data[i + 2] as bv32) << 16) | ((data[i + 3] as bv32) << 24)
  }

  /** Multiplication by the mixing constant, wrapping at 32 bits. */
  function MulM(x: bv32): bv32
  {
    x * M
  }

  /** A block scrambled before it is mixed in: `k *= m; k ^= k >> r; k *= m` with `r` = 24. */
  function Scramble(k: bv32): bv32
  {
    var k1 := MulM(k);
    MulM(k1 ^ (k1 >> 24))
  }

  /** One block mixed into the running hash: `h *= m; h ^= k`. */
  function Mix(h: bv32, k: bv32): bv32
  {
    MulM(h) ^ Scramble(k)
  }

  /** The running hash after the first `n` blocks, starting from `h0`. */
  function Blocks(data: seq<Byte>, h0: bv32, n: nat): bv32
    requires 4 * n <= |data|
  {
    if n == 0 then h0 else Mix(Blocks(data, h0, n - 1), Block(data, 4 * (n - 1)))
  }

  /** One more block. */
  lemma BlocksStep(data: seq<Byte>, h0: bv32, n: nat)
    requires 4 * (n + 1) <= |data|
    ensures Blocks(data, h0, n + 1) == Mix(Blocks(data, h0, n), Block(data, 4 * n))
  {
  }

  /** A length of `4 * n` plus fewer than four has `n` whole blocks. */
  lemma WholeBlocks(length: nat, n: nat)
    requires 4 * n <= length < 4 * n + 4
    ensures length / 4 == n
  {
  }

  /**
   * The switch on the bytes left after the blocks: the last one to three
   * bytes mixed into `h`, the first two as a 16-bit little-endian value;
   * nothing when none is left.
   */
  function Tail(data: seq<Byte>, h: bv32, i: nat): bv32
    requires i <= |data| < i + 4
  {
    var left := |data| - i;
    if left == 3 then MulM((h ^ ((data[i] as bv32) | ((data[i + 1] as bv32) << 8))) ^ ((data[i + 2] as bv32) << 16))
    else if left == 2 then MulM(h ^ ((data[i] as bv32) | ((data[i + 1] as bv32) << 8)))
    else if left == 1 then MulM(h ^ (data[i] as bv32))
    else h
  }

  /** The final avalanche: `h ^= h >> 13; h *= m; h ^= h >> 15`. */
  function Avalanche(h: bv32): bv32
  {
    var h1 := MulM(h ^ (h >> 13));
    h1 ^ (h1 >> 15)
  }

  /**
   * The hash of `data`: 0 for no bytes; otherwise the seed mixed with the
   * length, every whole block, the tail, and the avalanche.
   */
  function Murmur2(data: seq<Byte>): bv32
    requires |data| < 0x1_0000_0000
  {
    if |data| == 0 then 0
    else
      var n := |data| / 4;
      Avalanche(Tail(data, Blocks(data, Seed ^ (|data| as bv32), n), 4 * n))
  }

  /**
   * `MurmurHash2.Hash`: the seed mixed with the length, the block loop over
   * the whole words, then the tail and the avalanche.
   */
  method Hash(data: seq<Byte>) returns (h: bv32)
    requires |data| < 0x8000_0000
    ensures h == Murmur2(data)
    ensures |data| == 0 ==> h == 0
  {
    var length := |data|;
    if length == 0 {
      return 0;
    }
    var currentIndex;
    h, currentIndex := HashBlocks(data, Seed ^ (length as bv32));
    h := Tail(data, h, currentIndex);
    h := Avalanche(h);
  }

  /** The block loop of `MurmurHash2.Hash`: every whole four-byte word mixed in, in order. */
  method HashBlocks(data: seq<Byte>, h0: bv32) returns (h: bv32, currentIndex: nat)
    ensures currentIndex == 4 * (|data| / 4)
    ensures h == Blocks(data, h0, |data| / 4)
  {
    h := h0;
    var length := |data|;
    currentIndex := 0;
    ghost var n := 0;
    while length >= 4
      invariant 0 <= length && currentIndex + length == |data| && currentIndex == 4 * n
      invariant h == Blocks(data, h0, n)
    {
      var k := Block(data, currentIndex);
      BlocksStep(data, h0, n);
      h := Mix(h, k);
      currentIndex := currentIndex + 4;
      length := length - 4;
      n := n + 1;
    }
    WholeBlocks(|data|, n);
  }
}
