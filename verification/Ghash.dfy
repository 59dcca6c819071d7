/** GHASH, and _nettle_gcm_hash_c of gcm.c. */
module Ghash {
  import opened Field
  import opened Bytes
  import opened GhashWords
  import opened ShiftTable
  import opened GhashMul
  import opened Counter
  import opened MemXor
  import opened Ctr16

  /** Sections 6.4 of SP 800-38D: Y := (Y + X) * H for each of the `n` blocks X of `x`; `m` is the product with H. */
  function Hash(m: Block -> Block, y: Block, x: seq<byte>, n: nat): Block
    requires |x| == 16 * n
  {
    if n == 0 then y else m(Xor(Hash(m, y, x[..16 * (n - 1)], n - 1), x[16 * (n - 1)..]))
  }

  lemma {:induction false} HashConcat(m: Block -> Block, y: Block, s: seq<byte>, k: nat, t: seq<byte>, n: nat)
    requires |s| == 16 * k && |t| == 16 * n
    ensures Hash(m, y, s + t, k + n) == Hash(m, Hash(m, y, s, k), t, n)
  {
    if n == 0 {
      assert s + t == s;
    } else {
      var init := t[..16 * (n - 1)];
      HashConcat(m, y, s, k, init, n - 1);
      assert (s + t)[..16 * (k + n - 1)] == s + init && (s + t)[16 * (k + n - 1)..] == t[16 * (n - 1)..];
    }
  }

  /** The data, with the fewest zeros that fill the last block. */
  function Padded(s: seq<byte>): (r: seq<byte>)
    ensures |r| == 16 * CeilBlocks(|s|) && r[..|s|] == s
  {
    s + Zeros(16 * CeilBlocks(|s|) - |s|)
  }

  /** GHASH of zero-padded data, from any starting state. */
  function HashData(m: Block -> Block, y: Block, data: seq<byte>): Block {
    Hash(m, y, Padded(data), CeilBlocks(|data|))
  }

  lemma PaddedConcat(s: seq<byte>, k: nat, t: seq<byte>)
    requires |s| == 16 * k
    ensures Padded(s + t) == s + Padded(t) && CeilBlocks(|s + t|) == k + CeilBlocks(|t|)
    ensures Padded(s) == s && CeilBlocks(|s|) == k
  {
    assert CeilBlocks(|s + t|) == k + CeilBlocks(|t|);
  }

  /** Hashing a message in two calls is hashing it in one, if the cut is after a whole number of blocks. */
  lemma HashDataConcat(m: Block -> Block, y: Block, s: seq<byte>, k: nat, t: seq<byte>)
    requires |s| == 16 * k
    ensures HashData(m, y, s + t) == HashData(m, HashData(m, y, s), t)
  {
    PaddedConcat(s, k, t);
    HashConcat(m, y, s, k, Padded(t), CeilBlocks(|t|));
  }

  /** gcm_gf_mul, with the hashing key in the form of its table. */
  method GfMul(e: Endian, x: Block, table: seq<Words>, ghost h: Block) returns (r: Block)
    requires |table| == 256 && IsKeyTable(e, 8, table, Bits(h))
    ensures r == MulBy(h)(x)
  {
    Table8Reduces();
    r := GfMul8(e, Entry8, x, table, h);
  }

  /** Multiplication by H. */
  function MulBy(h: Block): Block -> Block {
    x => Dot(x, h)
  }

  /** What memxor leaves in a block when it is given fewer bytes than a block. */
  function XorFront(x: Block, s: seq<byte>): Block
    requires |s| <= 16
  {
    Splice(x, 0, Xor(x[..|s|], s))
  }

  lemma XorFrontPads(x: Block, s: seq<byte>)
    requires |s| <= 16
    ensures XorFront(x, s) == Xor(x, s + Zeros(16 - |s|))
  {
    var r := Xor(x, s + Zeros(16 - |s|));
    forall i | 0 <= i < 16 ensures XorFront(x, s)[i] == r[i] {
      XorZero(x[i]);
    }
  }

  lemma XorZero(b: byte)
    ensures b ^ 0 == b
  {
  }

  lemma HashNext(m: Block -> Block, y: Block, s: seq<byte>, k: nat)
    requires 16 * (k + 1) <= |s|
    ensures Hash(m, y, s[..16 * (k + 1)], k + 1) == m(XorFront(Hash(m, y, s[..16 * k], k), s[16 * k..16 * k + 16]))
  {
    var t, b := s[..16 * (k + 1)], s[16 * k..16 * k + 16];
    assert t[..16 * k] == s[..16 * k] && t[16 * k..] == b;
    assert b + Zeros(16 - |b|) == b;
    XorFrontPads(Hash(m, y, s[..16 * k], k), b);
  }

  lemma HashLast(m: Block -> Block, y: Block, s: seq<byte>, k: nat)
    requires 16 * k <= |s| < 16 * (k + 1)
    ensures HashData(m, y, s) == if |s| > 16 * k then m(XorFront(Hash(m, y, s[..16 * k], k), s[16 * k..]))
                                 else Hash(m, y, s[..16 * k], k)
  {
    var r := s[16 * k..];
    if |s| > 16 * k {
      CeilIs(|s|, k + 1);
      var t := Padded(s);
      assert t[..16 * k] == s[..16 * k] && t[16 * k..] == r + Zeros(16 - |r|);
      XorFrontPads(Hash(m, y, s[..16 * k], k), r);
    } else {
      CeilIs(|s|, k);
      assert Padded(s) == s == s[..16 * k];
    }
  }

  /** One round of the hash: the data are added to the front of the state, and the sum is multiplied by H. */
  method HashBlock(e: Endian, table: seq<Words>, x: Block, data: Ptr, n: nat, ghost t: seq<byte>, ghost h: Block) returns (r: Block)
    requires |table| == 256 && IsKeyTable(e, 8, table, Bits(h))
    requires n <= 16 && data.at + n <= data.mem.Length && t == data.mem[..][data.at..data.at + n]
    ensures r == MulBy(h)(XorFront(x, t))
  {
    r := GfMul(e, XorFront(x, data.mem[..][data.at..data.at + n]), table, h);
  }

  /** The pointer `data` is `i` bytes into the data `s`. */
  ghost predicate Reads(data: Ptr, i: nat, s: seq<byte>)
    reads data.mem
  {
    i <= data.at && data.at - i + |s| <= data.mem.Length && s == data.mem[..][data.at - i..data.at - i + |s|]
  }

  lemma ReadsSlice(data: Ptr, i: nat, s: seq<byte>, n: nat)
    requires Reads(data, i, s) && i + n <= |s|
    ensures data.mem[..][data.at..data.at + n] == s[i..i + n] && Reads(Plus(data, n), i + n, s)
  {
    SliceSlice(data.mem[..], data.at - i, |s|, i, i + n);
  }

  lemma SameReads(data: Ptr, i: nat, j: nat, s: seq<byte>)
    requires Reads(data, i, s) && i == j
    ensures Reads(data, j, s)
  {
  }

  /** `k` blocks of the data `s` have gone into the hash, and `data` points at the next one. */
  ghost predicate Hashed(m: Block -> Block, x0: Block, s: seq<byte>, k: nat, x: Block, data: Ptr)
    reads data.mem
  {
    16 * k <= |s| && Reads(data, 16 * k, s) && x == Hash(m, x0, s[..16 * k], k)
  }

  method HashWhole(e: Endian, table: seq<Words>, x: Block, data: Ptr, ghost h: Block, ghost x0: Block, ghost s: seq<byte>, ghost k: nat)
    returns (r: Block, data': Ptr)
    requires |table| == 256 && IsKeyTable(e, 8, table, Bits(h))
    requires Hashed(MulBy(h), x0, s, k, x, data) && 16 * (k + 1) <= |s|
    ensures Hashed(MulBy(h), x0, s, k + 1, r, data')
  {
    HashNext(MulBy(h), x0, s, k);
    ReadsSlice(data, 16 * k, s, 16);
    r := HashBlock(e, table, x, data, 16, s[16 * k..16 * k + 16], h);
    data' := Plus(data, 16);
    SameReads(data', 16 * k + 16, 16 * (k + 1), s);
  }

  method HashRest(e: Endian, table: seq<Words>, x: Block, data: Ptr, n: nat, ghost h: Block, ghost x0: Block, ghost s: seq<byte>, ghost k: nat)
    returns (r: Block)
    requires |table| == 256 && IsKeyTable(e, 8, table, Bits(h))
    requires Hashed(MulBy(h), x0, s, k, x, data) && 16 * k + n == |s| && n < 16
    ensures r == HashData(MulBy(h), x0, s)
  {
    HashLast(MulBy(h), x0, s, k);
    r := x;
    if n > 0 {
      ghost var t := s[16 * k..];
      assert t == s[16 * k..16 * k + n];
      ReadsSlice(data, 16 * k, s, n);
      r := HashBlock(e, table, x, data, n, t, h);
    }
  }

  /** _nettle_gcm_hash_c */
  method GcmHash(e: Endian, table: seq<Words>, x0: Block, length0: nat, data0: Ptr, ghost s: seq<byte>, ghost h: Block) returns (x: Block)
    requires |table| == 256 && IsKeyTable(e, 8, table, Bits(h))
    requires |s| == length0 && Reads(data0, 0, s)
    ensures x == HashData(MulBy(h), x0, s)
  {
    ghost var k := 0;
    var length, data := length0, data0;
    x := x0;
    while length >= 16
      invariant 16 * k + length == |s| && Hashed(MulBy(h), x0, s, k, x, data)
    {
      x, data := HashWhole(e, table, x, data, h, x0, s, k);
      length := length - 16;
      k := k + 1;
    }
    x := HashRest(e, table, x, data, length, h, x0, s, k);
  }
}
