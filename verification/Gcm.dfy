/** gcm.c: the operations on a key and a message context. */
module Gcm {
  import opened Bytes
  import opened GhashWords
  import opened GhashMul
  import opened Counter
  import opened MemXor
  import opened Ctr16
  import opened Ghash
  import S = GcmSpec

  /** struct gcm_key: the multiples of H. */
  ghost predicate Key(e: Endian, key: seq<Words>, h: Block) {
    |key| == 256 && IsKeyTable(e, 8, key, Bits(h))
  }

  lemma PlaceInvolution(e: Endian, j: nat)
    requires j < 64
    ensures Place(e, Place(e, j)) == j
  {
  }

  /** A block in memory, read as two words. */
  function WordsOf(e: Endian, b: Block): Words {
    var s := Bits(b);
    Words(seq(64, i requires 0 <= i < 64 => s[Place(e, i)]), seq(64, i requires 0 <= i < 64 => s[64 + Place(e, i)]))
  }

  lemma WordsOfBits(e: Endian, b: Block)
    ensures BitsOf(e, WordsOf(e, b)) == Bits(b)
  {
    forall j | 0 <= j < 64 ensures Place(e, Place(e, j)) == j {
      PlaceInvolution(e, j);
    }
  }

  lemma ZeroBlockBits()
    ensures Bits(ZEROBLOCK) == Field.ZERO
  {
    forall j | 0 <= j < 128 ensures !Bits(ZEROBLOCK)[j] {
      BitsAt(ZEROBLOCK, j / 8, j % 8);
      ByteConstants(j % 8);
    }
  }

  lemma ZeroWordsBytes(e: Endian)
    ensures BytesOf(e, ZeroWords()) == ZEROBLOCK
  {
    ZeroWordsZero(e);
    ZeroBlockBits();
    BitsRoundTrip(ZEROBLOCK);
  }

  /** The cipher on a block of the table. */
  method CipherWords(e: Endian, f: Block -> Block, u: Words) returns (r: Words)
    ensures BitsOf(e, r) == Bits(f(BytesOf(e, u)))
  {
    r := WordsOf(e, f(BytesOf(e, u)));
    WordsOfBits(e, f(BytesOf(e, u)));
  }

  method ZeroEntry(e: Endian) returns (r: Words)
    ensures BitsOf(e, r) == Field.ZERO && BytesOf(e, r) == ZEROBLOCK
  {
    r := ZeroWords();
    ZeroWordsZero(e);
    ZeroWordsBytes(e);
  }

  lemma KeyStart(e: Endian, zero: Words, top: Words, h: Field.Element)
    requires BitsOf(e, zero) == Field.ZERO && BitsOf(e, top) == h
    ensures Pow2(8) == 256 && Pow2(8) / 2 == 128 && EntryIs(e, zero, 8, 0, h) && EntryIs(e, top, 8, Pow2(8) / 2, h)
  {
    assert Pow2(4) == 16 && Pow2(7) == 128;
    FirstEntries(e, 8, zero, top, h);
  }

  /** gcm_set_key: H in the middle entry, and the table from it. */
  method SetKey(e: Endian, key: array<Words>, f: Block -> Block)
    requires key.Length == 256
    modifies key
    ensures Key(e, key[..], f(ZEROBLOCK))
  {
    var i := 256 / 2;
    var zero := ZeroEntry(e);
    var top := CipherWords(e, f, zero);
    ghost var h := Bits(f(ZEROBLOCK));
    KeyStart(e, zero, top, h);
    key[0] := zero;
    key[i] := top;
    assert key[Pow2(8) / 2] == top && key[0] == zero;
    InitKey(e, 8, key, h);
  }

  lemma ReadsStart(p: Ptr, s: seq<byte>)
    requires p.at + |s| <= p.mem.Length && s == p.mem[..][p.at..p.at + |s|]
    ensures Reads(p, 0, s)
  {
  }

  lemma ReadsWritten(p: Ptr, was: seq<byte>, s: seq<byte>)
    requires p.at + |s| <= |was| && p.mem[..] == Splice(was, p.at, s)
    ensures Reads(p, 0, s)
  {
    SpliceOver(was, p.at, s, s);
  }

  lemma ReadsIs(p: Ptr, s: seq<byte>, n: nat)
    requires Reads(p, 0, s) && |s| == n
    ensures p.at + n <= p.mem.Length && p.mem[..][p.at..p.at + n] == s
  {
  }

  /** gcm_hash_sizes, with the arithmetic of 64-bit sizes. */
  method HashSizes(e: Endian, key: seq<Words>, x: Block, authSize: nat, dataSize: nat, ghost h: Block) returns (r: Block)
    requires Key(e, key, h)
    ensures r == S.HashSizes(MulBy(h), x, authSize, dataSize)
  {
    var s := BigEndian(8, authSize * 8 % S.TWO64) + BigEndian(8, dataSize * 8 % S.TWO64);
    var buffer := new byte[16];
    ghost var junk := buffer[..];
    Store(buffer, 0, s);
    SpliceFront(junk, s);
    ReadsStart(Ptr(buffer, 0, 0), s);
    r := GcmHash(e, key, x, 16, Ptr(buffer, 0, 0), s, h);
  }

  /** INC32 on a block. */
  method NextCounter(b: Block) returns (r: Block)
    ensures r == b[..12] + Carry(b[12..])
  {
    var ctr := new byte[16];
    ghost var junk := ctr[..];
    Store(ctr, 0, b);
    SpliceFront(junk, b);
    assert ctr[..] == ctr[..][..16] == b;
    Increment(4, ctr, 12);
    r := ctr[..];
    assert b[12..12 + 4] == b[12..] && b[16..] == [];
  }

  /** The body of gcm_encrypt: _nettle_ctr_crypt16, then the hash of what it has written. */
  method CryptThenHash(e: Endian, form: FillForm, key: seq<Words>, f: Block -> Block, ctr: Block, x: Block, length: nat, dst: Ptr, src: Ptr,
                       ghost data: seq<byte>, ghost out: seq<byte>, ghost h: Block) returns (c: Block, y: Block)
    requires Key(e, key, h)
    requires dst.at + length <= dst.mem.Length && src.at + length <= src.mem.Length && (src.mem == dst.mem ==> src == dst)
    requires data == src.mem[..][src.at..src.at + length] && out == Gctr(f, Inc32, ctr, data)
    modifies dst.mem
    ensures dst.mem[..] == Splice(old(dst.mem[..]), dst.at, out)
    ensures c == Iter(Inc32, ctr, CeilBlocks(|out|)) && y == HashData(MulBy(h), x, out)
  {
    ghost var was := dst.mem[..];
    c := CtrCrypt16(e, form, f, ctr, length, dst, src);
    assert dst.mem[..] == Splice(was, dst.at, out);
    ReadsWritten(dst, was, out);
    y := GcmHash(e, key, x, length, dst, out, h);
  }

  /** The body of gcm_decrypt: the source, which may be the destination, is hashed before the destination is written. */
  method HashThenCrypt(e: Endian, form: FillForm, key: seq<Words>, f: Block -> Block, ctr: Block, x: Block, length: nat, dst: Ptr, src: Ptr,
                       ghost data: seq<byte>, ghost out: seq<byte>, ghost h: Block) returns (c: Block, y: Block)
    requires Key(e, key, h)
    requires dst.at + length <= dst.mem.Length && src.at + length <= src.mem.Length && (src.mem == dst.mem ==> src == dst)
    requires data == src.mem[..][src.at..src.at + length] && out == Gctr(f, Inc32, ctr, data)
    modifies dst.mem
    ensures dst.mem[..] == Splice(old(dst.mem[..]), dst.at, out)
    ensures c == Iter(Inc32, ctr, CeilBlocks(|data|)) && y == HashData(MulBy(h), x, data)
  {
    ReadsStart(src, data);
    y := GcmHash(e, key, x, length, src, data, h);
    c := CtrCrypt16(e, form, f, ctr, length, dst, src);
  }

  /** memxor3 of the beginnings of two blocks. */
  method XorBlocks(e: Endian, dst: Ptr, x: Block, y: Block, length: nat)
    requires length <= 16 && dst.at + length <= dst.mem.Length
    modifies dst.mem
    ensures dst.mem[..] == Splice(old(dst.mem[..]), dst.at, Xor(x[..length], y[..length]))
  {
    var a := NewBlock(x);
    var b := NewBlock(y);
    Xor3Into(e, dst, Ptr(a, 0, 0), Ptr(b, 0, 0), length, x[..length], y[..length]);
  }

  method NewBlock(x: Block) returns (a: array<byte>)
    ensures fresh(a) && a[..] == x
  {
    a := new byte[16];
    ghost var junk := a[..];
    Store(a, 0, x);
    SpliceFront(junk, x);
    assert a[..][..16] == a[..];
  }

  /** struct gcm_ctx. */
  class GcmCtx {
    var iv: Block
    var ctr: Block
    var x: Block
    var authSize: nat
    var dataSize: nat

    function Get(): S.State
      reads this
    {
      S.State(iv, ctr, x, authSize, dataSize)
    }

    /** gcm_set_iv. */
    method SetIv(e: Endian, key: seq<Words>, length: nat, p: Ptr, ghost s: seq<byte>, ghost h: Block)
      requires Key(e, key, h) && |s| == length && Reads(p, 0, s)
      modifies this
      ensures Get() == S.SetIv(MulBy(h), s)
    {
      if length == 12 {
        iv := p.mem[p.at..p.at + 12] + [0, 0, 0, 1];
      } else {
        iv := GcmHash(e, key, ZEROBLOCK, length, p, s, h);
        iv := HashSizes(e, key, iv, 0, length % S.TWO64, h);
      }
      ctr := NextCounter(iv);
      x := ZEROBLOCK;
      authSize, dataSize := 0, 0;
    }

    /** gcm_update: the assertions are requirements on the caller. */
    method Update(e: Endian, key: seq<Words>, length: nat, p: Ptr, ghost s: seq<byte>, ghost h: Block)
      requires Key(e, key, h) && |s| == length && Reads(p, 0, s)
      requires S.CanUpdate(Get())
      modifies this
      ensures Get() == S.Update(MulBy(h), old(Get()), s)
    {
      x := GcmHash(e, key, x, length, p, s, h);
      authSize := (authSize + length) % S.TWO64;
    }

    /** The context after `length` bytes of text, of which `s` is the ciphertext. */
    method Advance(c: Block, y: Block, length: nat, ghost m: Block -> Block, ghost before: S.State, ghost s: seq<byte>)
      requires Get() == before && |s| == length && c == Iter(Inc32, before.ctr, CeilBlocks(|s|)) && y == HashData(m, before.x, s)
      modifies this
      ensures Get() == S.Crypted(m, before, s)
    {
      ctr, x := c, y;
      dataSize := (dataSize + length) % S.TWO64;
    }

    /** gcm_encrypt. */
    method Encrypt(e: Endian, form: FillForm, key: seq<Words>, f: Block -> Block, length: nat, dst: Ptr, src: Ptr, ghost h: Block)
      requires Key(e, key, h) && S.CanCrypt(Get())
      requires dst.at + length <= dst.mem.Length && src.at + length <= src.mem.Length && (src.mem == dst.mem ==> src == dst)
      modifies this, dst.mem
      ensures var (s, out) := S.Encrypt(f, MulBy(h), old(Get()), old(src.mem[..])[src.at..src.at + length]);
              Get() == s && dst.mem[..] == Splice(old(dst.mem[..]), dst.at, out)
    {
      ghost var before, data := Get(), src.mem[..][src.at..src.at + length];
      ghost var out := Gctr(f, Inc32, ctr, data);
      var c, y := CryptThenHash(e, form, key, f, ctr, x, length, dst, src, data, out, h);
      Advance(c, y, length, MulBy(h), before, out);
    }

    /** gcm_decrypt. */
    method Decrypt(e: Endian, form: FillForm, key: seq<Words>, f: Block -> Block, length: nat, dst: Ptr, src: Ptr, ghost h: Block)
      requires Key(e, key, h) && S.CanCrypt(Get())
      requires dst.at + length <= dst.mem.Length && src.at + length <= src.mem.Length && (src.mem == dst.mem ==> src == dst)
      modifies this, dst.mem
      ensures var (s, out) := S.Decrypt(f, MulBy(h), old(Get()), old(src.mem[..])[src.at..src.at + length]);
              Get() == s && dst.mem[..] == Splice(old(dst.mem[..]), dst.at, out)
    {
      ghost var before, data := Get(), src.mem[..][src.at..src.at + length];
      var c, y := HashThenCrypt(e, form, key, f, ctr, x, length, dst, src, data, Gctr(f, Inc32, ctr, data), h);
      Advance(c, y, length, MulBy(h), before, data);
    }

    /** gcm_digest. */
    method Digest(e: Endian, key: seq<Words>, f: Block -> Block, length: nat, digest: Ptr, ghost h: Block)
      requires Key(e, key, h) && length <= 16 && digest.at + length <= digest.mem.Length
      modifies this`x, digest.mem
      ensures digest.mem[..] == Splice(old(digest.mem[..]), digest.at, S.Digest(f, MulBy(h), old(Get()), length))
      ensures x == S.HashSizes(MulBy(h), old(x), authSize, dataSize)
    {
      x := HashSizes(e, key, x, authSize, dataSize, h);
      XorBlocks(e, digest, x, f(iv), length);
    }
  }
}
