/** Byte strings, and the bit strings they stand for: the leftmost bit is the top bit of byte 0. */
module Bytes {
  import opened Field

  type byte = bv8

  /** The byte order of the machine: WORDS_BIGENDIAN or not. */
  datatype Endian = Big | Little

  function Zeros(n: nat): (r: seq<byte>)
    ensures |r| == n && forall i :: 0 <= i < n ==> r[i] == 0
  {
    seq(n, i => 0)
  }

  /** A 16-byte block. */
  type Block = s: seq<byte> | |s| == 16 witness Zeros(16)

  const ZEROBLOCK: Block := Zeros(16)

  /** Byte-wise exclusive or of two strings of the same length. */
  function Xor(a: seq<byte>, b: seq<byte>): (r: seq<byte>)
    requires |a| == |b|
    ensures |r| == |a| && forall i :: 0 <= i < |a| ==> r[i] == a[i] ^ b[i]
  {
    seq(|a|, i requires 0 <= i < |a| => a[i] ^ b[i])
  }

  lemma XorCancels(a: seq<byte>, b: seq<byte>)
    requires |a| == |b|
    ensures Xor(Xor(a, b), b) == a
  {
    forall i | 0 <= i < |a| ensures (a[i] ^ b[i]) ^ b[i] == a[i] { }
  }

  /** `s` in place of what was at `at`. */
  function Splice(was: seq<byte>, at: nat, s: seq<byte>): (r: seq<byte>)
    requires at + |s| <= |was|
    ensures |r| == |was|
  {
    seq(|was|, i requires 0 <= i < |was| => if at <= i < at + |s| then s[i - at] else was[i])
  }

  /** Adjacent splices are one. */
  lemma SpliceSplice(was: seq<byte>, at: nat, s: seq<byte>, t: seq<byte>)
    requires at + |s| + |t| <= |was|
    ensures Splice(Splice(was, at, s), at + |s|, t) == Splice(was, at, s + t)
  {
  }

  lemma SpliceOver(was: seq<byte>, at: nat, s: seq<byte>, t: seq<byte>)
    requires at + |s| <= |was| && |t| == |s|
    ensures Splice(Splice(was, at, s), at, t) == Splice(was, at, t)
    ensures Splice(was, at, s)[at..at + |s|] == s
  {
  }

  /** Store bytes in memory. */
  method Store(dst: array<byte>, at: nat, s: seq<byte>)
    requires at + |s| <= dst.Length
    modifies dst
    ensures dst[..] == Splice(old(dst[..]), at, s)
  {
    forall j | 0 <= j < |s| {
      dst[at + j] := s[j];
    }
  }

  /** Bit `k` of a byte, counted from the top. */
  predicate Bit(b: byte, k: nat)
    requires k < 8
  {
    match k
    case 0 => b & 0x80 != 0
    case 1 => b & 0x40 != 0
    case 2 => b & 0x20 != 0
    case 3 => b & 0x10 != 0
    case 4 => b & 0x08 != 0
    case 5 => b & 0x04 != 0
    case 6 => b & 0x02 != 0
    case 7 => b & 0x01 != 0
  }

  lemma BitXor(a: byte, b: byte, k: nat)
    requires k < 8
    ensures Bit(a ^ b, k) == (Bit(a, k) != Bit(b, k))
  {
    var c := a ^ b;
    match k case 0 => case 1 => case 2 => case 3 => case 4 => case 5 => case 6 => case 7 =>
  }

  function ByteBits(b: byte): (r: seq<bool>)
    ensures |r| == 8
  {
    seq(8, k requires 0 <= k < 8 => Bit(b, k))
  }

  function BitsByte(s: seq<bool>): byte
    requires |s| == 8
  {
    (if s[0] then 0x80 else 0) | (if s[1] then 0x40 else 0) | (if s[2] then 0x20 else 0) | (if s[3] then 0x10 else 0)
    | (if s[4] then 0x08 else 0) | (if s[5] then 0x04 else 0) | (if s[6] then 0x02 else 0) | (if s[7] then 0x01 else 0)
  }

  lemma ByteBitsRoundTrip(b: byte)
    ensures BitsByte(ByteBits(b)) == b
  {
  }

  lemma BitsByteRoundTrip(s: seq<bool>)
    requires |s| == 8
    ensures ByteBits(BitsByte(s)) == s
  {
    forall k | 0 <= k < 8 ensures Bit(BitsByte(s), k) == s[k] {
      match k case 0 => case 1 => case 2 => case 3 => case 4 => case 5 => case 6 => case 7 =>
    }
  }

  lemma ByteBitsXor(a: byte, b: byte)
    ensures ByteBits(a ^ b) == Add(ByteBits(a), ByteBits(b))
  {
    forall k | 0 <= k < 8 ensures Bit(a ^ b, k) == (Bit(a, k) != Bit(b, k)) {
      BitXor(a, b, k);
    }
  }

  /** The concatenation of the 8-bit strings that stand for the items of `s`. */
  function Flat<T>(s: seq<T>, f: T -> seq<bool>): (r: seq<bool>)
    requires forall x :: x in s ==> |f(x)| == 8
    ensures |r| == 8 * |s|
  {
    if s == [] then [] else f(s[0]) + Flat(s[1..], f)
  }

  lemma {:induction false} FlatAt<T>(s: seq<T>, f: T -> seq<bool>, i: nat, k: nat)
    requires forall x :: x in s ==> |f(x)| == 8
    requires i < |s| && k < 8
    ensures Flat(s, f)[8 * i + k] == f(s[i])[k]
  {
    if i > 0 {
      FlatAt(s[1..], f, i - 1, k);
    }
  }

  lemma AddConcat(a: seq<bool>, b: seq<bool>, s: seq<bool>, t: seq<bool>)
    requires |a| == |b| && |s| == |t|
    ensures Add(a + s, b + t) == Add(a, b) + Add(s, t)
  {
  }

  lemma {:induction false} FlatAdds<T>(a: seq<T>, b: seq<T>, c: seq<T>, f: T -> seq<bool>)
    requires |a| == |b| == |c|
    requires forall x :: x in a || x in b || x in c ==> |f(x)| == 8
    requires forall i :: 0 <= i < |a| ==> f(c[i]) == Add(f(a[i]), f(b[i]))
    ensures Flat(c, f) == Add(Flat(a, f), Flat(b, f))
  {
    if a == [] {
    } else {
      FlatAdds(a[1..], b[1..], c[1..], f);
      AddConcat(f(a[0]), f(b[0]), Flat(a[1..], f), Flat(b[1..], f));
    }
  }

  function Bits(s: seq<byte>): (r: seq<bool>)
    ensures |r| == 8 * |s|
  {
    Flat(s, ByteBits)
  }

  /** Exclusive or of bytes is addition of bit strings. */
  lemma BitsXor(a: seq<byte>, b: seq<byte>)
    requires |a| == |b|
    ensures Bits(Xor(a, b)) == Add(Bits(a), Bits(b))
  {
    forall i | 0 <= i < |a| ensures ByteBits(Xor(a, b)[i]) == Add(ByteBits(a[i]), ByteBits(b[i])) {
      ByteBitsXor(a[i], b[i]);
    }
    FlatAdds(a, b, Xor(a, b), ByteBits);
  }

  lemma BitsAt(s: seq<byte>, i: nat, k: nat)
    requires i < |s| && k < 8
    ensures Bits(s)[8 * i + k] == Bit(s[i], k)
  {
    FlatAt(s, ByteBits, i, k);
  }

  /** The byte string of a bit string. */
  function FromBits(s: seq<bool>): (r: seq<byte>)
    requires |s| % 8 == 0
    ensures 8 * |r| == |s|
  {
    seq(|s| / 8, i requires 0 <= i < |s| / 8 => BitsByte(s[8 * i..8 * i + 8]))
  }

  lemma FromBitsRoundTrip(s: seq<bool>)
    requires |s| % 8 == 0
    ensures Bits(FromBits(s)) == s
  {
    forall j | 0 <= j < |s| ensures Bits(FromBits(s))[j] == s[j] {
      assert j == 8 * (j / 8) + j % 8;
      FromBitsAt(s, j / 8, j % 8);
    }
  }

  lemma FromBitsAt(s: seq<bool>, i: nat, k: nat)
    requires |s| % 8 == 0 && k < 8 && 8 * i + k < |s|
    ensures Bits(FromBits(s))[8 * i + k] == s[8 * i + k]
  {
    FlatAt(FromBits(s), ByteBits, i, k);
    BitsByteRoundTrip(s[8 * i..8 * i + 8]);
    assert s[8 * i..8 * i + 8][k] == s[8 * i + k];
  }

  lemma BitsRoundTrip(s: seq<byte>)
    ensures FromBits(Bits(s)) == s
  {
    forall i | 0 <= i < |s| ensures FromBits(Bits(s))[i] == s[i] {
      forall k | 0 <= k < 8 ensures Bits(s)[8 * i..8 * i + 8][k] == ByteBits(s[i])[k] {
        FlatAt(s, ByteBits, i, k);
      }
      assert Bits(s)[8 * i..8 * i + 8] == ByteBits(s[i]);
      ByteBitsRoundTrip(s[i]);
    }
  }

  /** Different byte strings are different bit strings. */
  lemma BitsInjective(a: seq<byte>, b: seq<byte>)
    requires Bits(a) == Bits(b)
    ensures a == b
  {
    BitsRoundTrip(a);
    BitsRoundTrip(b);
  }

  /** The product X . Y of two blocks. */
  function Dot(x: Block, y: Block): Block {
    FromBits(Mul(Bits(x), Bits(y)))
  }

  lemma DotBits(x: Block, y: Block)
    ensures Bits(Dot(x, y)) == Mul(Bits(x), Bits(y))
  {
    FromBitsRoundTrip(Mul(Bits(x), Bits(y)));
  }

  /** The product is commutative, */
  lemma DotCommutes(x: Block, y: Block)
    ensures Dot(x, y) == Dot(y, x)
  {
    MulCommutes(Bits(x), Bits(y));
  }

  /** and distributes over exclusive or. */
  lemma DotAdds(a: Block, b: Block, h: Block)
    ensures Dot(Xor(a, b), h) == Xor(Dot(a, h), Dot(b, h))
  {
    BitsXor(a, b);
    MulAdds(Bits(a), Bits(b), Bits(h));
    DotBits(Xor(a, b), h);
    DotBits(a, h);
    DotBits(b, h);
    BitsXor(Dot(a, h), Dot(b, h));
    BitsInjective(Dot(Xor(a, b), h), Xor(Dot(a, h), Dot(b, h)));
  }
}
