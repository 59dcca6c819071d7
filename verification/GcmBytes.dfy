/** What the definitions of Galois/Counter Mode come to, byte by byte and as a polynomial, without the names they are built from. */
module GcmBytes {
  import opened Bytes
  import opened Field
  import opened Counter
  import opened Ctr16
  import opened Ghash
  import opened GcmSpec
  import opened Division

  // Integers.

  /** Byte `i` of the big-endian form of an integer is its digit of that weight. */
  lemma {:induction false} BigEndianDigit(n: nat, v: nat, i: nat)
    requires i < n
    ensures BigEndian(n, v)[i] as int == v / Pow256(n - 1 - i) % 256
  {
    if i < n - 1 {
      BigEndianDigit(n - 1, v / 256, i);
      DivDiv(v, n - 2 - i);
    }
  }

  lemma DivDiv(v: nat, k: nat)
    ensures v / 256 / Pow256(k) == v / Pow256(k + 1)
  {
    var p := Pow256(k);
    var q, r := v / 256, v % 256;
    var a, b := q / p, q % p;
    DivOf(v, p, q, r, a, b);
  }

  lemma DivOf(v: nat, p: nat, q: nat, r: nat, a: nat, b: nat)
    requires p > 0 && v == 256 * q + r && r < 256 && q == a * p + b && b < p
    ensures v / (256 * p) == a
  {
    var m := 256 * p;
    assert v == a * m + (256 * b + r) && 256 * b + r < m;
    DivUnique(v, m, a, 256 * b + r);
  }

  // The key stream.

  lemma {:induction false} StreamByte(f: Block -> Block, next: Block -> Block, c: Block, n: nat, i: nat)
    requires i < 16 * n
    ensures Stream(f, next, c, n)[i] == f(Iter(next, c, i / 16))[i % 16]
  {
    if i < 16 * (n - 1) {
      StreamByte(f, next, c, n - 1, i);
    } else {
      assert i / 16 == n - 1 && i % 16 == i - 16 * (n - 1);
    }
  }

  lemma GctrByte(f: Block -> Block, next: Block -> Block, c: Block, p: seq<byte>, i: nat)
    requires i < |p|
    ensures Gctr(f, next, c, p)[i] == p[i] ^ f(Iter(next, c, i / 16))[i % 16]
  {
    StreamByte(f, next, c, CeilBlocks(|p|), i);
  }

  /** The counter of block `k` of the text, from the pre-counter block. */
  lemma CounterOf(j: Block, k: nat)
    ensures Iter(Inc32, Inc32(j), k) == j[..12] + BigEndian(4, (Value(j[12..]) + k + 1) % 0x1_0000_0000)
  {
    CounterAfter(j, k, k + 1);
    IterInc32(j, k + 1);
  }

  lemma CounterAfter(j: Block, k: nat, n: nat)
    requires n == k + 1
    ensures Iter(Inc32, Inc32(j), k) == Iter(Inc32, j, n)
  {
    IterOne(j, 1);
    IterIter(Inc32, j, 1, k);
    SameIter(Inc32, j, 1 + k, n);
  }

  lemma IterOne(j: Block, n: nat)
    requires n == 1
    ensures Iter(Inc32, j, n) == Inc32(j)
  {
    assert Iter(Inc32, j, n - 1) == j;
  }

  lemma ValueOne(s: seq<byte>)
    requires s == [0, 0, 0, 1]
    ensures Value(s) == 1
  {
    assert s[..3] == [0, 0, 0] && s[..3][..2] == [0, 0] && s[..3][..2][..1] == [0] && s[..3][..2][..1][..0] == [];
    assert Value(s[..3][..2][..1]) == 0 && Value(s[..3][..2]) == 0 && Value(s[..3]) == 0;
  }

  lemma OneIs(s: seq<byte>)
    requires s == [0, 0, 0, 1]
    ensures s == BigEndian(4, 1)
  {
    ValueOne(s);
    BigEndianValue(s);
  }

  /** For a 96-bit IV the counter of block `k` is the IV and k + 2, so that the first block takes the counter 2. */
  lemma CounterOfIv(v: seq<byte>, k: nat)
    requires |v| == 12
    ensures Iter(Inc32, Inc32(v + [0, 0, 0, 1]), k) == v + BigEndian(4, (k + 2) % 0x1_0000_0000)
  {
    var j: Block := v + [0, 0, 0, 1];
    assert j[..12] == v && j[12..] == [0, 0, 0, 1];
    ValueOne(j[12..]);
    CounterOf(j, k);
  }

  /** The text under a 96-bit IV: every byte is added to the byte of the enciphered IV and counter. */
  lemma SealedByte(f: Block -> Block, v: seq<byte>, p: seq<byte>, a: seq<byte>, t: nat, i: nat)
    requires |v| == 12 && t <= 16 && i < |p|
    ensures |GcmAe(f, v, p, a, t).0| == |p|
    ensures GcmAe(f, v, p, a, t).0[i] == p[i] ^ f(v + BigEndian(4, (i / 16 + 2) % 0x1_0000_0000))[i % 16]
  {
    GctrByte(f, Inc32, Inc32(v + [0, 0, 0, 1]), p, i);
    CounterOfIv(v, i / 16);
  }

  /** And under any other IV, whose pre-counter block is the hash of the padded IV, eight zero bytes and its length in bits. */
  lemma SealedByteOther(f: Block -> Block, v: seq<byte>, p: seq<byte>, a: seq<byte>, t: nat, i: nat, q: nat, j: Block, k: Block)
    requires |v| != 12 && t <= 16 && i < |p| && q == i / 16 && k == j[..12] + BigEndian(4, (Value(j[12..]) + q + 1) % 0x1_0000_0000)
    requires j == Hash(MulBy(f(ZEROBLOCK)), ZEROBLOCK, Padded(v) + Zeros(8) + BigEndian(8, 8 * |v|), CeilBlocks(|v|) + 1)
    ensures |GcmAe(f, v, p, a, t).0| == |p|
    ensures GcmAe(f, v, p, a, t).0[i] == p[i] ^ f(k)[i % 16]
  {
    OtherText(f, v, p, a, t, j);
    ByteFrom(f, j, p, GcmAe(f, v, p, a, t).0, i, q, k);
  }

  lemma ByteFrom(f: Block -> Block, j: Block, p: seq<byte>, c: seq<byte>, i: nat, q: nat, k: Block)
    requires c == Gctr(f, Inc32, Inc32(j), p) && i < |p| && q == i / 16 && k == j[..12] + BigEndian(4, (Value(j[12..]) + q + 1) % 0x1_0000_0000)
    ensures |c| == |p| && c[i] == p[i] ^ f(k)[i % 16]
  {
    CounterOf(j, q);
    ByteUnder(f, Inc32, Inc32(j), p, c, i, q, k);
  }

  lemma ByteUnder(f: Block -> Block, inc: Block -> Block, s: Block, p: seq<byte>, c: seq<byte>, i: nat, q: nat, k: Block)
    requires c == Gctr(f, inc, s, p) && i < |p| && q == i / 16 && k == Iter(inc, s, q)
    ensures |c| == |p| && c[i] == p[i] ^ f(k)[i % 16]
  {
    GctrByte(f, inc, s, p, i);
  }

  lemma OtherText(f: Block -> Block, v: seq<byte>, p: seq<byte>, a: seq<byte>, t: nat, j: Block)
    requires |v| != 12 && t <= 16
    requires j == Hash(MulBy(f(ZEROBLOCK)), ZEROBLOCK, Padded(v) + Zeros(8) + BigEndian(8, 8 * |v|), CeilBlocks(|v|) + 1)
    ensures GcmAe(f, v, p, a, t).0 == Gctr(f, Inc32, Inc32(j), p)
  {
    PreCounter(MulBy(f(ZEROBLOCK)), v);
  }

  lemma PreCounter(m: Block -> Block, v: seq<byte>)
    requires |v| != 12
    ensures J0(m, v) == Hash(m, ZEROBLOCK, Padded(v) + Zeros(8) + BigEndian(8, 8 * |v|), CeilBlocks(|v|) + 1)
  {
    ZeroBytes(8);
    Assoc(Padded(v), BigEndian(8, 0), BigEndian(8, 8 * |v|));
  }

  lemma {:induction false} ZeroBytes(n: nat)
    ensures BigEndian(n, 0) == Zeros(n)
  {
    if n > 0 {
      ZeroBytes(n - 1);
    }
  }

  // The tag.

  /** The tag under a 96-bit IV: the hash of the padded associated data, the padded ciphertext and the two lengths in bits, that of
      the associated data first, added to the enciphered IV and counter 1. */
  lemma TagSum(f: Block -> Block, v: seq<byte>, p: seq<byte>, a: seq<byte>, t: nat, c: seq<byte>, x: Block, k: Block)
    requires |v| == 12 && t <= 16 && c == GcmAe(f, v, p, a, t).0 && k == f(v + BigEndian(4, 1))
    requires x == Hash(MulBy(f(ZEROBLOCK)), ZEROBLOCK, Padded(a) + Padded(c) + BigEndian(8, 8 * |a|) + BigEndian(8, 8 * |c|),
                       CeilBlocks(|a|) + CeilBlocks(|c|) + 1)
    ensures GcmAe(f, v, p, a, t).1 == Xor(x, k)[..t]
  {
    TagOfIv(f, MulBy(f(ZEROBLOCK)), v, a, c, x);
  }

  lemma TagOfIv(f: Block -> Block, m: Block -> Block, v: seq<byte>, a: seq<byte>, c: seq<byte>, x: Block)
    requires |v| == 12
    requires x == Hash(m, ZEROBLOCK, Padded(a) + Padded(c) + BigEndian(8, 8 * |a|) + BigEndian(8, 8 * |c|), CeilBlocks(|a|) + CeilBlocks(|c|) + 1)
    ensures Tag(f, m, v, a, c) == Xor(x, f(v + BigEndian(4, 1)))
  {
    OneIs([0, 0, 0, 1]);
    LengthsLast(a, c);
    TagIs(f, m, v, a, c, v + BigEndian(4, 1), Padded(a) + Padded(c) + BigEndian(8, 8 * |a|) + BigEndian(8, 8 * |c|));
  }

  lemma LengthsLast(a: seq<byte>, c: seq<byte>)
    ensures Padded(a) + Padded(c) + BigEndian(8, 8 * |a|) + BigEndian(8, 8 * |c|) == Padded(a) + Padded(c) + LengthBlock(|a|, |c|)
  {
    Assoc(Padded(a) + Padded(c), BigEndian(8, 8 * |a|), BigEndian(8, 8 * |c|));
  }

  lemma Assoc<T>(s: seq<T>, t: seq<T>, u: seq<T>)
    ensures s + t + u == s + (t + u)
  {
  }

  lemma TagIs(f: Block -> Block, m: Block -> Block, v: seq<byte>, a: seq<byte>, c: seq<byte>, j: Block, s: seq<byte>)
    requires j == J0(m, v) && s == Padded(a) + Padded(c) + LengthBlock(|a|, |c|)
    ensures Tag(f, m, v, a, c) == Xor(Hash(m, ZEROBLOCK, s, CeilBlocks(|a|) + CeilBlocks(|c|) + 1), f(j))
  {
    GctrBlock(f, Inc32, j, Hash(m, ZEROBLOCK, s, CeilBlocks(|a|) + CeilBlocks(|c|) + 1));
  }

  // The hash.

  /** `m` applied `k` times: times H to the power of `k`. */
  function Power(m: Block -> Block, k: nat, b: Block): Block {
    if k == 0 then b else m(Power(m, k - 1, b))
  }

  /** The blocks of `x` as the coefficients of a polynomial, the last one times H to the power of k + 1. */
  function Polynomial(m: Block -> Block, x: seq<byte>, n: nat, k: nat): Block
    requires |x| == 16 * n
  {
    if n == 0 then ZEROBLOCK else Xor(Polynomial(m, x[..16 * (n - 1)], n - 1, k + 1), Power(m, k + 1, x[16 * (n - 1)..]))
  }

  ghost predicate Additive(m: Block -> Block) {
    m(ZEROBLOCK) == ZEROBLOCK && forall a: Block, b: Block :: m(Xor(a, b)) == Xor(m(a), m(b))
  }

  lemma {:induction false} PowerAdds(m: Block -> Block, k: nat, a: Block, b: Block)
    requires Additive(m)
    ensures Power(m, k, Xor(a, b)) == Xor(Power(m, k, a), Power(m, k, b))
  {
    if k > 0 {
      PowerAdds(m, k - 1, a, b);
    }
  }

  lemma {:induction false} PowerStep(m: Block -> Block, k: nat, b: Block)
    ensures Power(m, k, m(b)) == Power(m, k + 1, b)
  {
    if k > 0 {
      PowerStep(m, k - 1, b);
    }
  }

  lemma {:induction false} PowerZero(m: Block -> Block, k: nat)
    requires Additive(m)
    ensures Power(m, k, ZEROBLOCK) == ZEROBLOCK
  {
    if k > 0 {
      PowerZero(m, k - 1);
    }
  }

  lemma {:induction false} HashIsPolynomial(m: Block -> Block, x: seq<byte>, n: nat, k: nat)
    requires Additive(m) && |x| == 16 * n
    ensures Power(m, k, Hash(m, ZEROBLOCK, x, n)) == Polynomial(m, x, n, k)
  {
    if n == 0 {
      PowerZero(m, k);
    } else {
      var init, last := x[..16 * (n - 1)], x[16 * (n - 1)..];
      HashIsPolynomial(m, init, n - 1, k + 1);
      NextBlock(m, x, init, last, n, k);
    }
  }

  lemma NextBlock(m: Block -> Block, x: seq<byte>, init: seq<byte>, last: Block, n: nat, k: nat)
    requires Additive(m) && n > 0 && |x| == 16 * n && init == x[..16 * (n - 1)] && last == x[16 * (n - 1)..]
    requires Power(m, k + 1, Hash(m, ZEROBLOCK, init, n - 1)) == Polynomial(m, init, n - 1, k + 1)
    ensures Power(m, k, Hash(m, ZEROBLOCK, x, n)) == Polynomial(m, x, n, k)
  {
    NextTerm(m, Hash(m, ZEROBLOCK, init, n - 1), last, k);
  }

  lemma NextTerm(m: Block -> Block, a: Block, b: Block, k: nat)
    requires Additive(m)
    ensures Power(m, k, m(Xor(a, b))) == Xor(Power(m, k + 1, a), Power(m, k + 1, b))
  {
    PowerStep(m, k, Xor(a, b));
    PowerAdds(m, k + 1, a, b);
  }

  /** GHASH is the polynomial X1 * H^n + X2 * H^(n-1) + ... + Xn * H, as section 6.4 of SP 800-38D remarks. */
  lemma GhashIsPolynomial(h: Block, x: seq<byte>, n: nat)
    requires |x| == 16 * n
    ensures Hash(MulBy(h), ZEROBLOCK, x, n) == Polynomial(MulBy(h), x, n, 0)
  {
    forall a: Block, b: Block ensures MulBy(h)(Xor(a, b)) == Xor(MulBy(h)(a), MulBy(h)(b)) {
      DotAdds(a, b, h);
    }
    DotZero(h);
    HashIsPolynomial(MulBy(h), x, n, 0);
  }

  lemma DotZero(h: Block)
    ensures Dot(ZEROBLOCK, h) == ZEROBLOCK
  {
    DotAdds(ZEROBLOCK, ZEROBLOCK, h);
    var d := Dot(ZEROBLOCK, h);
    XorSelf(ZEROBLOCK);
    XorSelf(d);
  }

  lemma XorSelf(b: Block)
    ensures Xor(b, b) == ZEROBLOCK
  {
  }
}
