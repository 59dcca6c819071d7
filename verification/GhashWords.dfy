/** block-internal.h: a block as two 64-bit words, in either byte order. A word is its bit string,
    most significant bit first, so that the operators of the C code are operations on bit strings. */
module GhashWords {
  import opened Field
  import opened Bytes

  type Word = s: seq<bool> | |s| == 64 witness Falses(64)

  /** union nettle_block16, by its two words. */
  datatype Words = Words(w0: Word, w1: Word)

  function Shr(w: Word, n: nat): Word {
    seq(64, i requires 0 <= i < 64 => i >= n && w[i - n])
  }

  function Shl(w: Word, n: nat): Word {
    seq(64, i requires 0 <= i < 64 => i + n < 64 && w[i + n])
  }

  function And(a: Word, b: Word): Word {
    seq(64, i requires 0 <= i < 64 => a[i] && b[i])
  }

  function Or(a: Word, b: Word): Word {
    seq(64, i requires 0 <= i < 64 => a[i] || b[i])
  }

  /** The two's complement of a word that is 0 or 1: all zeros or all ones. */
  function Negated(bit: Word): Word {
    seq(64, i => bit[63])
  }

  /** The constant whose eight bytes, from the most significant, are `s`. */
  function Hex(s: seq<byte>): Word
    requires |s| == 8
  {
    Bits(s)
  }

  /** Where bit `j` of a word's memory lies in the word. */
  function Place(e: Endian, j: nat): (i: nat)
    requires j < 64
    ensures i < 64
  {
    match e
    case Big => j
    case Little => 8 * (7 - j / 8) + j % 8
  }

  function WordMemory(e: Endian, w: Word): Word {
    seq(64, j requires 0 <= j < 64 => w[Place(e, j)])
  }

  /** The block in memory, as a bit string. */
  function BitsOf(e: Endian, u: Words): Element {
    WordMemory(e, u.w0) + WordMemory(e, u.w1)
  }

  /** The `b` view of the union. */
  function BytesOf(e: Endian, u: Words): Block {
    FromBits(BitsOf(e, u))
  }

  lemma BytesOfBits(e: Endian, u: Words)
    ensures Bits(BytesOf(e, u)) == BitsOf(e, u)
  {
    FromBitsRoundTrip(BitsOf(e, u));
  }

  /** block16_xor and block16_xor3. */
  function XorWords(x: Words, y: Words): Words {
    Words(Add(x.w0, y.w0), Add(x.w1, y.w1))
  }

  lemma XorWordsAdds(e: Endian, x: Words, y: Words)
    ensures BitsOf(e, XorWords(x, y)) == Add(BitsOf(e, x), BitsOf(e, y))
  {
  }

  // The constants of the word operations, by their set bits; ByteConstantsAreHex and MasksAreHex give their digits.
  function GhashPoly(): Word { seq(64, i => InR(i - 56)) }
  function OneBit(): Word { seq(64, i => i == 63) }
  function TopOfByte(): Word { seq(64, i => i == 56) }
  function AllButLow(): Word { seq(64, i => i % 8 != 7) }
  function LowOfBytes(): Word { seq(64, i => i >= 8 && i % 8 == 7) }

  /** RSHIFT_ALIEN_UINT64: shift a word of the other byte order right by one bit. */
  function RshiftAlien(x: Word): Word {
    Or(Shr(And(x, AllButLow()), 1), Shl(And(x, LowOfBytes()), 15))
  }

  function MulxGhash(e: Endian, x: Words): Words {
    match e
    case Big =>
      var mask := Negated(And(x.w1, OneBit()));
      Words(Add(Shr(x.w0, 1), And(mask, Shl(GhashPoly(), 56))),
            Or(Shr(x.w1, 1), Shl(And(x.w0, OneBit()), 63)))
    case Little =>
      var mask := Negated(And(Shr(x.w1, 56), OneBit()));
      Words(Add(RshiftAlien(x.w0), And(mask, GhashPoly())),
            Or(RshiftAlien(x.w1), And(Shr(x.w0, 49), TopOfByte())))
  }

  lemma ByteConstants(k: nat)
    requires k < 8
    ensures !Bit(0, k)
    ensures Bit(0x01, k) == (k == 7)
    ensures Bit(0x80, k) == (k == 0)
    ensures Bit(0xE1, k) == InR(k)
    ensures Bit(0xfe, k) == (k != 7)
  {
    match k case 0 => case 1 => case 2 => case 3 => case 4 => case 5 => case 6 => case 7 =>
  }

  lemma IsHex(w: Word, s: seq<byte>)
    requires |s| == 8
    requires forall i, k :: 0 <= i < 8 && 0 <= k < 8 ==> w[8 * i + k] == Bit(s[i], k)
    ensures w == Hex(s)
  {
    forall j | 0 <= j < 64 ensures w[j] == Hex(s)[j] {
      BitsAt(s, j / 8, j % 8);
    }
  }

  /** The constants are 0xE1, 0x01 and 0x80, in the last byte of the word, */
  lemma ByteConstantsAreHex()
    ensures GhashPoly() == Hex(Zeros(7) + [0xE1])
    ensures OneBit() == Hex(Zeros(7) + [0x01])
    ensures TopOfByte() == Hex(Zeros(7) + [0x80])
  {
    forall k | 0 <= k < 8
      ensures !Bit(0, k) && Bit(0x01, k) == (k == 7) && Bit(0x80, k) == (k == 0) && Bit(0xE1, k) == InR(k)
    {
      ByteConstants(k);
    }
    IsHex(GhashPoly(), Zeros(7) + [0xE1]);
    IsHex(OneBit(), Zeros(7) + [0x01]);
    IsHex(TopOfByte(), Zeros(7) + [0x80]);
  }

  /** 0xfefefefefefefefe and 0x0001010101010101. */
  lemma MasksAreHex()
    ensures AllButLow() == Hex(seq(8, i => 0xfe))
    ensures LowOfBytes() == Hex([0x00] + seq(7, i => 0x01))
  {
    forall k | 0 <= k < 8 ensures !Bit(0, k) && Bit(0x01, k) == (k == 7) && Bit(0xfe, k) == (k != 7) {
      ByteConstants(k);
    }
    IsHex(AllButLow(), seq(8, i => 0xfe));
    IsHex(LowOfBytes(), [0x00] + seq(7, i => 0x01));
  }

  lemma RshiftAlienAt(x: Word, i: nat)
    requires i < 64
    ensures RshiftAlien(x)[i] == if i % 8 != 0 then x[i - 1] else i < 56 && x[i + 15]
  {
  }

  lemma LittlePlace(j: nat)
    requires j < 64
    ensures var i := Place(Little, j);
            && (i % 8 == 0 <==> j % 8 == 0)
            && (j == 0 <==> i == 56) && (j == 63 <==> i == 7)
            && (InR(i - 56) <==> InR(j))
            && (j > 0 ==> Place(Little, j - 1) == if i % 8 != 0 then i - 1 else i + 15)
  {
  }

  lemma LittleStep(x: Words, j: nat)
    requires j < 64
    ensures var r, m0, m1 := MulxGhash(Little, x), WordMemory(Little, x.w0), WordMemory(Little, x.w1);
            && r.w0[Place(Little, j)] == ((j > 0 && m0[j - 1]) != (InR(j) && m1[63]))
            && r.w1[Place(Little, j)] == if j > 0 then m1[j - 1] else m0[63]
  {
    LittlePlace(j);
    RshiftAlienAt(x.w0, Place(Little, j));
    RshiftAlienAt(x.w1, Place(Little, j));
  }

  lemma BigStep(x: Words, j: nat)
    requires j < 64
    ensures var r, m0, m1 := MulxGhash(Big, x), WordMemory(Big, x.w0), WordMemory(Big, x.w1);
            && r.w0[j] == ((j > 0 && m0[j - 1]) != (InR(j) && m1[63]))
            && r.w1[j] == if j > 0 then m1[j - 1] else m0[63]
  {
  }

  /** One step on a block, by the halves of the block. */
  lemma HalvesMulx(m0: Word, m1: Word, r0: Word, r1: Word)
    requires forall j :: 0 <= j < 64 ==> r0[j] == ((j > 0 && m0[j - 1]) != (InR(j) && m1[63]))
    requires forall j :: 0 <= j < 64 ==> r1[j] == if j > 0 then m1[j - 1] else m0[63]
    ensures r0 + r1 == Mulx(m0 + m1)
  {
  }

  /** In either byte order the word form is the step V := V * x of the standard. */
  lemma MulxGhashIsMulx(e: Endian, x: Words)
    ensures BitsOf(e, MulxGhash(e, x)) == Mulx(BitsOf(e, x))
  {
    var m0, m1 := WordMemory(e, x.w0), WordMemory(e, x.w1);
    var r0, r1 := WordMemory(e, MulxGhash(e, x).w0), WordMemory(e, MulxGhash(e, x).w1);
    forall j | 0 <= j < 64
      ensures r0[j] == ((j > 0 && m0[j - 1]) != (InR(j) && m1[63]))
      ensures r1[j] == if j > 0 then m1[j - 1] else m0[63]
    {
      match e
      case Little => LittleStep(x, j);
      case Big => BigStep(x, j);
    }
    HalvesMulx(m0, m1, r0, r1);
  }

  method Block16Xor(ghost e: Endian, r: Words, x: Words) returns (z: Words)
    ensures BitsOf(e, z) == Add(BitsOf(e, r), BitsOf(e, x))
  {
    z := XorWords(r, x);
    XorWordsAdds(e, r, x);
  }

  method Block16MulxGhash(e: Endian, x: Words) returns (r: Words)
    ensures BitsOf(e, r) == Mulx(BitsOf(e, x))
  {
    r := MulxGhash(e, x);
    MulxGhashIsMulx(e, x);
  }
}
