/** gcm_gf_shift_8 and gcm_gf_shift_4 of gcm.c: eight, or four, steps V := V * x at once. */
module GhashShift {
  import opened Field
  import opened Bytes
  import opened GhashWords
  import opened ShiftTable

  /** The constants 0xff, 0x0f, 0xf0, 0xf0f0f0f0f0f0f0f0 and 0x000f0f0f0f0f0f0f, by their set bits. */
  function LowEight(): Word { seq(64, i => i >= 56) }
  function LowFour(): Word { seq(64, i => i >= 60) }
  function HighNibble(): Word { seq(64, i => 56 <= i < 60) }
  function HighNibbles(): Word { seq(64, i => i % 8 < 4) }
  function LowNibbles(): Word { seq(64, i => i >= 8 && i % 8 >= 4) }

  lemma NibbleConstants(k: nat)
    requires k < 8
    ensures !Bit(0, k) && Bit(0xff, k)
    ensures Bit(0x0f, k) == (k >= 4) && Bit(0xf0, k) == (k < 4)
  {
    match k case 0 => case 1 => case 2 => case 3 => case 4 => case 5 => case 6 => case 7 =>
  }

  lemma ShiftBytesAreHex()
    ensures LowEight() == Hex(Zeros(7) + [0xff])
    ensures LowFour() == Hex(Zeros(7) + [0x0f])
    ensures HighNibble() == Hex(Zeros(7) + [0xf0])
  {
    forall k | 0 <= k < 8 ensures !Bit(0, k) && Bit(0xff, k) && Bit(0x0f, k) == (k >= 4) && Bit(0xf0, k) == (k < 4) {
      NibbleConstants(k);
    }
    IsHex(LowEight(), Zeros(7) + [0xff]);
    IsHex(LowFour(), Zeros(7) + [0x0f]);
    IsHex(HighNibble(), Zeros(7) + [0xf0]);
  }

  lemma ShiftMasksAreHex()
    ensures HighNibbles() == Hex(seq(8, i => 0xf0))
    ensures LowNibbles() == Hex([0x00] + seq(7, i => 0x0f))
  {
    forall k | 0 <= k < 8 ensures !Bit(0, k) && Bit(0x0f, k) == (k >= 4) && Bit(0xf0, k) == (k < 4) {
      NibbleConstants(k);
    }
    IsHex(HighNibbles(), seq(8, i => 0xf0));
    IsHex(LowNibbles(), [0x00] + seq(7, i => 0x0f));
  }

  /** A table entry W(left,right), widened to a word: `left` is the byte that comes first in memory. */
  function Widened(e: Endian, v: seq<bool>): Word
    requires |v| == 16
  {
    match e
    case Big => Falses(48) + v
    case Little => Falses(48) + v[8..] + v[..8]
  }

  /** The last byte of the block, by which the shift table is indexed. */
  function LastByte(e: Endian, x: Words): byte {
    BitsByte(And(if e.Big? then x.w1 else Shr(x.w1, 56), LowEight())[56..])
  }

  function LastNibble(e: Endian, x: Words): byte {
    BitsByte(And(if e.Big? then x.w1 else Shr(x.w1, 56), LowFour())[56..])
  }

  function Shift8By(e: Endian, reduce: Word, x: Words): Words {
    match e
    case Big => Words(Add(Shr(x.w0, 8), Shl(reduce, 48)), Or(Shr(x.w1, 8), Shl(And(x.w0, LowEight()), 56)))
    case Little => Words(Add(Shl(x.w0, 8), reduce), Or(Shl(x.w1, 8), Shr(x.w0, 56)))
  }

  function Shift8(e: Endian, t: byte -> bv16, x: Words): Words {
    Shift8By(e, Widened(e, EntryBits(t(LastByte(e, x)))), x)
  }

  /** RSHIFT_WORD_4: shift a word of the other byte order right by four bits. */
  function RshiftWord4(x: Word): Word {
    Or(Shr(And(x, HighNibbles()), 4), Shl(And(x, LowNibbles()), 12))
  }

  function Shift4By(e: Endian, reduce: Word, x: Words): Words {
    match e
    case Big => Words(Add(Shr(x.w0, 4), Shl(reduce, 48)), Or(Shr(x.w1, 4), Shl(And(x.w0, LowFour()), 60)))
    case Little => Words(Add(RshiftWord4(x.w0), reduce), Or(RshiftWord4(x.w1), And(Shr(x.w0, 52), HighNibble())))
  }

  function Shift4(e: Endian, t: byte -> bv16, x: Words): Words {
    Shift4By(e, Widened(e, EntryBits(t(LastNibble(e, x)))), x)
  }

  /** What a shift by `n` bits, with the bits `v` added at the front, does to the halves of a block. */
  ghost predicate ShiftedBy(n: nat, v: seq<bool>, m0: Word, m1: Word, r0: Word, r1: Word)
    requires n <= 8 && |v| == 16
  {
    && (forall j :: 0 <= j < 64 ==> r0[j] == ((j >= n && m0[j - n]) != (j < 16 && v[j])))
    && (forall j :: 0 <= j < 64 ==> r1[j] == if j >= n then m1[j - n] else m0[64 + j - n])
  }

  lemma ShiftedIsMulxN(n: nat, v: seq<bool>, m0: Word, m1: Word, r0: Word, r1: Word)
    requires n <= 8 && |v| == 16 && ShiftedBy(n, v, m0, m1, r0, r1)
    requires forall i: nat :: i < 16 ==> v[i] == Spill(m1[64 - n..], i)
    ensures r0 + r1 == MulxN(m0 + m1, n)
  {
    var m := m0 + m1;
    assert m[128 - n..] == m1[64 - n..];
    forall j | 0 <= j < 128 ensures (r0 + r1)[j] == MulxN(m, n)[j] {
      MulxNAt(m, n, j);
      if j >= 16 {
        SpillRange(m1[64 - n..], j);
      }
    }
  }

  lemma WidenedAt(e: Endian, v: seq<bool>, j: nat)
    requires |v| == 16 && j < 64
    ensures match e
            case Big => Shl(Widened(e, v), 48)[j] == (j < 16 && v[j])
            case Little => Widened(e, v)[Place(e, j)] == (j < 16 && v[j])
  {
  }

  lemma LittlePlaces(j: nat)
    requires j < 64
    ensures var i := Place(Little, j);
            && (j >= 8 ==> i < 56 && Place(Little, j - 8) == i + 8)
            && (j < 8 ==> i == 56 + j && Place(Little, 56 + j) == i - 56)
  {
  }

  lemma LittleNibblePlaces(j: nat)
    requires j < 64
    ensures var i := Place(Little, j);
            && (j % 8 >= 4 ==> i % 8 >= 4 && Place(Little, j - 4) == i - 4)
            && (j % 8 < 4 ==> i % 8 < 4)
            && (j % 8 < 4 && j >= 8 ==> i < 56 && Place(Little, j - 4) == i + 12)
            && (j < 4 ==> i == 56 + j && Place(Little, 60 + j) == i - 52)
  {
  }

  lemma Little8(v: seq<bool>, x: Words, j: nat)
    requires |v| == 16 && j < 64
    ensures var r, m0, m1 := Shift8By(Little, Widened(Little, v), x), WordMemory(Little, x.w0), WordMemory(Little, x.w1);
            && r.w0[Place(Little, j)] == ((j >= 8 && m0[j - 8]) != (j < 16 && v[j]))
            && r.w1[Place(Little, j)] == if j >= 8 then m1[j - 8] else m0[56 + j]
  {
    WidenedAt(Little, v, j);
    LittlePlaces(j);
  }

  lemma Big8(v: seq<bool>, x: Words, j: nat)
    requires |v| == 16 && j < 64
    ensures var r := Shift8By(Big, Widened(Big, v), x);
            && r.w0[j] == ((j >= 8 && x.w0[j - 8]) != (j < 16 && v[j]))
            && r.w1[j] == if j >= 8 then x.w1[j - 8] else x.w0[56 + j]
  {
    WidenedAt(Big, v, j);
  }

  lemma RshiftWord4At(x: Word, i: nat)
    requires i < 64
    ensures RshiftWord4(x)[i] == if i % 8 >= 4 then x[i - 4] else i < 56 && x[i + 12]
  {
  }

  lemma Little4(v: seq<bool>, x: Words, j: nat)
    requires |v| == 16 && j < 64
    ensures var r, m0, m1 := Shift4By(Little, Widened(Little, v), x), WordMemory(Little, x.w0), WordMemory(Little, x.w1);
            && r.w0[Place(Little, j)] == ((j >= 4 && m0[j - 4]) != (j < 16 && v[j]))
            && r.w1[Place(Little, j)] == if j >= 4 then m1[j - 4] else m0[60 + j]
  {
    WidenedAt(Little, v, j);
    LittleNibblePlaces(j);
    RshiftWord4At(x.w0, Place(Little, j));
    RshiftWord4At(x.w1, Place(Little, j));
  }

  lemma Big4(v: seq<bool>, x: Words, j: nat)
    requires |v| == 16 && j < 64
    ensures var r := Shift4By(Big, Widened(Big, v), x);
            && r.w0[j] == ((j >= 4 && x.w0[j - 4]) != (j < 16 && v[j]))
            && r.w1[j] == if j >= 4 then x.w1[j - 4] else x.w0[60 + j]
  {
    WidenedAt(Big, v, j);
  }

  lemma Shift8Memory(e: Endian, v: seq<bool>, x: Words)
    requires |v| == 16
    ensures var r := Shift8By(e, Widened(e, v), x);
            ShiftedBy(8, v, WordMemory(e, x.w0), WordMemory(e, x.w1), WordMemory(e, r.w0), WordMemory(e, r.w1))
  {
    var r, m0, m1 := Shift8By(e, Widened(e, v), x), WordMemory(e, x.w0), WordMemory(e, x.w1);
    forall j | 0 <= j < 64
      ensures WordMemory(e, r.w0)[j] == ((j >= 8 && m0[j - 8]) != (j < 16 && v[j]))
      ensures WordMemory(e, r.w1)[j] == if j >= 8 then m1[j - 8] else m0[56 + j]
    {
      match e
      case Little => Little8(v, x, j);
      case Big => Big8(v, x, j);
    }
  }

  lemma Shift4Memory(e: Endian, v: seq<bool>, x: Words)
    requires |v| == 16
    ensures var r := Shift4By(e, Widened(e, v), x);
            ShiftedBy(4, v, WordMemory(e, x.w0), WordMemory(e, x.w1), WordMemory(e, r.w0), WordMemory(e, r.w1))
  {
    var r, m0, m1 := Shift4By(e, Widened(e, v), x), WordMemory(e, x.w0), WordMemory(e, x.w1);
    forall j | 0 <= j < 64
      ensures WordMemory(e, r.w0)[j] == ((j >= 4 && m0[j - 4]) != (j < 16 && v[j]))
      ensures WordMemory(e, r.w1)[j] == if j >= 4 then m1[j - 4] else m0[60 + j]
    {
      match e
      case Little => Little4(v, x, j);
      case Big => Big4(v, x, j);
    }
  }

  lemma LastBits(e: Endian, x: Words)
    ensures And(if e.Big? then x.w1 else Shr(x.w1, 56), LowEight())[56..] == WordMemory(e, x.w1)[56..]
    ensures And(if e.Big? then x.w1 else Shr(x.w1, 56), LowFour())[56..] == Falses(4) + WordMemory(e, x.w1)[60..]
  {
  }

  lemma LastByteBits(e: Endian, x: Words)
    ensures ByteBits(LastByte(e, x)) == WordMemory(e, x.w1)[56..]
  {
    LastBits(e, x);
    BitsByteRoundTrip(And(if e.Big? then x.w1 else Shr(x.w1, 56), LowEight())[56..]);
  }

  lemma NibbleIndex(s: seq<bool>)
    requires |s| == 8 && !s[0] && !s[1] && !s[2] && !s[3]
    ensures BitsByte(s) < 16
  {
  }

  lemma LastNibbleBits(e: Endian, x: Words)
    ensures ByteBits(LastNibble(e, x))[4..] == WordMemory(e, x.w1)[60..]
    ensures LastNibble(e, x) < 16
  {
    var s := And(if e.Big? then x.w1 else Shr(x.w1, 56), LowFour())[56..];
    LastBits(e, x);
    BitsByteRoundTrip(s);
    NibbleIndex(s);
  }

  /** Eight steps at once, in either byte order. */
  lemma Shift8IsMulxN(e: Endian, t: byte -> bv16, x: Words)
    requires IsShiftTable(t, 8)
    ensures BitsOf(e, Shift8(e, t, x)) == MulxN(BitsOf(e, x), 8)
  {
    var b, m1, r := LastByte(e, x), WordMemory(e, x.w1), Shift8(e, t, x);
    LastByteBits(e, x);
    assert ByteBits(b)[0..] == m1[56..];
    assert Reduces(t(b), m1[56..]);
    Shift8Memory(e, EntryBits(t(b)), x);
    ShiftedIsMulxN(8, EntryBits(t(b)), WordMemory(e, x.w0), m1, WordMemory(e, r.w0), WordMemory(e, r.w1));
  }

  /** Four steps at once, in either byte order. */
  lemma Shift4IsMulxN(e: Endian, t: byte -> bv16, x: Words)
    requires IsShiftTable(t, 4)
    ensures BitsOf(e, Shift4(e, t, x)) == MulxN(BitsOf(e, x), 4)
  {
    var b, m1, r := LastNibble(e, x), WordMemory(e, x.w1), Shift4(e, t, x);
    LastNibbleBits(e, x);
    assert Reduces(t(b), m1[60..]);
    Shift4Memory(e, EntryBits(t(b)), x);
    ShiftedIsMulxN(4, EntryBits(t(b)), WordMemory(e, x.w0), m1, WordMemory(e, r.w0), WordMemory(e, r.w1));
  }

  method GfShift8(e: Endian, t: byte -> bv16, x: Words) returns (r: Words)
    requires IsShiftTable(t, 8)
    ensures BitsOf(e, r) == MulxN(BitsOf(e, x), 8)
  {
    r := Shift8(e, t, x);
    Shift8IsMulxN(e, t, x);
  }

  method GfShift4(e: Endian, t: byte -> bv16, x: Words) returns (r: Words)
    requires IsShiftTable(t, 4)
    ensures BitsOf(e, r) == MulxN(BitsOf(e, x), 4)
  {
    r := Shift4(e, t, x);
    Shift4IsMulxN(e, t, x);
  }
}
