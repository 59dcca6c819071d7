/** The two shift_table constants of gcm.c, and what their entries are: the reduction of the bits that
    a shift by 8 or by 4 places drops. An entry W(left,right) is written 0x<left><right>. */
module ShiftTable {
  import opened Field
  import opened Bytes

  function Entry4(n: byte): bv16 {
    match n
    case 0x0 => 0x0000
    case 0x1 => 0x1c20
    case 0x2 => 0x3840
    case 0x3 => 0x2460
    case 0x4 => 0x7080
    case 0x5 => 0x6ca0
    case 0x6 => 0x48c0
    case 0x7 => 0x54e0
    case 0x8 => 0xe100
    case 0x9 => 0xfd20
    case 0xa => 0xd940
    case 0xb => 0xc560
    case 0xc => 0x9180
    case 0xd => 0x8da0
    case 0xe => 0xa9c0
    case _ => 0xb5e0
  }

  function Row0(n: byte): bv16 {
    match n
    case 0x0 => 0x0000
    case 0x1 => 0x01c2
    case 0x2 => 0x0384
    case 0x3 => 0x0246
    case 0x4 => 0x0708
    case 0x5 => 0x06ca
    case 0x6 => 0x048c
    case 0x7 => 0x054e
    case 0x8 => 0x0e10
    case 0x9 => 0x0fd2
    case 0xa => 0x0d94
    case 0xb => 0x0c56
    case 0xc => 0x0918
    case 0xd => 0x08da
    case 0xe => 0x0a9c
    case _ => 0x0b5e
  }

  function Row1(n: byte): bv16 {
    match n
    case 0x0 => 0x1c20
    case 0x1 => 0x1de2
    case 0x2 => 0x1fa4
    case 0x3 => 0x1e66
    case 0x4 => 0x1b28
    case 0x5 => 0x1aea
    case 0x6 => 0x18ac
    case 0x7 => 0x196e
    case 0x8 => 0x1230
    case 0x9 => 0x13f2
    case 0xa => 0x11b4
    case 0xb => 0x1076
    case 0xc => 0x1538
    case 0xd => 0x14fa
    case 0xe => 0x16bc
    case _ => 0x177e
  }

  function Row2(n: byte): bv16 {
    match n
    case 0x0 => 0x3840
    case 0x1 => 0x3982
    case 0x2 => 0x3bc4
    case 0x3 => 0x3a06
    case 0x4 => 0x3f48
    case 0x5 => 0x3e8a
    case 0x6 => 0x3ccc
    case 0x7 => 0x3d0e
    case 0x8 => 0x3650
    case 0x9 => 0x3792
    case 0xa => 0x35d4
    case 0xb => 0x3416
    case 0xc => 0x3158
    case 0xd => 0x309a
    case 0xe => 0x32dc
    case _ => 0x331e
  }

  function Row3(n: byte): bv16 {
    match n
    case 0x0 => 0x2460
    case 0x1 => 0x25a2
    case 0x2 => 0x27e4
    case 0x3 => 0x2626
    case 0x4 => 0x2368
    case 0x5 => 0x22aa
    case 0x6 => 0x20ec
    case 0x7 => 0x212e
    case 0x8 => 0x2a70
    case 0x9 => 0x2bb2
    case 0xa => 0x29f4
    case 0xb => 0x2836
    case 0xc => 0x2d78
    case 0xd => 0x2cba
    case 0xe => 0x2efc
    case _ => 0x2f3e
  }

  function Row4(n: byte): bv16 {
    match n
    case 0x0 => 0x7080
    case 0x1 => 0x7142
    case 0x2 => 0x7304
    case 0x3 => 0x72c6
    case 0x4 => 0x7788
    case 0x5 => 0x764a
    case 0x6 => 0x740c
    case 0x7 => 0x75ce
    case 0x8 => 0x7e90
    case 0x9 => 0x7f52
    case 0xa => 0x7d14
    case 0xb => 0x7cd6
    case 0xc => 0x7998
    case 0xd => 0x785a
    case 0xe => 0x7a1c
    case _ => 0x7bde
  }

  function Row5(n: byte): bv16 {
    match n
    case 0x0 => 0x6ca0
    case 0x1 => 0x6d62
    case 0x2 => 0x6f24
    case 0x3 => 0x6ee6
    case 0x4 => 0x6ba8
    case 0x5 => 0x6a6a
    case 0x6 => 0x682c
    case 0x7 => 0x69ee
    case 0x8 => 0x62b0
    case 0x9 => 0x6372
    case 0xa => 0x6134
    case 0xb => 0x60f6
    case 0xc => 0x65b8
    case 0xd => 0x647a
    case 0xe => 0x663c
    case _ => 0x67fe
  }

  function Row6(n: byte): bv16 {
    match n
    case 0x0 => 0x48c0
    case 0x1 => 0x4902
    case 0x2 => 0x4b44
    case 0x3 => 0x4a86
    case 0x4 => 0x4fc8
    case 0x5 => 0x4e0a
    case 0x6 => 0x4c4c
    case 0x7 => 0x4d8e
    case 0x8 => 0x46d0
    case 0x9 => 0x4712
    case 0xa => 0x4554
    case 0xb => 0x4496
    case 0xc => 0x41d8
    case 0xd => 0x401a
    case 0xe => 0x425c
    case _ => 0x439e
  }

  function Row7(n: byte): bv16 {
    match n
    case 0x0 => 0x54e0
    case 0x1 => 0x5522
    case 0x2 => 0x5764
    case 0x3 => 0x56a6
    case 0x4 => 0x53e8
    case 0x5 => 0x522a
    case 0x6 => 0x506c
    case 0x7 => 0x51ae
    case 0x8 => 0x5af0
    case 0x9 => 0x5b32
    case 0xa => 0x5974
    case 0xb => 0x58b6
    case 0xc => 0x5df8
    case 0xd => 0x5c3a
    case 0xe => 0x5e7c
    case _ => 0x5fbe
  }

  function Row8(n: byte): bv16 {
    match n
    case 0x0 => 0xe100
    case 0x1 => 0xe0c2
    case 0x2 => 0xe284
    case 0x3 => 0xe346
    case 0x4 => 0xe608
    case 0x5 => 0xe7ca
    case 0x6 => 0xe58c
    case 0x7 => 0xe44e
    case 0x8 => 0xef10
    case 0x9 => 0xeed2
    case 0xa => 0xec94
    case 0xb => 0xed56
    case 0xc => 0xe818
    case 0xd => 0xe9da
    case 0xe => 0xeb9c
    case _ => 0xea5e
  }

  function Row9(n: byte): bv16 {
    match n
    case 0x0 => 0xfd20
    case 0x1 => 0xfce2
    case 0x2 => 0xfea4
    case 0x3 => 0xff66
    case 0x4 => 0xfa28
    case 0x5 => 0xfbea
    case 0x6 => 0xf9ac
    case 0x7 => 0xf86e
    case 0x8 => 0xf330
    case 0x9 => 0xf2f2
    case 0xa => 0xf0b4
    case 0xb => 0xf176
    case 0xc => 0xf438
    case 0xd => 0xf5fa
    case 0xe => 0xf7bc
    case _ => 0xf67e
  }

  function RowA(n: byte): bv16 {
    match n
    case 0x0 => 0xd940
    case 0x1 => 0xd882
    case 0x2 => 0xdac4
    case 0x3 => 0xdb06
    case 0x4 => 0xde48
    case 0x5 => 0xdf8a
    case 0x6 => 0xddcc
    case 0x7 => 0xdc0e
    case 0x8 => 0xd750
    case 0x9 => 0xd692
    case 0xa => 0xd4d4
    case 0xb => 0xd516
    case 0xc => 0xd058
    case 0xd => 0xd19a
    case 0xe => 0xd3dc
    case _ => 0xd21e
  }

  function RowB(n: byte): bv16 {
    match n
    case 0x0 => 0xc560
    case 0x1 => 0xc4a2
    case 0x2 => 0xc6e4
    case 0x3 => 0xc726
    case 0x4 => 0xc268
    case 0x5 => 0xc3aa
    case 0x6 => 0xc1ec
    case 0x7 => 0xc02e
    case 0x8 => 0xcb70
    case 0x9 => 0xcab2
    case 0xa => 0xc8f4
    case 0xb => 0xc936
    case 0xc => 0xcc78
    case 0xd => 0xcdba
    case 0xe => 0xcffc
    case _ => 0xce3e
  }

  function RowC(n: byte): bv16 {
    match n
    case 0x0 => 0x9180
    case 0x1 => 0x9042
    case 0x2 => 0x9204
    case 0x3 => 0x93c6
    case 0x4 => 0x9688
    case 0x5 => 0x974a
    case 0x6 => 0x950c
    case 0x7 => 0x94ce
    case 0x8 => 0x9f90
    case 0x9 => 0x9e52
    case 0xa => 0x9c14
    case 0xb => 0x9dd6
    case 0xc => 0x9898
    case 0xd => 0x995a
    case 0xe => 0x9b1c
    case _ => 0x9ade
  }

  function RowD(n: byte): bv16 {
    match n
    case 0x0 => 0x8da0
    case 0x1 => 0x8c62
    case 0x2 => 0x8e24
    case 0x3 => 0x8fe6
    case 0x4 => 0x8aa8
    case 0x5 => 0x8b6a
    case 0x6 => 0x892c
    case 0x7 => 0x88ee
    case 0x8 => 0x83b0
    case 0x9 => 0x8272
    case 0xa => 0x8034
    case 0xb => 0x81f6
    case 0xc => 0x84b8
    case 0xd => 0x857a
    case 0xe => 0x873c
    case _ => 0x86fe
  }

  function RowE(n: byte): bv16 {
    match n
    case 0x0 => 0xa9c0
    case 0x1 => 0xa802
    case 0x2 => 0xaa44
    case 0x3 => 0xab86
    case 0x4 => 0xaec8
    case 0x5 => 0xaf0a
    case 0x6 => 0xad4c
    case 0x7 => 0xac8e
    case 0x8 => 0xa7d0
    case 0x9 => 0xa612
    case 0xa => 0xa454
    case 0xb => 0xa596
    case 0xc => 0xa0d8
    case 0xd => 0xa11a
    case 0xe => 0xa35c
    case _ => 0xa29e
  }

  function RowF(n: byte): bv16 {
    match n
    case 0x0 => 0xb5e0
    case 0x1 => 0xb422
    case 0x2 => 0xb664
    case 0x3 => 0xb7a6
    case 0x4 => 0xb2e8
    case 0x5 => 0xb32a
    case 0x6 => 0xb16c
    case 0x7 => 0xb0ae
    case 0x8 => 0xbbf0
    case 0x9 => 0xba32
    case 0xa => 0xb874
    case 0xb => 0xb9b6
    case 0xc => 0xbcf8
    case 0xd => 0xbd3a
    case 0xe => 0xbf7c
    case _ => 0xbebe
  }

  function Entry8(b: byte): bv16 {
    match b >> 4
    case 0x0 => Row0(b & 0xf)
    case 0x1 => Row1(b & 0xf)
    case 0x2 => Row2(b & 0xf)
    case 0x3 => Row3(b & 0xf)
    case 0x4 => Row4(b & 0xf)
    case 0x5 => Row5(b & 0xf)
    case 0x6 => Row6(b & 0xf)
    case 0x7 => Row7(b & 0xf)
    case 0x8 => Row8(b & 0xf)
    case 0x9 => Row9(b & 0xf)
    case 0xa => RowA(b & 0xf)
    case 0xb => RowB(b & 0xf)
    case 0xc => RowC(b & 0xf)
    case 0xd => RowD(b & 0xf)
    case 0xe => RowE(b & 0xf)
    case _ => RowF(b & 0xf)
  }

  /** The sum over the set bits of `b` of R = 0xE100, moved right by the place of the bit. */
  function Linear8(b: byte): bv16 {
    (if b & 0x80 != 0 then 0xE100 else 0) ^ (if b & 0x40 != 0 then 0x7080 else 0)
    ^ (if b & 0x20 != 0 then 0x3840 else 0) ^ (if b & 0x10 != 0 then 0x1C20 else 0)
    ^ (if b & 0x08 != 0 then 0x0E10 else 0) ^ (if b & 0x04 != 0 then 0x0708 else 0)
    ^ (if b & 0x02 != 0 then 0x0384 else 0) ^ (if b & 0x01 != 0 then 0x01C2 else 0)
  }

  function Linear4(n: byte): bv16 {
    (if n & 0x08 != 0 then 0xE100 else 0) ^ (if n & 0x04 != 0 then 0x7080 else 0)
    ^ (if n & 0x02 != 0 then 0x3840 else 0) ^ (if n & 0x01 != 0 then 0x1C20 else 0)
  }

  /** Every literal of the 8-bit table is the sum of the entries for the bits of its index. */
  lemma Entry8Linear(b: byte)
    ensures Entry8(b) == Linear8(b)
  {
  }

  /** Every literal of the 4-bit table is the sum of the entries for the bits of its index. */
  lemma Entry4Linear(n: byte)
    requires n < 16
    ensures Entry4(n) == Linear4(n)
  {
  }

  /** The bits of an entry, left byte first. */
  function EntryBits(v: bv16): (r: seq<bool>)
    ensures |r| == 16
  {
    ByteBits((v >> 8) as byte) + ByteBits((v & 0xff) as byte)
  }

  /** `h` and `l` hold, for each of 16 places, the copies of R that the bits of `t` leave there. */
  predicate Reduced8(t: seq<bool>, h: seq<bool>, l: seq<bool>)
    requires |t| == |h| == |l| == 8
  {
    ReducedHigh(t, h) && ReducedLow(t, l)
  }

  predicate ReducedHigh(t: seq<bool>, h: seq<bool>)
    requires |t| == |h| == 8
  {
    && h[0] == t[0] && h[1] == (t[0] != t[1]) && h[2] == (t[0] != (t[1] != t[2]))
    && h[3] == (t[1] != (t[2] != t[3])) && h[4] == (t[2] != (t[3] != t[4])) && h[5] == (t[3] != (t[4] != t[5]))
    && h[6] == (t[4] != (t[5] != t[6])) && h[7] == (t[0] != (t[5] != (t[6] != t[7])))
  }

  predicate ReducedLow(t: seq<bool>, l: seq<bool>)
    requires |t| == |l| == 8
  {
    && l[0] == (t[1] != (t[6] != t[7])) && l[1] == (t[2] != t[7])
    && l[2] == t[3] && l[3] == t[4] && l[4] == t[5] && l[5] == t[6] && l[6] == t[7] && !l[7]
  }

  lemma SpillFrom(t: seq<bool>, k: nat, i: int)
    requires k <= |t|
    ensures Spill(t[k..], i) == (k < |t| && (t[k] && InR(i)) != Spill(t[k + 1..], i - 1))
  {
    if k < |t| {
      assert t[k..][1..] == t[k + 1..];
    }
  }

  predicate Copy(t: seq<bool>, k: nat, i: int)
    requires k < |t|
  {
    t[k] && InR(i - k)
  }

  lemma SpillSum(t: seq<bool>, i: int)
    requires |t| == 8
    ensures Spill(t, i) == (Copy(t, 0, i) != (Copy(t, 1, i) != (Copy(t, 2, i) != (Copy(t, 3, i)
                         != (Copy(t, 4, i) != (Copy(t, 5, i) != (Copy(t, 6, i) != Copy(t, 7, i))))))))
  {
    assert t[0..] == t;
    SpillFrom(t, 0, i);
    SpillFrom(t, 1, i - 1);
    SpillFrom(t, 2, i - 2);
    SpillFrom(t, 3, i - 3);
    SpillFrom(t, 4, i - 4);
    SpillFrom(t, 5, i - 5);
    SpillFrom(t, 6, i - 6);
    SpillFrom(t, 7, i - 7);
    SpillFrom(t, 8, i - 8);
  }

  lemma Spill8(t: seq<bool>, h: seq<bool>, l: seq<bool>, i: nat)
    requires |t| == |h| == |l| == 8 && Reduced8(t, h, l) && i < 16
    ensures (h + l)[i] == Spill(t, i)
  {
    SpillSum(t, i);
  }

  predicate IsHigh(b: byte, h: byte) {
    && Bit(h, 0) == Bit(b, 0)
    && Bit(h, 1) == (Bit(b, 0) != Bit(b, 1))
    && Bit(h, 2) == (Bit(b, 0) != (Bit(b, 1) != Bit(b, 2)))
    && Bit(h, 3) == (Bit(b, 1) != (Bit(b, 2) != Bit(b, 3)))
    && Bit(h, 4) == (Bit(b, 2) != (Bit(b, 3) != Bit(b, 4)))
    && Bit(h, 5) == (Bit(b, 3) != (Bit(b, 4) != Bit(b, 5)))
    && Bit(h, 6) == (Bit(b, 4) != (Bit(b, 5) != Bit(b, 6)))
    && Bit(h, 7) == (Bit(b, 0) != (Bit(b, 5) != (Bit(b, 6) != Bit(b, 7))))
  }

  predicate IsLow(b: byte, l: byte) {
    && Bit(l, 0) == (Bit(b, 1) != (Bit(b, 6) != Bit(b, 7)))
    && Bit(l, 1) == (Bit(b, 2) != Bit(b, 7))
    && Bit(l, 2) == Bit(b, 3)
    && Bit(l, 3) == Bit(b, 4)
    && Bit(l, 4) == Bit(b, 5)
    && Bit(l, 5) == Bit(b, 6)
    && Bit(l, 6) == Bit(b, 7)
    && !Bit(l, 7)
  }

  lemma Linear8Bytes(b: byte)
    ensures IsHigh(b, (Linear8(b) >> 8) as byte)
    ensures IsLow(b, (Linear8(b) & 0xff) as byte)
  {
  }

  lemma HighReduced(b: byte, h: byte)
    requires IsHigh(b, h)
    ensures ReducedHigh(ByteBits(b), ByteBits(h))
  {
  }

  lemma LowReduced(b: byte, l: byte)
    requires IsLow(b, l)
    ensures ReducedLow(ByteBits(b), ByteBits(l))
  {
  }

  lemma Linear8Spill(b: byte, i: nat)
    requires i < 16
    ensures EntryBits(Linear8(b))[i] == Spill(ByteBits(b), i)
  {
    var h, l := (Linear8(b) >> 8) as byte, (Linear8(b) & 0xff) as byte;
    Linear8Bytes(b);
    HighReduced(b, h);
    LowReduced(b, l);
    Spill8(ByteBits(b), ByteBits(h), ByteBits(l), i);
  }

  /** The 4-bit table is the part of the 8-bit one for the indices with four low zeros. */
  lemma Linear4Is8(n: byte)
    ensures Linear4(n) == Linear8(n << 4)
  {
  }

  lemma {:induction false} SpillTrailing(t: seq<bool>, n: nat, i: int)
    ensures Spill(t + Falses(n), i) == Spill(t, i)
    decreases |t|, n
  {
    if t != [] {
      assert (t + Falses(n))[1..] == t[1..] + Falses(n);
      SpillTrailing(t[1..], n, i - 1);
    } else if n > 0 {
      assert (t + Falses(n))[1..] == t + Falses(n - 1);
      SpillTrailing(t, n - 1, i - 1);
    }
  }

  lemma NibbleBits(n: byte)
    ensures ByteBits(n << 4) == ByteBits(n)[4..] + Falses(4)
  {
    var m := n << 4;
    forall k | 0 <= k < 8 ensures Bit(m, k) == (k < 4 && Bit(n, k + 4)) {
      match k case 0 => case 1 => case 2 => case 3 => case 4 => case 5 => case 6 => case 7 =>
    }
  }

  lemma Linear4Spill(n: byte, i: nat)
    requires i < 16
    ensures EntryBits(Linear4(n))[i] == Spill(ByteBits(n)[4..], i)
  {
    Linear4Is8(n);
    Linear8Spill(n << 4, i);
    NibbleBits(n);
    SpillTrailing(ByteBits(n)[4..], 4, i);
  }

  /** The entry `v` is the reduction of the dropped bits `t`. */
  ghost predicate Reduces(v: bv16, t: seq<bool>) {
    forall i: nat :: i < 16 ==> EntryBits(v)[i] == Spill(t, i)
  }

  /** A table whose entries are the reduction of the `n` low bits of their index. */
  ghost predicate IsShiftTable(t: byte -> bv16, n: nat)
    requires n <= 8
  {
    forall b: byte :: n == 8 || b < 16 ==> Reduces(t(b), ByteBits(b)[8 - n..])
  }

  lemma Table8Reduces()
    ensures IsShiftTable(Entry8, 8)
  {
    forall b: byte ensures Reduces(Entry8(b), ByteBits(b)[0..]) {
      Entry8Linear(b);
      forall i: nat | i < 16 ensures EntryBits(Linear8(b))[i] == Spill(ByteBits(b)[0..], i) {
        Linear8Spill(b, i);
      }
    }
  }

  lemma Table4Reduces()
    ensures IsShiftTable(Entry4, 4)
  {
    forall b: byte | b < 16 ensures Reduces(Entry4(b), ByteBits(b)[4..]) {
      Entry4Linear(b);
      forall i: nat | i < 16 ensures EntryBits(Linear4(b))[i] == Spill(ByteBits(b)[4..], i) {
        Linear4Spill(b, i);
      }
    }
  }
}
