/** The hashing key and the multiplication of gcm.c, for GCM_TABLE_BITS 8, 4 and 0. */
module GhashMul {
  import opened Field
  import opened Bytes
  import opened GhashWords
  import opened ShiftTable
  import opened GhashShift

  function Pow2(n: nat): (r: nat)
    ensures r > 0
  {
    if n == 0 then 1 else 2 * Pow2(n - 1)
  }

  /** The low `n` bits of a table index, highest first. */
  function IndexBits(n: nat, j: nat): (r: seq<bool>)
    ensures |r| == n
  {
    if n == 0 then [] else IndexBits(n - 1, j / 2) + [j % 2 == 1]
  }

  lemma {:induction false} IndexBitsZero(n: nat)
    ensures IndexBits(n, 0) == Falses(n)
  {
    if n > 0 {
      IndexBitsZero(n - 1);
    }
  }

  lemma {:induction false} IndexBitsTop(n: nat)
    ensures IndexBits(n + 1, Pow2(n)) == [true] + Falses(n)
  {
    if n > 0 {
      IndexBitsTop(n - 1);
    }
  }

  lemma {:induction false} IndexBitsSmall(n: nat, j: nat)
    requires j < Pow2(n)
    ensures IndexBits(n + 1, j) == [false] + IndexBits(n, j)
  {
    if n > 0 {
      IndexBitsSmall(n - 1, j / 2);
    }
  }

  /** Adding two indices without a common bit adds their bit strings. */
  lemma {:induction false} IndexBitsAdd(n: nat, k: nat, j: nat)
    requires j < Pow2(k)
    ensures IndexBits(n, Pow2(k) + j) == Add(IndexBits(n, Pow2(k)), IndexBits(n, j))
  {
    if n == 0 {
    } else if k == 0 {
      IndexBitsZero(n);
      IndexBitsZero(n - 1);
    } else {
      IndexBitsAdd(n - 1, k - 1, j / 2);
      assert (Pow2(k) + j) / 2 == Pow2(k - 1) + j / 2;
    }
  }

  lemma {:induction false} MulFalses(n: nat, v: Element)
    ensures Mul(Falses(n), v) == ZERO
  {
    if n > 0 {
      assert Falses(n)[1..] == Falses(n - 1);
      MulFalses(n - 1, Mulx(v));
      AddZero(ZERO);
    }
  }

  lemma MulTrailing(x: seq<bool>, n: nat, v: Element)
    ensures Mul(x + Falses(n), v) == Mul(x, v)
  {
    MulConcat(x, Falses(n), v);
    MulFalses(n, v);
    MulxNLinear(ZERO, ZERO, |x|);
    AddZero(Mul(x, v));
  }

  lemma MulOneBit(n: nat, v: Element)
    ensures Mul([true] + Falses(n), v) == v
  {
    MulTrailing([true], n, v);
    assert [true][1..] == [];
    AddZero(v);
  }

  /** What entry `j` of a key table with 2^n entries has to be: j times H. */
  function EntryOf(n: nat, j: nat, h: Element): Element {
    Mul(IndexBits(n, j), h)
  }

  lemma EntryTop(n: nat, h: Element)
    requires n > 0
    ensures EntryOf(n, Pow2(n - 1), h) == h
  {
    IndexBitsTop(n - 1);
    MulOneBit(n - 1, h);
  }

  lemma EntryHalf(n: nat, j: nat, h: Element)
    requires n > 0 && j < Pow2(n - 1)
    ensures EntryOf(n, j, h) == Mulx(EntryOf(n, 2 * j, h))
  {
    var y := IndexBits(n - 1, j);
    IndexBitsSmall(n - 1, j);
    assert Mul([false] + y, h) == Add(ZERO, Mul(y, Mulx(h))) by {
      assert ([false] + y)[1..] == y;
    }
    AddZero(Mul(y, Mulx(h)));
    MulMulx(y, h);
    assert IndexBits(n, 2 * j) == y + [false] == y + Falses(1);
    MulTrailing(y, 1, h);
  }

  lemma EntrySum(n: nat, k: nat, j: nat, h: Element)
    requires j < Pow2(k)
    ensures EntryOf(n, Pow2(k) + j, h) == Add(EntryOf(n, Pow2(k), h), EntryOf(n, j, h))
  {
    IndexBitsAdd(n, k, j);
    MulAdds(IndexBits(n, Pow2(k)), IndexBits(n, j), h);
  }

  ghost predicate EntryIs(e: Endian, u: Words, n: nat, j: nat, h: Element) {
    BitsOf(e, u) == EntryOf(n, j, h)
  }

  /** A complete key table: entry j is j times H, for all 2^n values of j. */
  ghost predicate IsKeyTable(e: Endian, n: nat, table: seq<Words>, h: Element) {
    && |table| == Pow2(n)
    && forall j :: 0 <= j < Pow2(n) ==> EntryIs(e, table[j], n, j, h)
  }

  lemma FirstEntries(e: Endian, n: nat, zero: Words, top: Words, h: Element)
    requires n > 0 && BitsOf(e, zero) == ZERO && BitsOf(e, top) == h
    ensures EntryIs(e, zero, n, 0, h) && EntryIs(e, top, n, Pow2(n - 1), h)
  {
    IndexBitsZero(n);
    MulFalses(n, h);
    EntryTop(n, h);
  }

  lemma HalfEntry(e: Endian, u: Words, n: nat, j: nat, h: Element)
    requires n > 0 && j < Pow2(n - 1) && EntryIs(e, u, n, 2 * j, h)
    ensures EntryIs(e, MulxGhash(e, u), n, j, h)
  {
    MulxGhashIsMulx(e, u);
    EntryHalf(n, j, h);
  }

  lemma SumEntry(e: Endian, u: Words, v: Words, n: nat, k: nat, j: nat, h: Element)
    requires j < Pow2(k) && EntryIs(e, u, n, Pow2(k), h) && EntryIs(e, v, n, j, h)
    ensures EntryIs(e, XorWords(u, v), n, Pow2(k) + j, h)
  {
    XorWordsAdds(e, u, v);
    EntrySum(n, k, j, h);
  }

  predicate IsPow2(i: nat) {
    i == 1 || (i > 0 && i % 2 == 0 && IsPow2(i / 2))
  }

  lemma {:induction false} Pow2IsPow2(n: nat)
    ensures IsPow2(Pow2(n))
  {
    if n > 0 {
      Pow2IsPow2(n - 1);
    }
  }

  lemma {:induction false} Exponent(i: nat) returns (k: nat)
    requires IsPow2(i)
    ensures i == Pow2(k)
  {
    if i == 1 {
      k := 0;
    } else {
      var m := Exponent(i / 2);
      k := m + 1;
    }
  }

  lemma {:induction false} NextPow2(i: nat, m: nat)
    requires IsPow2(i) && IsPow2(m) && i < m
    ensures 2 * i <= m
  {
    if i > 1 {
      NextPow2(i / 2, m / 2);
    }
  }

  // The two loops of _nettle_gcm_init_key_c need only this of an entry being right for its index:
  // halving an entry halves the index, and adding entries without a common bit adds the indices.
  ghost predicate HalvesIndex<T(!new)>(size: nat, half: T -> T, good: (T, nat) -> bool) {
    forall u: T, j: nat :: 2 * j < size && good(u, 2 * j) ==> good(half(u), j)
  }

  ghost predicate AddsIndices<T(!new)>(plus: (T, T) -> T, good: (T, nat) -> bool) {
    forall u: T, v: T, i: nat, j: nat :: IsPow2(i) && j < i && good(u, i) && good(v, j) ==> good(plus(u, v), i + j)
  }

  /** Entry 0, the entries below `i` and the entries for the powers of two from `p` on are in place. */
  ghost predicate Filled<T>(p: nat, i: nat, table: seq<T>, good: (T, nat) -> bool) {
    forall m: nat :: m < |table| && (m == 0 || m < i || (p <= m && IsPow2(m))) ==> good(table[m], m)
  }

  lemma FilledFrom<T>(p: nat, table: seq<T>, good: (T, nat) -> bool)
    requires IsPow2(p) && 2 * p <= |table| && Filled(2 * p, 0, table, good) && good(table[p], p)
    ensures Filled(p, 0, table, good)
  {
    forall m: nat | m < |table| && p < m && IsPow2(m) ensures 2 * p <= m {
      NextPow2(p, m);
    }
  }

  lemma FilledSet<T>(i: nat, table: seq<T>, u: T, good: (T, nat) -> bool)
    requires i < |table| && Filled(1, i, table, good) && good(u, i)
    ensures Filled(1, i + 1, table[i := u], good)
  {
  }

  /** The first loop of _nettle_gcm_init_key_c: the powers of two, by repeated halving of the index. */
  method InitPowers<T(!new)>(table: array<T>, half: T -> T, ghost good: (T, nat) -> bool)
    requires IsPow2(table.Length) && table.Length > 1
    requires good(table[0], 0) && good(table[table.Length / 2], table.Length / 2)
    requires HalvesIndex(table.Length, half, good)
    modifies table
    ensures Filled(1, 0, table[..], good)
  {
    var i: nat := table.Length / 2;
    ghost var p: nat := i;
    FilledFrom(p, table[..], good);
    i := i / 2;
    while i != 0
      invariant IsPow2(p) && 2 * p <= table.Length && i == p / 2
      invariant Filled(p, 0, table[..], good)
    {
      table[i] := half(table[2 * i]);
      FilledFrom(i, table[..], good);
      p := i;
      i := i / 2;
    }
  }

  /** The second loop: every other entry is the sum of two that come before it. */
  method InitSums<T(!new)>(table: array<T>, plus: (T, T) -> T, ghost good: (T, nat) -> bool)
    requires IsPow2(table.Length) && table.Length > 1
    requires Filled(1, 0, table[..], good) && AddsIndices(plus, good)
    modifies table
    ensures Filled(0, table.Length, table[..], good)
  {
    var i := 2;
    while i < table.Length
      invariant IsPow2(i) && i <= table.Length
      invariant Filled(1, i, table[..], good)
      decreases table.Length - i
    {
      NextPow2(i, table.Length);
      var j := 1;
      while j < i
        invariant 1 <= j <= i
        invariant Filled(1, i + j, table[..], good)
      {
        assert good(table[i], i) && good(table[j], j);
        ghost var before, sum := table[..], plus(table[i], table[j]);
        FilledSet(i + j, before, sum, good);
        table[i + j] := plus(table[i], table[j]);
        assert table[..] == before[i + j := sum];
        j := j + 1;
      }
      i := 2 * i;
    }
  }

  function Doubling(e: Endian): Words -> Words {
    u => MulxGhash(e, u)
  }

  ghost function Goodness(e: Endian, n: nat, h: Element): (Words, nat) -> bool {
    (u: Words, j: nat) => EntryIs(e, u, n, j, h)
  }

  lemma DoublingHalves(e: Endian, n: nat, h: Element)
    requires n > 0
    ensures HalvesIndex(Pow2(n), Doubling(e), Goodness(e, n, h))
  {
    forall u: Words, j: nat | 2 * j < Pow2(n) && EntryIs(e, u, n, 2 * j, h) ensures EntryIs(e, MulxGhash(e, u), n, j, h) {
      HalfEntry(e, u, n, j, h);
    }
  }

  lemma XorAdds(e: Endian, n: nat, h: Element)
    ensures AddsIndices(XorWords, Goodness(e, n, h))
  {
    forall u: Words, v: Words, i: nat, j: nat | IsPow2(i) && j < i && EntryIs(e, u, n, i, h) && EntryIs(e, v, n, j, h)
      ensures EntryIs(e, XorWords(u, v), n, i + j, h)
    {
      var k := Exponent(i);
      SumEntry(e, u, v, n, k, j, h);
    }
  }

  lemma FilledIsKeyTable(e: Endian, n: nat, table: seq<Words>, h: Element)
    requires |table| == Pow2(n) && Filled(0, |table|, table, Goodness(e, n, h))
    ensures IsKeyTable(e, n, table, h)
  {
    forall j: nat | j < Pow2(n) ensures EntryIs(e, table[j], n, j, h) {
      assert Goodness(e, n, h)(table[j], j);
    }
  }

  /** _nettle_gcm_init_key_c: the key table, from its zero entry and H in its middle entry. */
  method InitKey(e: Endian, n: nat, table: array<Words>, ghost h: Element)
    requires n > 0 && table.Length == Pow2(n)
    requires EntryIs(e, table[0], n, 0, h) && EntryIs(e, table[Pow2(n) / 2], n, Pow2(n) / 2, h)
    modifies table
    ensures IsKeyTable(e, n, table[..], h)
  {
    Pow2IsPow2(n);
    DoublingHalves(e, n, h);
    XorAdds(e, n, h);
    InitPowers(table, Doubling(e), Goodness(e, n, h));
    InitSums(table, XorWords, Goodness(e, n, h));
    FilledIsKeyTable(e, n, table[..], h);
  }

  lemma HalfByte(b: byte)
    ensures (b >> 1) as int == b as int / 2
    ensures Bit(b, 7) == (b as int % 2 == 1)
  {
  }

  lemma HalfByteBits(b: byte, h: byte)
    requires h == b >> 1
    ensures ByteBits(h) == [false] + ByteBits(b)[..7]
  {
    forall k | 0 <= k < 8 ensures Bit(h, k) == (k > 0 && Bit(b, k - 1)) {
      match k case 0 => case 1 => case 2 => case 3 => case 4 => case 5 => case 6 => case 7 =>
    }
  }

  /** The value of a byte as an index has the bits of the byte. */
  lemma {:induction false} ByteIndex(b: byte, n: nat)
    requires n <= 8
    ensures IndexBits(n, b as int) == ByteBits(b)[8 - n..]
    decreases n
  {
    if n > 0 {
      var h := b >> 1;
      HalfByte(b);
      HalfByteBits(b, h);
      ByteIndex(h, n - 1);
    }
  }

  /** Entry `b` of a key table is the product with H of the low `n` bits of `b`. */
  lemma TableEntry(e: Endian, n: nat, table: seq<Words>, h: Element, b: byte)
    requires n <= 8 && IsKeyTable(e, n, table, h) && b as int < |table|
    ensures BitsOf(e, table[b as int]) == Mul(ByteBits(b)[8 - n..], h)
  {
    assert EntryIs(e, table[b as int], n, b as int, h);
    ByteIndex(b, n);
  }

  ghost predicate ProductIs(e: Endian, z: Words, x: seq<bool>, h: Element) {
    BitsOf(e, z) == Mul(x, h)
  }

  lemma AddCommutes(p: Element, q: Element)
    ensures Add(p, q) == Add(q, p)
  {
  }

  /** Horner's rule: more bits in front cost a shift by as many places and one table entry. */
  lemma HornerStep(z: Element, a: seq<bool>, x: seq<bool>, h: Element)
    requires z == Mul(x, h)
    ensures Add(MulxN(z, |a|), Mul(a, h)) == Mul(a + x, h)
  {
    MulConcat(a, x, h);
    AddCommutes(MulxN(z, |a|), Mul(a, h));
  }

  lemma HornerByte(e: Endian, table: seq<Words>, z: Words, x: Block, i: nat, h: Element)
    requires IsKeyTable(e, 8, table, h) && |table| == 256 && i < 16
    requires ProductIs(e, z, Bits(x[i + 1..]), h)
    ensures Add(MulxN(BitsOf(e, z), 8), BitsOf(e, table[x[i] as int])) == Mul(Bits(x[i..]), h)
  {
    assert x[i..][1..] == x[i + 1..];
    TableEntry(e, 8, table, h, x[i]);
    assert ByteBits(x[i])[0..] == ByteBits(x[i]);
    HornerStep(BitsOf(e, z), ByteBits(x[i]), Bits(x[i + 1..]), h);
  }

  lemma FirstByte(e: Endian, table: seq<Words>, x: Block, h: Element)
    requires IsKeyTable(e, 8, table, h) && |table| == 256
    ensures ProductIs(e, table[x[15] as int], Bits(x[15..]), h)
  {
    TableEntry(e, 8, table, h, x[15]);
    assert ByteBits(x[15])[0..] == ByteBits(x[15]);
    assert x[15..][1..] == [];
    assert ByteBits(x[15]) + Bits([]) == ByteBits(x[15]);
  }

  lemma ProductBytes(e: Endian, z: Words, x: Block, h: Block)
    requires ProductIs(e, z, Bits(x[0..]), Bits(h))
    ensures BytesOf(e, z) == Dot(x, h)
  {
    assert x[0..] == x;
  }

  /** gcm_gf_mul for GCM_TABLE_BITS 8. */
  method GfMul8(e: Endian, t: byte -> bv16, x: Block, table: seq<Words>, ghost h: Block) returns (r: Block)
    requires IsShiftTable(t, 8) && |table| == 256 && IsKeyTable(e, 8, table, Bits(h))
    ensures r == Dot(x, h)
  {
    var z := table[x[15] as int];
    FirstByte(e, table, x, Bits(h));
    var i := 14;
    ghost var k := 15;
    while i > 0
      invariant 0 <= i <= 14 && k == i + 1
      invariant ProductIs(e, z, Bits(x[k..]), Bits(h))
    {
      z := ShiftAndAdd8(e, t, z, table, x, i, k, h);
      i, k := i - 1, i;
    }
    z := ShiftAndAdd8(e, t, z, table, x, 0, 1, h);
    r := BytesOf(e, z);
    ProductBytes(e, z, x, h);
  }

  /** One more byte, from the right: `z` is the product with the bytes from `k` on. */
  method ShiftAndAdd8(e: Endian, t: byte -> bv16, z0: Words, table: seq<Words>, x: Block, i: nat, ghost k: nat, ghost h: Block) returns (z: Words)
    requires IsShiftTable(t, 8) && |table| == 256 && IsKeyTable(e, 8, table, Bits(h)) && i < 16 && k == i + 1
    requires ProductIs(e, z0, Bits(x[k..]), Bits(h))
    ensures ProductIs(e, z, Bits(x[i..]), Bits(h))
  {
    HornerByte(e, table, z0, x, i, Bits(h));
    z := GfShift8(e, t, z0);
    z := Block16Xor(e, z, table[x[i] as int]);
  }

  function ZeroWords(): Words {
    Words(Falses(64), Falses(64))
  }

  lemma ZeroWordsZero(e: Endian)
    ensures BitsOf(e, ZeroWords()) == ZERO
  {
  }

  lemma Nibbles(b: byte, hi: byte, lo: byte)
    requires hi == b >> 4 && lo == b & 0xf
    ensures ByteBits(hi)[4..] == ByteBits(b)[..4] && ByteBits(lo)[4..] == ByteBits(b)[4..]
    ensures hi as int < 16 && lo as int < 16
  {
    NibbleBound(hi);
    NibbleBound(lo);
    NibbleAt(b, hi, lo, 0);
    NibbleAt(b, hi, lo, 1);
    NibbleAt(b, hi, lo, 2);
    NibbleAt(b, hi, lo, 3);
    DropEqual(ByteBits(hi), ByteBits(b)[..4]);
    DropEqual(ByteBits(lo), ByteBits(b)[4..]);
  }

  lemma DropEqual<T>(s: seq<T>, t: seq<T>)
    requires |s| == 8 && |t| == 4 && s[4] == t[0] && s[5] == t[1] && s[6] == t[2] && s[7] == t[3]
    ensures s[4..] == t
  {
  }

  lemma NibbleAt(b: byte, hi: byte, lo: byte, j: nat)
    requires hi == b >> 4 && lo == b & 0xf && j < 4
    ensures Bit(hi, j + 4) == Bit(b, j) && Bit(lo, j + 4) == Bit(b, j + 4)
  {
    match j case 0 => case 1 => case 2 => case 3 =>
  }

  lemma NibbleBound(n: byte)
    requires n <= 0xf
    ensures n as int < 16
  {
  }

  lemma HornerNibble(e: Endian, table: seq<Words>, z: Words, n: byte, x: seq<bool>, h: Element)
    requires IsKeyTable(e, 4, table, h) && |table| == 16 && n as int < 16
    requires ProductIs(e, z, x, h)
    ensures Add(MulxN(BitsOf(e, z), 4), BitsOf(e, table[n as int])) == Mul(ByteBits(n)[4..] + x, h)
  {
    TableEntry(e, 4, table, h, n);
    HornerStep(BitsOf(e, z), ByteBits(n)[4..], x, h);
  }

  lemma NibblesBits(x: Block, i: nat, hi: byte, lo: byte)
    requires i < 16 && hi == x[i] >> 4 && lo == x[i] & 0xf
    ensures ByteBits(hi)[4..] + (ByteBits(lo)[4..] + Bits(x[i + 1..])) == Bits(x[i..])
    ensures hi as int < 16 && lo as int < 16
  {
    Nibbles(x[i], hi, lo);
    assert x[i..][1..] == x[i + 1..];
    assert ByteBits(x[i])[..4] + (ByteBits(x[i])[4..] + Bits(x[i + 1..])) == ByteBits(x[i]) + Bits(x[i + 1..]);
  }

  /** gcm_gf_mul for GCM_TABLE_BITS 4. */
  method GfMul4(e: Endian, t: byte -> bv16, x: Block, table: seq<Words>, ghost h: Block) returns (r: Block)
    requires IsShiftTable(t, 4) && |table| == 16 && IsKeyTable(e, 4, table, Bits(h))
    ensures r == Dot(x, h)
  {
    var z := ZeroWords();
    ZeroWordsZero(e);
    var i := 16;
    while i > 0
      invariant 0 <= i <= 16
      invariant ProductIs(e, z, Bits(x[i..]), Bits(h))
    {
      i := i - 1;
      var lo, hi := x[i] & 0xf, x[i] >> 4;
      NibblesBits(x, i, hi, lo);
      HornerNibble(e, table, z, lo, Bits(x[i + 1..]), Bits(h));
      z := GfShift4(e, t, z);
      z := Block16Xor(e, z, table[lo as int]);
      HornerNibble(e, table, z, hi, ByteBits(lo)[4..] + Bits(x[i + 1..]), Bits(h));
      z := GfShift4(e, t, z);
      z := Block16Xor(e, z, table[hi as int]);
    }
    r := BytesOf(e, z);
    ProductBytes(e, z, x, h);
  }

  lemma DoubledByteBits(b: byte, d: byte)
    requires d == b << 1
    ensures ByteBits(d) == ByteBits(b)[1..] + [false]
    ensures ByteBits(b)[0] == (b & 0x80 != 0)
  {
    forall k | 0 <= k < 8 ensures Bit(d, k) == (k < 7 && Bit(b, k + 1)) {
      match k case 0 => case 1 => case 2 => case 3 => case 4 => case 5 => case 6 => case 7 =>
    }
  }

  /** What the bitwise loop keeps: the sum so far, plus the bits not yet seen times the current V. */
  ghost predicate Remaining(e: Endian, z: Words, v: Words, bits: seq<bool>, total: Element) {
    total == Add(BitsOf(e, z), Mul(bits, BitsOf(e, v)))
  }

  lemma RemainingStep(z: Element, v: Element, bits: seq<bool>)
    requires bits != []
    ensures Add(z, Mul(bits, v)) == Add(if bits[0] then Add(z, v) else z, Mul(bits[1..], Mulx(v)))
  {
    AddAssociates(z, v, Mul(bits[1..], Mulx(v)));
    AddZero(Mul(bits[1..], Mulx(v)));
  }

  lemma AddAssociates(p: Element, q: Element, r: Element)
    ensures Add(Add(p, q), r) == Add(p, Add(q, r))
  {
  }

  lemma RemainingBits(b: byte, left: nat, rest: seq<bool>)
    requires 0 < left <= 8
    ensures var bits := ByteBits(b)[..left] + rest;
            bits[0] == (b & 0x80 != 0) && bits[1..] == ByteBits(b << 1)[..left - 1] + rest
  {
    DoubledByteBits(b, b << 1);
  }

  lemma RemainingEnds(e: Endian, z: Words, v: Words, bits: seq<bool>, total: Element)
    ensures total == Mul(bits, BitsOf(e, v)) ==> Remaining(e, ZeroWords(), v, bits, total)
    ensures Remaining(e, z, v, [], total) ==> BitsOf(e, z) == total
  {
    ZeroWordsZero(e);
    AddZero(Mul(bits, BitsOf(e, v)));
    AddZero(BitsOf(e, z));
  }

  /** gcm_gf_mul for GCM_TABLE_BITS 0. It multiplies by the bits of H, the factor the standard keeps
      whole, so that it is right only because the product is commutative. */
  method GfMul0(e: Endian, x: Words, y: Block) returns (z: Words)
    ensures BytesOf(e, z) == Dot(BytesOf(e, x), y)
  {
    var v := x;
    z := ZeroWords();
    ghost var total := Mul(Bits(y), BitsOf(e, x));
    RemainingEnds(e, z, x, Bits(y), total);
    assert y[0..] == y;
    var i := 0;
    while i < 16
      invariant 0 <= i <= 16
      invariant Remaining(e, z, v, Bits(y[i..]), total)
    {
      z, v := GfMulByte(e, z, v, y[i], Bits(y[i + 1..]), total);
      i := i + 1;
    }
    RemainingEnds(e, z, v, [], total);
    CommutedProduct(e, x, y, z);
  }

  /** The inner loop of gcm_gf_mul for GCM_TABLE_BITS 0, over the bits of one byte. */
  method GfMulByte(e: Endian, z0: Words, v0: Words, b0: byte, ghost rest: seq<bool>, ghost total: Element)
    returns (z: Words, v: Words)
    requires Remaining(e, z0, v0, ByteBits(b0) + rest, total)
    ensures Remaining(e, z, v, rest, total)
  {
    z, v := z0, v0;
    var b, j := b0, 0;
    ghost var left := 8;
    assert ByteBits(b)[..8] == ByteBits(b);
    while j < 8
      invariant 0 <= j <= 8 && left == 8 - j
      invariant Remaining(e, z, v, ByteBits(b)[..left] + rest, total)
    {
      z, v := GfMulBit(e, z, v, b, left, rest, total);
      j, b, left := j + 1, b << 1, left - 1;
    }
    assert ByteBits(b)[..0] + rest == rest;
  }

  /** The body of that loop, with `left` bits of the byte to come. */
  method GfMulBit(e: Endian, z0: Words, v0: Words, b: byte, ghost left: nat, ghost rest: seq<bool>, ghost total: Element) returns (z: Words, v: Words)
    requires 0 < left <= 8 && Remaining(e, z0, v0, ByteBits(b)[..left] + rest, total)
    ensures Remaining(e, z, v, ByteBits(b << 1)[..left - 1] + rest, total)
  {
    RemainingStep(BitsOf(e, z0), BitsOf(e, v0), ByteBits(b)[..left] + rest);
    RemainingBits(b, left, rest);
    z := z0;
    if b & 0x80 != 0 {
      z := Block16Xor(e, z, v0);
    }
    v := Block16MulxGhash(e, v0);
  }

  lemma CommutedProduct(e: Endian, x: Words, y: Block, z: Words)
    requires BitsOf(e, z) == Mul(Bits(y), BitsOf(e, x))
    ensures BytesOf(e, z) == Dot(BytesOf(e, x), y)
  {
    BytesOfBits(e, x);
    MulCommutes(Bits(y), BitsOf(e, x));
  }
}
