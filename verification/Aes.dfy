/** aes-internal.h, aes-encrypt-internal.c and aes-set-key-internal.c: the cipher with T-tables, and the key
    expansion. A uint32_t is its four bytes, least significant first; the lemmas on bv32 show that the
    word operations of the C code are the byte-wise ones used here. */
module Aes {
  import opened Bytes
  import opened AesTable
  import opened AesSpec
  import opened MemXor
  import opened Ctr16

  /** A byte of a word, counted from the least significant one: the macros B0 to B3. */
  function B(x: bv32, i: nat): byte
    requires i < 4
  {
    match i
    case 0 => (x & 0xff) as byte
    case 1 => ((x >> 8) & 0xff) as byte
    case 2 => ((x >> 16) & 0xff) as byte
    case 3 => ((x >> 24) & 0xff) as byte
  }

  /** The bytes of a word, as LE_WRITE_UINT32 stores them. */
  function LeBytes(x: bv32): Word32 {
    seq(4, i requires 0 <= i < 4 => B(x, i))
  }

  lemma XorByte(x: bv32, y: bv32, i: nat)
    requires i < 4
    ensures B(x ^ y, i) == B(x, i) ^ B(y, i)
  {
    var z := x ^ y;
    match i case 0 => case 1 => case 2 => case 3 =>
  }

  lemma LeBytesXor(x: bv32, y: bv32)
    ensures LeBytes(x ^ y) == Xor(LeBytes(x), LeBytes(y))
  {
    forall i | 0 <= i < 4 ensures LeBytes(x ^ y)[i] == LeBytes(x)[i] ^ LeBytes(y)[i] {
      XorByte(x, y, i);
    }
  }

  /** Bytes shifted into place and combined with `|`: LE_READ_UINT32, SUBBYTE and AES_FINAL_ROUND. */
  lemma LeBytesWord(b0: byte, b1: byte, b2: byte, b3: byte)
    ensures LeBytes(Word(b0, b1, b2, b3)) == [b0, b1, b2, b3]
  {
    var x := Word(b0, b1, b2, b3);
    assert B(x, 0) == b0 && B(x, 1) == b1 && B(x, 2) == b2 && B(x, 3) == b3;
  }

  lemma RotatedByte(x: bv32, y: bv32, i: nat)
    requires y == (x << 24) | (x >> 8) && i < 4
    ensures B(y, i) == B(x, (i + 1) % 4)
  {
    match i case 0 => case 1 => case 2 => case 3 =>
  }

  /** A rotation to the left by 24 bits is RotWord. */
  lemma LeBytesRotated(x: bv32)
    ensures LeBytes((x << 24) | (x >> 8)) == RotWord(LeBytes(x))
  {
    var y := (x << 24) | (x >> 8);
    forall i | 0 <= i < 4 ensures B(y, i) == B(x, (i + 1) % 4) {
      RotatedByte(x, y, i);
    }
  }

  /** struct aes_table. */
  datatype Tables = Tables(sbox: byte -> byte, t0: byte -> Word32, t1: byte -> Word32, t2: byte -> Word32, t3: byte -> Word32)

  predicate TableAt(t: Tables, b: byte) {
    var s := t.sbox(b);
    var d, e := Product(s, 2), Product(s, 3);
    t.t0(b) == [d, s, s, e] && t.t1(b) == [e, d, s, s] && t.t2(b) == [s, e, d, s] && t.t3(b) == [s, s, e, d]
  }

  /** Table 0 holds the columns (2s, s, s, 3s), and each other table the one before it, rotated by a byte. */
  ghost predicate IsEncryptTable(t: Tables) {
    forall b: byte :: TableAt(t, b)
  }

  function Entries(table: byte -> bv32): byte -> Word32 {
    b => LeBytes(table(b))
  }

  /** _nettle_aes_encrypt_table */
  function EncryptTables(): Tables {
    Tables(Sbox, Entries(Table0), Entries(Table1), Entries(Table2), Entries(Table3))
  }

  lemma SmallProducts(s: byte)
    ensures Product(s, 2) == Xtime(s) && Product(s, 3) == Xtime(s) ^ s
  {
  }

  lemma EntriesAt(t: Tables, b: byte, x0: bv32, x1: bv32, x2: bv32, x3: bv32, s: byte, d: byte, e: byte)
    requires t.sbox(b) == s && d == Product(s, 2) && e == Product(s, 3)
    requires t.t0(b) == LeBytes(x0) && t.t1(b) == LeBytes(x1) && t.t2(b) == LeBytes(x2) && t.t3(b) == LeBytes(x3)
    requires x0 == Word(d, s, s, e) && x1 == Word(e, d, s, s) && x2 == Word(s, e, d, s) && x3 == Word(s, s, e, d)
    ensures TableAt(t, b)
  {
    LeBytesWord(d, s, s, e);
    LeBytesWord(e, d, s, s);
    LeBytesWord(s, e, d, s);
    LeBytesWord(s, s, e, d);
  }

  /** The literals of the source are such tables. */
  lemma EncryptTablesAre()
    ensures IsEncryptTable(EncryptTables())
  {
    forall b: byte ensures TableAt(EncryptTables(), b) {
      Table0Is(b);
      Table1Is(b);
      Table2Is(b);
      Table3Is(b);
      SmallProducts(Sbox(b));
      EntriesAt(EncryptTables(), b, Table0(b), Table1(b), Table2(b), Table3(b), Sbox(b), Product(Sbox(b), 2), Product(Sbox(b), 3));
    }
  }

  /** AES_ROUND */
  function AesRound(t: Tables, w0: Word32, w1: Word32, w2: Word32, w3: Word32, k: Word32): Word32 {
    Xor(Xor(Xor(Xor(t.t0(w0[0]), t.t1(w1[1])), t.t2(w2[2])), t.t3(w3[3])), k)
  }

  /** The argument of AES_FINAL_ROUND, before the subkey. */
  function Selected(sbox: byte -> byte, w0: Word32, w1: Word32, w2: Word32, w3: Word32): Word32 {
    [sbox(w0[0]), sbox(w1[1]), sbox(w2[2]), sbox(w3[3])]
  }

  /** AES_FINAL_ROUND */
  function AesFinalRound(t: Tables, w0: Word32, w1: Word32, w2: Word32, w3: Word32, k: Word32): Word32 {
    Xor(Selected(t.sbox, w0, w1, w2, w3), k)
  }

  lemma XorFourAt(p: seq<byte>, q: seq<byte>, r: seq<byte>, s: seq<byte>, i: nat)
    requires |p| == |q| == |r| == |s| == 4 && i < 4
    ensures Xor(Xor(Xor(p, q), r), s)[i] == p[i] ^ q[i] ^ r[i] ^ s[i]
  {
  }

  lemma SumIs(p: seq<byte>, q: seq<byte>, r: seq<byte>, s: seq<byte>, m: seq<byte>)
    requires |p| == |q| == |r| == |s| == |m| == 4
    requires forall i: nat :: i < 4 ==> p[i] ^ q[i] ^ r[i] ^ s[i] == m[i]
    ensures Xor(Xor(Xor(p, q), r), s) == m
  {
    forall i | 0 <= i < 4 ensures Xor(Xor(Xor(p, q), r), s)[i] == m[i] {
      XorFourAt(p, q, r, s, i);
    }
  }

  /** Row `i` of the mixed column, from the columns that are added. */
  lemma MixedRow(a: seq<byte>, d: seq<byte>, e: seq<byte>, i: nat, p: seq<byte>, q: seq<byte>, r: seq<byte>, s: seq<byte>)
    requires |a| == |d| == |e| == 4 && i < 4
    requires p == [d[0], a[0], a[0], e[0]] && q == [e[1], d[1], a[1], a[1]] && r == [a[2], e[2], d[2], a[2]] && s == [a[3], a[3], e[3], d[3]]
    ensures p[i] ^ q[i] ^ r[i] ^ s[i] == Mixed(a, d, e)[i]
  {
    match i case 0 => case 1 => case 2 => case 3 =>
  }

  lemma MixedIsSum(a: seq<byte>, d: seq<byte>, e: seq<byte>)
    requires |a| == |d| == |e| == 4
    ensures Xor(Xor(Xor([d[0], a[0], a[0], e[0]], [e[1], d[1], a[1], a[1]]), [a[2], e[2], d[2], a[2]]), [a[3], a[3], e[3], d[3]]) == Mixed(a, d, e)
  {
    var p, q, r, s := [d[0], a[0], a[0], e[0]], [e[1], d[1], a[1], a[1]], [a[2], e[2], d[2], a[2]], [a[3], a[3], e[3], d[3]];
    forall i: nat | i < 4 ensures p[i] ^ q[i] ^ r[i] ^ s[i] == Mixed(a, d, e)[i] {
      MixedRow(a, d, e, i, p, q, r, s);
    }
    SumIs(p, q, r, s, Mixed(a, d, e));
  }

  lemma EntriesMix(t: Tables, a: Word32, d: seq<byte>, e: seq<byte>, b0: byte, b1: byte, b2: byte, b3: byte)
    requires |d| == |e| == 4
    requires t.t0(b0) == [d[0], a[0], a[0], e[0]] && t.t1(b1) == [e[1], d[1], a[1], a[1]]
    requires t.t2(b2) == [a[2], e[2], d[2], a[2]] && t.t3(b3) == [a[3], a[3], e[3], d[3]]
    ensures Xor(Xor(Xor(t.t0(b0), t.t1(b1)), t.t2(b2)), t.t3(b3)) == Mixed(a, d, e)
  {
    MixedIsSum(a, d, e);
  }

  /** AES_ROUND is the mixed column of S-box values, exclusive or the subkey. */
  lemma RoundIsMixed(t: Tables, w0: Word32, w1: Word32, w2: Word32, w3: Word32, k: Word32)
    requires IsEncryptTable(t)
    ensures AesRound(t, w0, w1, w2, w3, k) == Xor(MixColumn(Selected(t.sbox, w0, w1, w2, w3)), k)
  {
    var a := Selected(t.sbox, w0, w1, w2, w3);
    var d, e := Times(2, a), Times(3, a);
    assert TableAt(t, w0[0]) && TableAt(t, w1[1]) && TableAt(t, w2[2]) && TableAt(t, w3[3]);
    EntriesMix(t, a, d, e, w0[0], w1[1], w2[2], w3[3]);
  }

  lemma ShiftedBytes(s: Block)
    ensures ShiftRows(s) == [s[0], s[5], s[10], s[15], s[4], s[9], s[14], s[3], s[8], s[13], s[2], s[7], s[12], s[1], s[6], s[11]]
  {
  }

  lemma SubbedColumns(sbox: byte -> byte, w0: Word32, w1: Word32, w2: Word32, w3: Word32)
    ensures SubBytes(sbox, Columns(w0, w1, w2, w3))
         == Columns(SubBytes(sbox, w0), SubBytes(sbox, w1), SubBytes(sbox, w2), SubBytes(sbox, w3))
  {
  }

  lemma ShiftedWords(a: Word32, b: Word32, c: Word32, d: Word32)
    ensures ShiftRows(Columns(a, b, c, d))
         == Columns([a[0], b[1], c[2], d[3]], [b[0], c[1], d[2], a[3]], [c[0], d[1], a[2], b[3]], [d[0], a[1], b[2], c[3]])
  {
    ShiftedBytes(Columns(a, b, c, d));
  }

  /** Choosing byte r of a word from column c + r is shifting the rows. */
  lemma ShiftedColumns(sbox: byte -> byte, w0: Word32, w1: Word32, w2: Word32, w3: Word32)
    ensures ShiftRows(SubBytes(sbox, Columns(w0, w1, w2, w3)))
         == Columns(Selected(sbox, w0, w1, w2, w3), Selected(sbox, w1, w2, w3, w0),
                    Selected(sbox, w2, w3, w0, w1), Selected(sbox, w3, w0, w1, w2))
  {
    SubbedColumns(sbox, w0, w1, w2, w3);
    ShiftedWords(SubBytes(sbox, w0), SubBytes(sbox, w1), SubBytes(sbox, w2), SubBytes(sbox, w3));
  }

  lemma XorColumns(a0: Word32, a1: Word32, a2: Word32, a3: Word32, k0: Word32, k1: Word32, k2: Word32, k3: Word32)
    ensures Xor(Columns(a0, a1, a2, a3), Columns(k0, k1, k2, k3)) == Columns(Xor(a0, k0), Xor(a1, k1), Xor(a2, k2), Xor(a3, k3))
  {
    XorConcat(a0, a1, k0, k1);
    XorConcat(a0 + a1, a2, k0 + k1, k2);
    XorConcat(a0 + a1 + a2, a3, k0 + k1 + k2, k3);
  }

  lemma ColumnSlices(a0: Word32, a1: Word32, a2: Word32, a3: Word32)
    ensures var s := Columns(a0, a1, a2, a3); s[..4] == a0 && s[4..8] == a1 && s[8..12] == a2 && s[12..] == a3
  {
  }

  lemma MixedColumns(a0: Word32, a1: Word32, a2: Word32, a3: Word32)
    ensures MixColumns(Columns(a0, a1, a2, a3)) == Columns(MixColumn(a0), MixColumn(a1), MixColumn(a2), MixColumn(a3))
  {
    ColumnSlices(a0, a1, a2, a3);
  }

  /** The four AES_ROUND of an iteration are a round of the standard. */
  lemma RoundIs(t: Tables, w0: Word32, w1: Word32, w2: Word32, w3: Word32, k0: Word32, k1: Word32, k2: Word32, k3: Word32)
    requires IsEncryptTable(t)
    ensures Columns(AesRound(t, w0, w1, w2, w3, k0), AesRound(t, w1, w2, w3, w0, k1), AesRound(t, w2, w3, w0, w1, k2), AesRound(t, w3, w0, w1, w2, k3))
         == Round(t.sbox, Columns(w0, w1, w2, w3), Columns(k0, k1, k2, k3))
  {
    RoundIsMixed(t, w0, w1, w2, w3, k0);
    RoundIsMixed(t, w1, w2, w3, w0, k1);
    RoundIsMixed(t, w2, w3, w0, w1, k2);
    RoundIsMixed(t, w3, w0, w1, w2, k3);
    ShiftedColumns(t.sbox, w0, w1, w2, w3);
    var a0, a1, a2, a3 := Selected(t.sbox, w0, w1, w2, w3), Selected(t.sbox, w1, w2, w3, w0),
                          Selected(t.sbox, w2, w3, w0, w1), Selected(t.sbox, w3, w0, w1, w2);
    MixedColumns(a0, a1, a2, a3);
    XorColumns(MixColumn(a0), MixColumn(a1), MixColumn(a2), MixColumn(a3), k0, k1, k2, k3);
  }

  lemma FinalRoundIs(t: Tables, w0: Word32, w1: Word32, w2: Word32, w3: Word32, k0: Word32, k1: Word32, k2: Word32, k3: Word32)
    ensures Columns(AesFinalRound(t, w0, w1, w2, w3, k0), AesFinalRound(t, w1, w2, w3, w0, k1), AesFinalRound(t, w2, w3, w0, w1, k2), AesFinalRound(t, w3, w0, w1, w2, k3))
         == Xor(ShiftRows(SubBytes(t.sbox, Columns(w0, w1, w2, w3))), Columns(k0, k1, k2, k3))
  {
    ShiftedColumns(t.sbox, w0, w1, w2, w3);
    XorColumns(Selected(t.sbox, w0, w1, w2, w3), Selected(t.sbox, w1, w2, w3, w0),
               Selected(t.sbox, w2, w3, w0, w1), Selected(t.sbox, w3, w0, w1, w2), k0, k1, k2, k3);
  }

  lemma InputColumns(s: Block)
    ensures Columns(s[..4], s[4..8], s[8..12], s[12..]) == s
  {
  }

  /** The body of the round loop. */
  method EncryptRound(t: Tables, keys: seq<Word32>, i: nat, w0: Word32, w1: Word32, w2: Word32, w3: Word32, ghost s: Block)
    returns (t0: Word32, t1: Word32, t2: Word32, t3: Word32)
    requires IsEncryptTable(t) && 0 < i && 4 * i + 4 <= |keys| && Columns(w0, w1, w2, w3) == Rounds(t.sbox, keys, s, i - 1)
    ensures Columns(t0, t1, t2, t3) == Rounds(t.sbox, keys, s, i)
  {
    RoundIs(t, w0, w1, w2, w3, keys[4 * i], keys[4 * i + 1], keys[4 * i + 2], keys[4 * i + 3]);
    t0 := AesRound(t, w0, w1, w2, w3, keys[4 * i]);
    t1 := AesRound(t, w1, w2, w3, w0, keys[4 * i + 1]);
    t2 := AesRound(t, w2, w3, w0, w1, keys[4 * i + 2]);
    t3 := AesRound(t, w3, w0, w1, w2, keys[4 * i + 3]);
  }

  lemma SameRounds(sbox: byte -> byte, keys: seq<Word32>, s: Block, n: nat, m: nat)
    requires n == m && 4 * n + 4 <= |keys|
    ensures Rounds(sbox, keys, s, n) == Rounds(sbox, keys, s, m)
  {
  }

  /** The round loop. */
  method EncryptRounds(t: Tables, rounds: nat, keys: seq<Word32>, v0: Word32, v1: Word32, v2: Word32, v3: Word32, ghost s: Block)
    returns (w0: Word32, w1: Word32, w2: Word32, w3: Word32)
    requires IsEncryptTable(t) && rounds > 0 && 4 * rounds + 4 <= |keys|
    requires Columns(v0, v1, v2, v3) == Rounds(t.sbox, keys, s, 0)
    ensures Columns(w0, w1, w2, w3) == Rounds(t.sbox, keys, s, rounds - 1)
  {
    w0, w1, w2, w3 := v0, v1, v2, v3;
    var i := 1;
    ghost var n := 0;
    while i < rounds
      invariant i == n + 1 <= rounds
      invariant Columns(w0, w1, w2, w3) == Rounds(t.sbox, keys, s, n)
    {
      w0, w1, w2, w3 := EncryptRound(t, keys, i, w0, w1, w2, w3, s);
      i, n := i + 1, i;
    }
    SameRounds(t.sbox, keys, s, n, rounds - 1);
  }

  /** The last round, with its round key. */
  method EncryptLast(t: Tables, w0: Word32, w1: Word32, w2: Word32, w3: Word32, k0: Word32, k1: Word32, k2: Word32, k3: Word32) returns (dst: Block)
    ensures dst == Xor(ShiftRows(SubBytes(t.sbox, Columns(w0, w1, w2, w3))), Columns(k0, k1, k2, k3))
  {
    FinalRoundIs(t, w0, w1, w2, w3, k0, k1, k2, k3);
    var t0 := AesFinalRound(t, w0, w1, w2, w3, k0);
    var t1 := AesFinalRound(t, w1, w2, w3, w0, k1);
    var t2 := AesFinalRound(t, w2, w3, w0, w1, k2);
    var t3 := AesFinalRound(t, w3, w0, w1, w2, k3);
    dst := Columns(t0, t1, t2, t3);
  }

  lemma FirstKey(sbox: byte -> byte, keys: seq<Word32>, s: Block)
    requires 4 <= |keys|
    ensures Columns(Xor(s[..4], keys[0]), Xor(s[4..8], keys[1]), Xor(s[8..12], keys[2]), Xor(s[12..], keys[3])) == Rounds(sbox, keys, s, 0)
  {
    InputColumns(s);
    XorColumns(s[..4], s[4..8], s[8..12], s[12..], keys[0], keys[1], keys[2], keys[3]);
  }

  /** The body of the block loop of _nettle_aes_encrypt. */
  method EncryptBlock(t: Tables, rounds: nat, keys: seq<Word32>, src: Block) returns (dst: Block)
    requires IsEncryptTable(t) && rounds > 0 && 4 * rounds + 4 <= |keys|
    ensures dst == Cipher(t.sbox, rounds, keys, src)
  {
    FirstKey(t.sbox, keys, src);
    var w0, w1, w2, w3 := EncryptRounds(t, rounds, keys, Xor(src[..4], keys[0]), Xor(src[4..8], keys[1]), Xor(src[8..12], keys[2]), Xor(src[12..], keys[3]), src);
    dst := EncryptLast(t, w0, w1, w2, w3, keys[4 * rounds], keys[4 * rounds + 1], keys[4 * rounds + 2], keys[4 * rounds + 3]);
  }

  /** The cipher as a function of the block. */
  function CipherWith(sbox: byte -> byte, nr: nat, w: seq<Word32>): Block -> Block
    requires nr > 0 && 4 * nr + 4 <= |w|
  {
    (b: Block) => Cipher(sbox, nr, w, b)
  }

  method EncryptWith(t: Tables, rounds: nat, keys: seq<Word32>, src: Block) returns (dst: Block)
    requires IsEncryptTable(t) && rounds > 0 && 4 * rounds + 4 <= |keys|
    ensures dst == CipherWith(t.sbox, rounds, keys)(src)
  {
    dst := EncryptBlock(t, rounds, keys, src);
  }

  lemma SliceFront<T>(s: seq<T>, t: seq<T>, i: nat, j: nat)
    requires i <= j <= |s|
    ensures (s + t)[i..j] == s[i..j]
  {
  }

  lemma {:induction false} EcbAt(f: Block -> Block, s: seq<byte>, n: nat, i: nat)
    requires |s| == 16 * n && i < n
    ensures Ecb(f, s, n)[16 * i..16 * i + 16] == f(s[16 * i..16 * i + 16])
  {
    if i < n - 1 {
      var init, last := s[..16 * (n - 1)], s[16 * (n - 1)..];
      EcbAt(f, init, n - 1, i);
      SliceFront(init, last, 16 * i, 16 * i + 16);
      assert init + last == s;
      SliceFront(Ecb(f, init, n - 1), f(last), 16 * i, 16 * i + 16);
    } else {
      assert s[16 * (n - 1)..] == s[16 * i..16 * i + 16];
    }
  }

  /** One turn of FOR_BLOCKS, `i` bytes into the data. */
  method EncryptAt(t: Tables, rounds: nat, keys: seq<Word32>, i: nat, dst: Ptr, src: Ptr,
                   ghost was: seq<byte>, ghost data: seq<byte>, ghost out: seq<byte>)
    requires IsEncryptTable(t) && rounds > 0 && 4 * rounds + 4 <= |keys|
    requires |out| == |data| && i + 16 <= |data| && dst.at + |data| <= dst.mem.Length
    requires Source(src, dst, was, data) && Written(dst.mem[..], was, dst.at, out, i)
    requires out[i..i + 16] == CipherWith(t.sbox, rounds, keys)(data[i..i + 16])
    modifies dst.mem
    ensures Source(src, dst, was, data) && Written(dst.mem[..], was, dst.at, out, i + 16)
  {
    var b := ReadNext(dst, src, i, 16, was, data, out);
    b := EncryptWith(t, rounds, keys, b);
    WriteNext(dst, src, i, b, 16, was, data, out);
  }

  /** FOR_BLOCKS: `data` is the source, and `out` what the destination is to hold. */
  method EncryptBlocks(t: Tables, rounds: nat, keys: seq<Word32>, length: nat, dst: Ptr, src: Ptr,
                       ghost was: seq<byte>, ghost data: seq<byte>, ghost out: seq<byte>)
    requires IsEncryptTable(t) && rounds > 0 && 4 * rounds + 4 <= |keys| && length % 16 == 0
    requires |out| == |data| == length && dst.at + length <= dst.mem.Length
    requires out == Ecb(CipherWith(t.sbox, rounds, keys), data, length / 16)
    requires Source(src, dst, was, data) && Written(dst.mem[..], was, dst.at, out, 0)
    modifies dst.mem
    ensures Written(dst.mem[..], was, dst.at, out, length)
  {
    var i := 0;
    ghost var m := 0;
    while i < length
      invariant i == 16 * m <= length && m <= length / 16
      invariant Source(src, dst, was, data) && Written(dst.mem[..], was, dst.at, out, i)
    {
      EcbAt(CipherWith(t.sbox, rounds, keys), data, length / 16, m);
      EncryptAt(t, rounds, keys, i, dst, src, was, data, out);
      i, m := i + 16, m + 1;
    }
    assert i == length;
  }

  /** _nettle_aes_encrypt: every block through the cipher of the standard, in place or not. */
  method AesEncrypt(t: Tables, rounds: nat, keys: seq<Word32>, length: nat, dst: Ptr, src: Ptr)
    requires IsEncryptTable(t) && rounds > 0 && 4 * rounds + 4 <= |keys| && length % 16 == 0
    requires dst.at + length <= dst.mem.Length && src.at + length <= src.mem.Length && (src.mem == dst.mem ==> src == dst)
    modifies dst.mem
    ensures dst.mem[..] == Splice(old(dst.mem[..]), dst.at,
                                  Ecb(CipherWith(t.sbox, rounds, keys), old(src.mem[..])[src.at..src.at + length], length / 16))
  {
    ghost var was, data := dst.mem[..], src.mem[..][src.at..src.at + length];
    ghost var out := Ecb(CipherWith(t.sbox, rounds, keys), data, length / 16);
    WrittenEnds(was, dst.at, out);
    EncryptBlocks(t, rounds, keys, length, dst, src, was, data, out);
    assert Written(dst.mem[..], was, dst.at, out, |out|);
  }
}
