/** The example of appendix C.1 of FIPS 197, round key by round key and round by round: the code of the model yields its
    ciphertext. This fixes the order of all the steps of the cipher and of the key expansion. */
module AesVector {
  import opened Bytes
  import opened AesTable
  import opened AesSpec
  import opened Aes
  import opened AesKey
  import opened AesGcm

  /** A state or a round key, by its columns. */
  datatype Cols = Cols(c0: Word32, c1: Word32, c2: Word32, c3: Word32) {
    function Flat(): Block {
      Columns(c0, c1, c2, c3)
    }
  }

  // One round key from the one before, byte by byte.

  function Add(a: byte, b: byte): byte {
    a ^ b
  }

  predicate FirstGives(add: (byte, byte) -> byte, box: byte -> byte, back: Word32, prev: Word32, rcon: byte, w: Word32) {
    && w[0] == add(back[0], add(box(prev[1]), rcon)) && w[1] == add(back[1], box(prev[2]))
    && w[2] == add(back[2], box(prev[3])) && w[3] == add(back[3], box(prev[0]))
  }

  predicate SumGives(add: (byte, byte) -> byte, back: Word32, prev: Word32, w: Word32) {
    w[0] == add(back[0], prev[0]) && w[1] == add(back[1], prev[1]) && w[2] == add(back[2], prev[2]) && w[3] == add(back[3], prev[3])
  }

  predicate KeyGives(add: (byte, byte) -> byte, box: byte -> byte, rcon: byte, k: Cols, r: Cols) {
    && FirstGives(add, box, k.c0, k.c3, rcon, r.c0) && SumGives(add, k.c1, r.c0, r.c1)
    && SumGives(add, k.c2, r.c1, r.c2) && SumGives(add, k.c3, r.c2, r.c3)
  }

  /** Words `i` to `i + 3` of a key schedule. */
  predicate KeyAt(w: seq<Word32>, i: nat, k: Cols) {
    i + 4 <= |w| && w[i] == k.c0 && w[i + 1] == k.c1 && w[i + 2] == k.c2 && w[i + 3] == k.c3
  }

  /** They follow from the four words before, from `j` on. */
  predicate Follow(add: (byte, byte) -> byte, box: byte -> byte, w: seq<Word32>, rcon: byte, i: nat, j: nat) {
    && i + 4 <= |w| && j + 4 <= |w| && FirstGives(add, box, w[j], w[j + 3], rcon, w[i]) && SumGives(add, w[j + 1], w[i], w[i + 1])
    && SumGives(add, w[j + 2], w[i + 1], w[i + 2]) && SumGives(add, w[j + 3], w[i + 2], w[i + 3])
  }

  lemma SameWord(v: Word32, w: Word32)
    requires v[0] == w[0] && v[1] == w[1] && v[2] == w[2] && v[3] == w[3]
    ensures v == w
  {
  }

  lemma NextKey(add: (byte, byte) -> byte, box: byte -> byte, w: seq<Word32>, i: nat, j: nat, rcon: byte, k: Cols, r: Cols)
    requires Follow(add, box, w, rcon, i, j) && KeyGives(add, box, rcon, k, r) && KeyAt(w, j, k)
    ensures KeyAt(w, i, r)
  {
    SameWord(w[i], r.c0);
    SameWord(w[i + 1], r.c1);
    SameWord(w[i + 2], r.c2);
    SameWord(w[i + 3], r.c3);
  }

  /** What the key expansion promises of the words it yields for a key of four words. */
  ghost predicate Expands(box: byte -> byte, w: seq<Word32>) {
    |w| == 44 && forall i: nat, r: nat {:trigger InWord(i, r)} :: 4 <= i < 44 && InWord(i, r) ==>
      w[i][r] == w[i - 4][r] ^ (if i % 4 == 0 then box(w[i - 1][(r + 1) % 4]) ^ (if r == 0 then RCON[i / 4 - 1] else 0) else w[i - 1][r])
  }

  lemma FirstByteIs(box: byte -> byte, w: seq<Word32>, n: nat, i: nat, r: nat)
    requires Expands(box, w) && 0 < n <= 10 && i == 4 * n && r < 4
    ensures w[i][r] == w[i - 4][r] ^ (box(w[i - 1][(r + 1) % 4]) ^ (if r == 0 then RCON[n - 1] else 0))
  {
    FourTimes(n, i);
    assert InWord(i, r);
  }

  lemma AddCase(v: byte, x: byte, s: byte, c: byte, first: bool)
    requires v == x ^ (s ^ (if first then c else 0))
    ensures v == Add(x, if first then Add(s, c) else s)
  {
  }

  lemma FirstByteAt(box: byte -> byte, w: seq<Word32>, n: nat, i: nat, j: nat, b: nat, r: nat)
    requires Expands(box, w) && 0 < n <= 10 && i == 4 * n && j == i - 1 && b == i - 4 && r < 4
    ensures w[i][r] == Add(w[b][r], if r == 0 then Add(box(w[j][(r + 1) % 4]), RCON[n - 1]) else box(w[j][(r + 1) % 4]))
  {
    FirstByteIs(box, w, n, i, r);
    AddCase(w[i][r], w[b][r], box(w[j][(r + 1) % 4]), RCON[n - 1], r == 0);
  }

  lemma FirstAt(box: byte -> byte, w: seq<Word32>, n: nat, i: nat, j: nat, b: nat)
    requires Expands(box, w) && 0 < n <= 10 && i == 4 * n && j == i - 1 && b == i - 4
    ensures FirstGives(Add, box, w[b], w[j], RCON[n - 1], w[i])
  {
    FirstByteAt(box, w, n, i, j, b, 0);
    FirstByteAt(box, w, n, i, j, b, 1);
    FirstByteAt(box, w, n, i, j, b, 2);
    FirstByteAt(box, w, n, i, j, b, 3);
  }

  lemma SumAt(box: byte -> byte, w: seq<Word32>, i: nat, j: nat, b: nat)
    requires Expands(box, w) && 4 <= i < 44 && i % 4 != 0 && j == i - 1 && b == i - 4
    ensures SumGives(Add, w[b], w[j], w[i])
  {
    assert InWord(i, 0) && InWord(i, 1) && InWord(i, 2) && InWord(i, 3);
  }

  lemma FourTimes(n: nat, i: nat)
    requires i == 4 * n
    ensures i % 4 == 0 && i / 4 == n && (i + 1) % 4 != 0 && (i + 2) % 4 != 0 && (i + 3) % 4 != 0
  {
  }

  lemma WordsFollow(box: byte -> byte, w: seq<Word32>, n: nat, i: nat, j: nat)
    requires Expands(box, w) && 0 < n <= 10 && i == 4 * n && j == i - 4
    ensures Follow(Add, box, w, RCON[n - 1], i, j)
  {
    FourTimes(n, i);
    FirstAt(box, w, n, i, j + 3, j);
    SumAt(box, w, i + 1, i, j + 1);
    SumAt(box, w, i + 2, i + 1, j + 2);
    SumAt(box, w, i + 3, i + 2, j + 3);
  }

  // One round: the columns through the S-box, and then, picked from four columns, mixed and added to the key.

  predicate BoxGives(box: byte -> byte, w: Word32, s: Word32) {
    s[0] == box(w[0]) && s[1] == box(w[1]) && s[2] == box(w[2]) && s[3] == box(w[3])
  }

  function Sum(p: byte, q: byte, r: byte, s: byte, k: byte): byte {
    p ^ q ^ r ^ s ^ k
  }

  predicate MixGives(a: byte, b: byte, c: byte, d: byte, k: Word32, r: Word32) {
    && r[0] == Sum(Xtime(a), Xtime(b) ^ b, c, d, k[0]) && r[1] == Sum(a, Xtime(b), Xtime(c) ^ c, d, k[1])
    && r[2] == Sum(a, b, Xtime(c), Xtime(d) ^ d, k[2]) && r[3] == Sum(Xtime(a) ^ a, b, c, Xtime(d), k[3])
  }

  predicate LastGives(a: byte, b: byte, c: byte, d: byte, k: Word32, r: Word32) {
    r[0] == a ^ k[0] && r[1] == b ^ k[1] && r[2] == c ^ k[2] && r[3] == d ^ k[3]
  }

  predicate BoxedTo(box: byte -> byte, s: Cols, x: Cols) {
    BoxGives(box, s.c0, x.c0) && BoxGives(box, s.c1, x.c1) && BoxGives(box, s.c2, x.c2) && BoxGives(box, s.c3, x.c3)
  }

  predicate MixedTo(x: Cols, k: Cols, r: Cols) {
    && MixGives(x.c0[0], x.c1[1], x.c2[2], x.c3[3], k.c0, r.c0) && MixGives(x.c1[0], x.c2[1], x.c3[2], x.c0[3], k.c1, r.c1)
    && MixGives(x.c2[0], x.c3[1], x.c0[2], x.c1[3], k.c2, r.c2) && MixGives(x.c3[0], x.c0[1], x.c1[2], x.c2[3], k.c3, r.c3)
  }

  predicate LastTo(x: Cols, k: Cols, r: Cols) {
    && LastGives(x.c0[0], x.c1[1], x.c2[2], x.c3[3], k.c0, r.c0) && LastGives(x.c1[0], x.c2[1], x.c3[2], x.c0[3], k.c1, r.c1)
    && LastGives(x.c2[0], x.c3[1], x.c0[2], x.c1[3], k.c2, r.c2) && LastGives(x.c3[0], x.c0[1], x.c1[2], x.c2[3], k.c3, r.c3)
  }

  lemma TableBytes(t: Tables, b: byte, s: byte)
    requires IsEncryptTable(t) && t.sbox(b) == s
    ensures var d := Xtime(s); var e := Xtime(s) ^ s; t.t0(b) == [d, s, s, e] && t.t1(b) == [e, d, s, s] && t.t2(b) == [s, e, d, s] && t.t3(b) == [s, s, e, d]
  {
    assert TableAt(t, b);
    SmallProducts(s);
  }

  lemma AddsUp(sum: (byte, byte, byte, byte, byte) -> byte, p: Word32, q: Word32, s: Word32, u: Word32, a: byte, b: byte, c: byte, d: byte,
               a2: byte, b2: byte, c2: byte, d2: byte, a3: byte, b3: byte, c3: byte, d3: byte, k: Word32, r: Word32)
    requires p == [a2, a, a, a3] && q == [b3, b2, b, b] && s == [c, c3, c2, c] && u == [d, d, d3, d2]
    requires r[0] == sum(a2, b3, c, d, k[0]) && r[1] == sum(a, b2, c3, d, k[1]) && r[2] == sum(a, b, c2, d3, k[2]) && r[3] == sum(a3, b, c, d2, k[3])
    ensures forall i :: 0 <= i < 4 ==> r[i] == sum(p[i], q[i], s[i], u[i], k[i])
  {
  }

  lemma AddedWord(p: Word32, q: Word32, s: Word32, u: Word32, k: Word32, r: Word32)
    requires forall i :: 0 <= i < 4 ==> r[i] == Sum(p[i], q[i], s[i], u[i], k[i])
    ensures Xor(Xor(Xor(Xor(p, q), s), u), k) == r
  {
    forall i: nat | i < 4 ensures Xor(Xor(Xor(Xor(p, q), s), u), k)[i] == r[i] {
      XorFourAt(p, q, s, u, i);
    }
  }

  lemma MixIs(t: Tables, w0: Word32, w1: Word32, w2: Word32, w3: Word32, a: byte, b: byte, c: byte, d: byte, k: Word32, r: Word32)
    requires IsEncryptTable(t) && a == t.sbox(w0[0]) && b == t.sbox(w1[1]) && c == t.sbox(w2[2]) && d == t.sbox(w3[3]) && MixGives(a, b, c, d, k, r)
    ensures Xor(MixColumn(Selected(t.sbox, w0, w1, w2, w3)), k) == r
  {
    RoundIsMixed(t, w0, w1, w2, w3, k);
    TableBytes(t, w0[0], a);
    TableBytes(t, w1[1], b);
    TableBytes(t, w2[2], c);
    TableBytes(t, w3[3], d);
    MixSums(t.t0(w0[0]), t.t1(w1[1]), t.t2(w2[2]), t.t3(w3[3]), a, b, c, d, k, r);
  }

  lemma MixSums(p: Word32, q: Word32, s: Word32, u: Word32, a: byte, b: byte, c: byte, d: byte, k: Word32, r: Word32)
    requires p == [Xtime(a), a, a, Xtime(a) ^ a] && q == [Xtime(b) ^ b, Xtime(b), b, b]
    requires s == [c, Xtime(c) ^ c, Xtime(c), c] && u == [d, d, Xtime(d) ^ d, Xtime(d)] && MixGives(a, b, c, d, k, r)
    ensures Xor(Xor(Xor(Xor(p, q), s), u), k) == r
  {
    AddsUp(Sum, p, q, s, u, a, b, c, d, Xtime(a), Xtime(b), Xtime(c), Xtime(d), Xtime(a) ^ a, Xtime(b) ^ b, Xtime(c) ^ c, Xtime(d) ^ d, k, r);
    AddedWord(p, q, s, u, k, r);
  }

  lemma LastIs(box: byte -> byte, w0: Word32, w1: Word32, w2: Word32, w3: Word32, a: byte, b: byte, c: byte, d: byte, k: Word32, r: Word32)
    requires a == box(w0[0]) && b == box(w1[1]) && c == box(w2[2]) && d == box(w3[3]) && LastGives(a, b, c, d, k, r)
    ensures Xor(Selected(box, w0, w1, w2, w3), k) == r
  {
  }

  lemma NextState(t: Tables, s: Cols, x: Cols, k: Cols, r: Cols)
    requires IsEncryptTable(t) && BoxedTo(t.sbox, s, x) && MixedTo(x, k, r)
    ensures Round(t.sbox, s.Flat(), k.Flat()) == r.Flat()
  {
    RoundColumns(t.sbox, s.c0, s.c1, s.c2, s.c3, k.c0, k.c1, k.c2, k.c3);
    MixIs(t, s.c0, s.c1, s.c2, s.c3, x.c0[0], x.c1[1], x.c2[2], x.c3[3], k.c0, r.c0);
    MixIs(t, s.c1, s.c2, s.c3, s.c0, x.c1[0], x.c2[1], x.c3[2], x.c0[3], k.c1, r.c1);
    MixIs(t, s.c2, s.c3, s.c0, s.c1, x.c2[0], x.c3[1], x.c0[2], x.c1[3], k.c2, r.c2);
    MixIs(t, s.c3, s.c0, s.c1, s.c2, x.c3[0], x.c0[1], x.c1[2], x.c2[3], k.c3, r.c3);
  }

  lemma RoundColumns(box: byte -> byte, w0: Word32, w1: Word32, w2: Word32, w3: Word32, k0: Word32, k1: Word32, k2: Word32, k3: Word32)
    ensures Round(box, Columns(w0, w1, w2, w3), Columns(k0, k1, k2, k3))
         == Columns(Xor(MixColumn(Selected(box, w0, w1, w2, w3)), k0), Xor(MixColumn(Selected(box, w1, w2, w3, w0)), k1),
                    Xor(MixColumn(Selected(box, w2, w3, w0, w1)), k2), Xor(MixColumn(Selected(box, w3, w0, w1, w2)), k3))
  {
    ShiftedColumns(box, w0, w1, w2, w3);
    var a0, a1, a2, a3 := Selected(box, w0, w1, w2, w3), Selected(box, w1, w2, w3, w0), Selected(box, w2, w3, w0, w1), Selected(box, w3, w0, w1, w2);
    MixedColumns(a0, a1, a2, a3);
    XorColumns(MixColumn(a0), MixColumn(a1), MixColumn(a2), MixColumn(a3), k0, k1, k2, k3);
  }

  lemma LastState(box: byte -> byte, s: Cols, x: Cols, k: Cols, r: Cols)
    requires BoxedTo(box, s, x) && LastTo(x, k, r)
    ensures Xor(ShiftRows(SubBytes(box, s.Flat())), k.Flat()) == r.Flat()
  {
    LastColumns(box, s.c0, s.c1, s.c2, s.c3, k.c0, k.c1, k.c2, k.c3);
    LastIs(box, s.c0, s.c1, s.c2, s.c3, x.c0[0], x.c1[1], x.c2[2], x.c3[3], k.c0, r.c0);
    LastIs(box, s.c1, s.c2, s.c3, s.c0, x.c1[0], x.c2[1], x.c3[2], x.c0[3], k.c1, r.c1);
    LastIs(box, s.c2, s.c3, s.c0, s.c1, x.c2[0], x.c3[1], x.c0[2], x.c1[3], k.c2, r.c2);
    LastIs(box, s.c3, s.c0, s.c1, s.c2, x.c3[0], x.c0[1], x.c1[2], x.c2[3], k.c3, r.c3);
  }

  lemma LastColumns(box: byte -> byte, w0: Word32, w1: Word32, w2: Word32, w3: Word32, k0: Word32, k1: Word32, k2: Word32, k3: Word32)
    ensures Xor(ShiftRows(SubBytes(box, Columns(w0, w1, w2, w3))), Columns(k0, k1, k2, k3))
         == Columns(Xor(Selected(box, w0, w1, w2, w3), k0), Xor(Selected(box, w1, w2, w3, w0), k1),
                    Xor(Selected(box, w2, w3, w0, w1), k2), Xor(Selected(box, w3, w0, w1, w2), k3))
  {
    ShiftedColumns(box, w0, w1, w2, w3);
    XorColumns(Selected(box, w0, w1, w2, w3), Selected(box, w1, w2, w3, w0), Selected(box, w2, w3, w0, w1), Selected(box, w3, w0, w1, w2), k0, k1, k2, k3);
  }

  lemma SboxRound(s: Cols, x: Cols, k: Cols, r: Cols)
    requires BoxedTo(Sbox, s, x) && MixedTo(x, k, r)
    ensures Round(Sbox, s.Flat(), k.Flat()) == r.Flat()
  {
    EncryptTablesAre();
    NextState(EncryptTables(), s, x, k, r);
  }

  lemma XorWord(a: Word32, b: Word32, w: Word32)
    requires SumGives(Add, a, b, w)
    ensures Xor(a, b) == w
  {
    SameWord(Xor(a, b), w);
  }

  lemma XorCols(a: Cols, b: Cols, r: Cols)
    requires SumGives(Add, a.c0, b.c0, r.c0) && SumGives(Add, a.c1, b.c1, r.c1) && SumGives(Add, a.c2, b.c2, r.c2) && SumGives(Add, a.c3, b.c3, r.c3)
    ensures Xor(a.Flat(), b.Flat()) == r.Flat()
  {
    XorColumns(a.c0, a.c1, a.c2, a.c3, b.c0, b.c1, b.c2, b.c3);
    XorWord(a.c0, b.c0, r.c0);
    XorWord(a.c1, b.c1, r.c1);
    XorWord(a.c2, b.c2, r.c2);
    XorWord(a.c3, b.c3, r.c3);
  }

  lemma CipherIs(box: byte -> byte, nr: nat, w: seq<Word32>, p: Block)
    requires 0 < nr && 4 * nr + 4 <= |w|
    ensures Cipher(box, nr, w, p) == Xor(ShiftRows(SubBytes(box, Rounds(box, w, p, nr - 1))), RoundKey(w, nr))
  {
  }

  // The example: the round keys, the states, and the states through the S-box.

  function Key(n: nat): Cols {
    match n
    case 0 => Cols([0x00, 0x01, 0x02, 0x03], [0x04, 0x05, 0x06, 0x07], [0x08, 0x09, 0x0a, 0x0b], [0x0c, 0x0d, 0x0e, 0x0f])
    case 1 => Cols([0xd6, 0xaa, 0x74, 0xfd], [0xd2, 0xaf, 0x72, 0xfa], [0xda, 0xa6, 0x78, 0xf1], [0xd6, 0xab, 0x76, 0xfe])
    case 2 => Cols([0xb6, 0x92, 0xcf, 0x0b], [0x64, 0x3d, 0xbd, 0xf1], [0xbe, 0x9b, 0xc5, 0x00], [0x68, 0x30, 0xb3, 0xfe])
    case 3 => Cols([0xb6, 0xff, 0x74, 0x4e], [0xd2, 0xc2, 0xc9, 0xbf], [0x6c, 0x59, 0x0c, 0xbf], [0x04, 0x69, 0xbf, 0x41])
    case 4 => Cols([0x47, 0xf7, 0xf7, 0xbc], [0x95, 0x35, 0x3e, 0x03], [0xf9, 0x6c, 0x32, 0xbc], [0xfd, 0x05, 0x8d, 0xfd])
    case 5 => Cols([0x3c, 0xaa, 0xa3, 0xe8], [0xa9, 0x9f, 0x9d, 0xeb], [0x50, 0xf3, 0xaf, 0x57], [0xad, 0xf6, 0x22, 0xaa])
    case 6 => Cols([0x5e, 0x39, 0x0f, 0x7d], [0xf7, 0xa6, 0x92, 0x96], [0xa7, 0x55, 0x3d, 0xc1], [0x0a, 0xa3, 0x1f, 0x6b])
    case 7 => Cols([0x14, 0xf9, 0x70, 0x1a], [0xe3, 0x5f, 0xe2, 0x8c], [0x44, 0x0a, 0xdf, 0x4d], [0x4e, 0xa9, 0xc0, 0x26])
    case 8 => Cols([0x47, 0x43, 0x87, 0x35], [0xa4, 0x1c, 0x65, 0xb9], [0xe0, 0x16, 0xba, 0xf4], [0xae, 0xbf, 0x7a, 0xd2])
    case 9 => Cols([0x54, 0x99, 0x32, 0xd1], [0xf0, 0x85, 0x57, 0x68], [0x10, 0x93, 0xed, 0x9c], [0xbe, 0x2c, 0x97, 0x4e])
    case _ => Cols([0x13, 0x11, 0x1d, 0x7f], [0xe3, 0x94, 0x4a, 0x17], [0xf3, 0x07, 0xa7, 0x8b], [0x4d, 0x2b, 0x30, 0xc5])
  }

  function State(n: nat): Cols {
    match n
    case 0 => Cols([0x00, 0x10, 0x20, 0x30], [0x40, 0x50, 0x60, 0x70], [0x80, 0x90, 0xa0, 0xb0], [0xc0, 0xd0, 0xe0, 0xf0])
    case 1 => Cols([0x89, 0xd8, 0x10, 0xe8], [0x85, 0x5a, 0xce, 0x68], [0x2d, 0x18, 0x43, 0xd8], [0xcb, 0x12, 0x8f, 0xe4])
    case 2 => Cols([0x49, 0x15, 0x59, 0x8f], [0x55, 0xe5, 0xd7, 0xa0], [0xda, 0xca, 0x94, 0xfa], [0x1f, 0x0a, 0x63, 0xf7])
    case 3 => Cols([0xfa, 0x63, 0x6a, 0x28], [0x25, 0xb3, 0x39, 0xc9], [0x40, 0x66, 0x8a, 0x31], [0x57, 0x24, 0x4d, 0x17])
    case 4 => Cols([0x24, 0x72, 0x40, 0x23], [0x69, 0x66, 0xb3, 0xfa], [0x6e, 0xd2, 0x75, 0x32], [0x88, 0x42, 0x5b, 0x6c])
    case 5 => Cols([0xc8, 0x16, 0x77, 0xbc], [0x9b, 0x7a, 0xc9, 0x3b], [0x25, 0x02, 0x79, 0x92], [0xb0, 0x26, 0x19, 0x96])
    case 6 => Cols([0xc6, 0x2f, 0xe1, 0x09], [0xf7, 0x5e, 0xed, 0xc3], [0xcc, 0x79, 0x39, 0x5d], [0x84, 0xf9, 0xcf, 0x5d])
    case 7 => Cols([0xd1, 0x87, 0x6c, 0x0f], [0x79, 0xc4, 0x30, 0x0a], [0xb4, 0x55, 0x94, 0xad], [0xd6, 0x6f, 0xf4, 0x1f])
    case 8 => Cols([0xfd, 0xe3, 0xba, 0xd2], [0x05, 0xe5, 0xd0, 0xd7], [0x35, 0x47, 0x96, 0x4e], [0xf1, 0xfe, 0x37, 0xf1])
    case 9 => Cols([0xbd, 0x6e, 0x7c, 0x3d], [0xf2, 0xb5, 0x77, 0x9e], [0x0b, 0x61, 0x21, 0x6e], [0x8b, 0x10, 0xb6, 0x89])
    case _ => Cols([0x69, 0xc4, 0xe0, 0xd8], [0x6a, 0x7b, 0x04, 0x30], [0xd8, 0xcd, 0xb7, 0x80], [0x70, 0xb4, 0xc5, 0x5a])
  }

  function Boxed(n: nat): Cols {
    match n
    case 0 => Cols([0x63, 0xca, 0xb7, 0x04], [0x09, 0x53, 0xd0, 0x51], [0xcd, 0x60, 0xe0, 0xe7], [0xba, 0x70, 0xe1, 0x8c])
    case 1 => Cols([0xa7, 0x61, 0xca, 0x9b], [0x97, 0xbe, 0x8b, 0x45], [0xd8, 0xad, 0x1a, 0x61], [0x1f, 0xc9, 0x73, 0x69])
    case 2 => Cols([0x3b, 0x59, 0xcb, 0x73], [0xfc, 0xd9, 0x0e, 0xe0], [0x57, 0x74, 0x22, 0x2d], [0xc0, 0x67, 0xfb, 0x68])
    case 3 => Cols([0x2d, 0xfb, 0x02, 0x34], [0x3f, 0x6d, 0x12, 0xdd], [0x09, 0x33, 0x7e, 0xc7], [0x5b, 0x36, 0xe3, 0xf0])
    case 4 => Cols([0x36, 0x40, 0x09, 0x26], [0xf9, 0x33, 0x6d, 0x2d], [0x9f, 0xb5, 0x9d, 0x23], [0xc4, 0x2c, 0x39, 0x50])
    case 5 => Cols([0xe8, 0x47, 0xf5, 0x65], [0x14, 0xda, 0xdd, 0xe2], [0x3f, 0x77, 0xb6, 0x4f], [0xe7, 0xf7, 0xd4, 0x90])
    case 6 => Cols([0xb4, 0x15, 0xf8, 0x01], [0x68, 0x58, 0x55, 0x2e], [0x4b, 0xb6, 0x12, 0x4c], [0x5f, 0x99, 0x8a, 0x4c])
    case 7 => Cols([0x3e, 0x17, 0x50, 0x76], [0xb6, 0x1c, 0x04, 0x67], [0x8d, 0xfc, 0x22, 0x95], [0xf6, 0xa8, 0xbf, 0xc0])
    case 8 => Cols([0x54, 0x11, 0xf4, 0xb5], [0x6b, 0xd9, 0x70, 0x0e], [0x96, 0xa0, 0x90, 0x2f], [0xa1, 0xbb, 0x9a, 0xa1])
    case _ => Cols([0x7a, 0x9f, 0x10, 0x27], [0x89, 0xd5, 0xf5, 0x0b], [0x2b, 0xef, 0xfd, 0x9f], [0x3d, 0xca, 0x4e, 0xa7])
  }

  lemma KeyFrom0(box: byte -> byte)
    requires box(0x0c) == 0xfe && box(0x0d) == 0xd7 && box(0x0e) == 0xab && box(0x0f) == 0x76
    ensures KeyGives(Add, box, RCON[0], Key(0), Key(1))
  {
  }

  lemma KeyFrom1(box: byte -> byte)
    requires box(0xd6) == 0xf6 && box(0xab) == 0x62 && box(0x76) == 0x38 && box(0xfe) == 0xbb
    ensures KeyGives(Add, box, RCON[1], Key(1), Key(2))
  {
  }

  lemma KeyFrom2(box: byte -> byte)
    requires box(0x68) == 0x45 && box(0x30) == 0x04 && box(0xb3) == 0x6d && box(0xfe) == 0xbb
    ensures KeyGives(Add, box, RCON[2], Key(2), Key(3))
  {
  }

  lemma KeyFrom3(box: byte -> byte)
    requires box(0x04) == 0xf2 && box(0x69) == 0xf9 && box(0xbf) == 0x08 && box(0x41) == 0x83
    ensures KeyGives(Add, box, RCON[3], Key(3), Key(4))
  {
  }

  lemma KeyFrom4(box: byte -> byte)
    requires box(0xfd) == 0x54 && box(0x05) == 0x6b && box(0x8d) == 0x5d && box(0xfd) == 0x54
    ensures KeyGives(Add, box, RCON[4], Key(4), Key(5))
  {
  }

  lemma KeyFrom5(box: byte -> byte)
    requires box(0xad) == 0x95 && box(0xf6) == 0x42 && box(0x22) == 0x93 && box(0xaa) == 0xac
    ensures KeyGives(Add, box, RCON[5], Key(5), Key(6))
  {
  }

  lemma KeyFrom6(box: byte -> byte)
    requires box(0x0a) == 0x67 && box(0xa3) == 0x0a && box(0x1f) == 0xc0 && box(0x6b) == 0x7f
    ensures KeyGives(Add, box, RCON[6], Key(6), Key(7))
  {
  }

  lemma KeyFrom7(box: byte -> byte)
    requires box(0x4e) == 0x2f && box(0xa9) == 0xd3 && box(0xc0) == 0xba && box(0x26) == 0xf7
    ensures KeyGives(Add, box, RCON[7], Key(7), Key(8))
  {
  }

  lemma KeyFrom8(box: byte -> byte)
    requires box(0xae) == 0xe4 && box(0xbf) == 0x08 && box(0x7a) == 0xda && box(0xd2) == 0xb5
    ensures KeyGives(Add, box, RCON[8], Key(8), Key(9))
  {
  }

  lemma KeyFrom9(box: byte -> byte)
    requires box(0xbe) == 0xae && box(0x2c) == 0x71 && box(0x97) == 0x88 && box(0x4e) == 0x2f
    ensures KeyGives(Add, box, RCON[9], Key(9), Key(10))
  {
  }

  lemma Box0Column0()
    ensures BoxGives(Sbox, State(0).c0, Boxed(0).c0)
  {
  }

  lemma Box0Column1()
    ensures BoxGives(Sbox, State(0).c1, Boxed(0).c1)
  {
  }

  lemma Box0Column2()
    ensures BoxGives(Sbox, State(0).c2, Boxed(0).c2)
  {
  }

  lemma Box0Column3()
    ensures BoxGives(Sbox, State(0).c3, Boxed(0).c3)
  {
  }

  lemma Box1Column0()
    ensures BoxGives(Sbox, State(1).c0, Boxed(1).c0)
  {
  }

  lemma Box1Column1()
    ensures BoxGives(Sbox, State(1).c1, Boxed(1).c1)
  {
  }

  lemma Box1Column2()
    ensures BoxGives(Sbox, State(1).c2, Boxed(1).c2)
  {
  }

  lemma Box1Column3()
    ensures BoxGives(Sbox, State(1).c3, Boxed(1).c3)
  {
  }

  lemma Box2Column0()
    ensures BoxGives(Sbox, State(2).c0, Boxed(2).c0)
  {
  }

  lemma Box2Column1()
    ensures BoxGives(Sbox, State(2).c1, Boxed(2).c1)
  {
  }

  lemma Box2Column2()
    ensures BoxGives(Sbox, State(2).c2, Boxed(2).c2)
  {
  }

  lemma Box2Column3()
    ensures BoxGives(Sbox, State(2).c3, Boxed(2).c3)
  {
  }

  lemma Box3Column0()
    ensures BoxGives(Sbox, State(3).c0, Boxed(3).c0)
  {
  }

  lemma Box3Column1()
    ensures BoxGives(Sbox, State(3).c1, Boxed(3).c1)
  {
  }

  lemma Box3Column2()
    ensures BoxGives(Sbox, State(3).c2, Boxed(3).c2)
  {
  }

  lemma Box3Column3()
    ensures BoxGives(Sbox, State(3).c3, Boxed(3).c3)
  {
  }

  lemma Box4Column0()
    ensures BoxGives(Sbox, State(4).c0, Boxed(4).c0)
  {
  }

  lemma Box4Column1()
    ensures BoxGives(Sbox, State(4).c1, Boxed(4).c1)
  {
  }

  lemma Box4Column2()
    ensures BoxGives(Sbox, State(4).c2, Boxed(4).c2)
  {
  }

  lemma Box4Column3()
    ensures BoxGives(Sbox, State(4).c3, Boxed(4).c3)
  {
  }

  lemma Box5Column0()
    ensures BoxGives(Sbox, State(5).c0, Boxed(5).c0)
  {
  }

  lemma Box5Column1()
    ensures BoxGives(Sbox, State(5).c1, Boxed(5).c1)
  {
  }

  lemma Box5Column2()
    ensures BoxGives(Sbox, State(5).c2, Boxed(5).c2)
  {
  }

  lemma Box5Column3()
    ensures BoxGives(Sbox, State(5).c3, Boxed(5).c3)
  {
  }

  lemma Box6Column0()
    ensures BoxGives(Sbox, State(6).c0, Boxed(6).c0)
  {
  }

  lemma Box6Column1()
    ensures BoxGives(Sbox, State(6).c1, Boxed(6).c1)
  {
  }

  lemma Box6Column2()
    ensures BoxGives(Sbox, State(6).c2, Boxed(6).c2)
  {
  }

  lemma Box6Column3()
    ensures BoxGives(Sbox, State(6).c3, Boxed(6).c3)
  {
  }

  lemma Box7Column0()
    ensures BoxGives(Sbox, State(7).c0, Boxed(7).c0)
  {
  }

  lemma Box7Column1()
    ensures BoxGives(Sbox, State(7).c1, Boxed(7).c1)
  {
  }

  lemma Box7Column2()
    ensures BoxGives(Sbox, State(7).c2, Boxed(7).c2)
  {
  }

  lemma Box7Column3()
    ensures BoxGives(Sbox, State(7).c3, Boxed(7).c3)
  {
  }

  lemma Box8Column0()
    ensures BoxGives(Sbox, State(8).c0, Boxed(8).c0)
  {
  }

  lemma Box8Column1()
    ensures BoxGives(Sbox, State(8).c1, Boxed(8).c1)
  {
  }

  lemma Box8Column2()
    ensures BoxGives(Sbox, State(8).c2, Boxed(8).c2)
  {
  }

  lemma Box8Column3()
    ensures BoxGives(Sbox, State(8).c3, Boxed(8).c3)
  {
  }

  lemma Box9Column0()
    ensures BoxGives(Sbox, State(9).c0, Boxed(9).c0)
  {
  }

  lemma Box9Column1()
    ensures BoxGives(Sbox, State(9).c1, Boxed(9).c1)
  {
  }

  lemma Box9Column2()
    ensures BoxGives(Sbox, State(9).c2, Boxed(9).c2)
  {
  }

  lemma Box9Column3()
    ensures BoxGives(Sbox, State(9).c3, Boxed(9).c3)
  {
  }

  lemma BoxIs0()
    ensures BoxedTo(Sbox, State(0), Boxed(0))
  {
    Box0Column0();
    Box0Column1();
    Box0Column2();
    Box0Column3();
  }

  lemma BoxIs1()
    ensures BoxedTo(Sbox, State(1), Boxed(1))
  {
    Box1Column0();
    Box1Column1();
    Box1Column2();
    Box1Column3();
  }

  lemma BoxIs2()
    ensures BoxedTo(Sbox, State(2), Boxed(2))
  {
    Box2Column0();
    Box2Column1();
    Box2Column2();
    Box2Column3();
  }

  lemma BoxIs3()
    ensures BoxedTo(Sbox, State(3), Boxed(3))
  {
    Box3Column0();
    Box3Column1();
    Box3Column2();
    Box3Column3();
  }

  lemma BoxIs4()
    ensures BoxedTo(Sbox, State(4), Boxed(4))
  {
    Box4Column0();
    Box4Column1();
    Box4Column2();
    Box4Column3();
  }

  lemma BoxIs5()
    ensures BoxedTo(Sbox, State(5), Boxed(5))
  {
    Box5Column0();
    Box5Column1();
    Box5Column2();
    Box5Column3();
  }

  lemma BoxIs6()
    ensures BoxedTo(Sbox, State(6), Boxed(6))
  {
    Box6Column0();
    Box6Column1();
    Box6Column2();
    Box6Column3();
  }

  lemma BoxIs7()
    ensures BoxedTo(Sbox, State(7), Boxed(7))
  {
    Box7Column0();
    Box7Column1();
    Box7Column2();
    Box7Column3();
  }

  lemma BoxIs8()
    ensures BoxedTo(Sbox, State(8), Boxed(8))
  {
    Box8Column0();
    Box8Column1();
    Box8Column2();
    Box8Column3();
  }

  lemma BoxIs9()
    ensures BoxedTo(Sbox, State(9), Boxed(9))
  {
    Box9Column0();
    Box9Column1();
    Box9Column2();
    Box9Column3();
  }

  lemma MixedAt0()
    ensures MixedTo(Boxed(0), Key(1), State(1))
  {
  }

  lemma MixedAt1()
    ensures MixedTo(Boxed(1), Key(2), State(2))
  {
  }

  lemma MixedAt2()
    ensures MixedTo(Boxed(2), Key(3), State(3))
  {
  }

  lemma MixedAt3()
    ensures MixedTo(Boxed(3), Key(4), State(4))
  {
  }

  lemma MixedAt4()
    ensures MixedTo(Boxed(4), Key(5), State(5))
  {
  }

  lemma MixedAt5()
    ensures MixedTo(Boxed(5), Key(6), State(6))
  {
  }

  lemma MixedAt6()
    ensures MixedTo(Boxed(6), Key(7), State(7))
  {
  }

  lemma MixedAt7()
    ensures MixedTo(Boxed(7), Key(8), State(8))
  {
  }

  lemma MixedAt8()
    ensures MixedTo(Boxed(8), Key(9), State(9))
  {
  }

  lemma LastAt9()
    ensures LastTo(Boxed(9), Key(10), State(10))
  {
  }

  lemma KeyIs1()
    ensures KeyGives(Add, Sbox, RCON[0], Key(0), Key(1))
  {
    KeyFrom0(Sbox);
  }

  lemma KeyIs2()
    ensures KeyGives(Add, Sbox, RCON[1], Key(1), Key(2))
  {
    KeyFrom1(Sbox);
  }

  lemma KeyIs3()
    ensures KeyGives(Add, Sbox, RCON[2], Key(2), Key(3))
  {
    KeyFrom2(Sbox);
  }

  lemma KeyIs4()
    ensures KeyGives(Add, Sbox, RCON[3], Key(3), Key(4))
  {
    KeyFrom3(Sbox);
  }

  lemma KeyIs5()
    ensures KeyGives(Add, Sbox, RCON[4], Key(4), Key(5))
  {
    KeyFrom4(Sbox);
  }

  lemma KeyIs6()
    ensures KeyGives(Add, Sbox, RCON[5], Key(5), Key(6))
  {
    KeyFrom5(Sbox);
  }

  lemma KeyIs7()
    ensures KeyGives(Add, Sbox, RCON[6], Key(6), Key(7))
  {
    KeyFrom6(Sbox);
  }

  lemma KeyIs8()
    ensures KeyGives(Add, Sbox, RCON[7], Key(7), Key(8))
  {
    KeyFrom7(Sbox);
  }

  lemma KeyIs9()
    ensures KeyGives(Add, Sbox, RCON[8], Key(8), Key(9))
  {
    KeyFrom8(Sbox);
  }

  lemma KeyIs10()
    ensures KeyGives(Add, Sbox, RCON[9], Key(9), Key(10))
  {
    KeyFrom9(Sbox);
  }

  lemma EarlyBoxed(n: nat)
    requires n < 5
    ensures BoxedTo(Sbox, State(n), Boxed(n))
  {
    if n == 0 {
      BoxIs0();
    } else if n == 1 {
      BoxIs1();
    } else if n == 2 {
      BoxIs2();
    } else if n == 3 {
      BoxIs3();
    } else {
      BoxIs4();
    }
  }

  lemma LateBoxed(n: nat)
    requires 5 <= n < 10
    ensures BoxedTo(Sbox, State(n), Boxed(n))
  {
    if n == 5 {
      BoxIs5();
    } else if n == 6 {
      BoxIs6();
    } else if n == 7 {
      BoxIs7();
    } else if n == 8 {
      BoxIs8();
    } else {
      BoxIs9();
    }
  }

  lemma BoxedIsListed(n: nat)
    requires n < 10
    ensures BoxedTo(Sbox, State(n), Boxed(n))
  {
    if n < 5 {
      EarlyBoxed(n);
    } else {
      LateBoxed(n);
    }
  }

  lemma MixedIsListed(n: nat, m: nat)
    requires m == n + 1 < 10
    ensures MixedTo(Boxed(n), Key(m), State(m))
  {
    if n == 0 {
      MixedAt0();
    } else if n == 1 {
      MixedAt1();
    } else if n == 2 {
      MixedAt2();
    } else if n == 3 {
      MixedAt3();
    } else if n == 4 {
      MixedAt4();
    } else if n == 5 {
      MixedAt5();
    } else if n == 6 {
      MixedAt6();
    } else if n == 7 {
      MixedAt7();
    } else {
      MixedAt8();
    }
  }

  ghost predicate RoundStep(box: byte -> byte, state: nat -> Cols, key: nat -> Cols, n: nat, m: nat) {
    Round(box, state(n).Flat(), key(m).Flat()) == state(m).Flat()
  }

  lemma RoundFrom(state: nat -> Cols, boxed: nat -> Cols, key: nat -> Cols, n: nat, m: nat)
    requires BoxedTo(Sbox, state(n), boxed(n)) && MixedTo(boxed(n), key(m), state(m))
    ensures RoundStep(Sbox, state, key, n, m)
  {
    SboxRound(state(n), boxed(n), key(m), state(m));
  }

  lemma RoundIsListed(n: nat, m: nat)
    requires m == n + 1 < 10
    ensures RoundStep(Sbox, State, Key, n, m)
  {
    BoxedIsListed(n);
    MixedIsListed(n, m);
    RoundFrom(State, Boxed, Key, n, m);
  }

  lemma KeyIsListed(n: nat)
    requires 0 < n <= 10
    ensures KeyGives(Add, Sbox, RCON[n - 1], Key(n - 1), Key(n))
  {
    if n == 1 {
      KeyIs1();
    } else if n == 2 {
      KeyIs2();
    } else if n == 3 {
      KeyIs3();
    } else if n == 4 {
      KeyIs4();
    } else if n == 5 {
      KeyIs5();
    } else if n == 6 {
      KeyIs6();
    } else if n == 7 {
      KeyIs7();
    } else if n == 8 {
      KeyIs8();
    } else if n == 9 {
      KeyIs9();
    } else {
      KeyIs10();
    }
  }

  ghost predicate KeyStep(add: (byte, byte) -> byte, box: byte -> byte, w: seq<Word32>, key: nat -> Cols, n: nat, i: nat) {
    0 < n <= 10 && i == 4 * n && KeyGives(add, box, RCON[n - 1], key(n - 1), key(n)) && Follow(add, box, w, RCON[n - 1], i, i - 4)
  }

  ghost predicate KeySteps(add: (byte, byte) -> byte, box: byte -> byte, w: seq<Word32>, key: nat -> Cols) {
    forall n: nat, i: nat :: 0 < n <= 10 && i == 4 * n ==> KeyStep(add, box, w, key, n, i)
  }

  lemma {:induction false} KeysAre(add: (byte, byte) -> byte, box: byte -> byte, w: seq<Word32>, key: nat -> Cols, n: nat, i: nat)
    requires n <= 10 && i == 4 * n && KeyAt(w, 0, key(0)) && KeySteps(add, box, w, key)
    ensures KeyAt(w, i, key(n))
  {
    if n > 0 {
      KeysAre(add, box, w, key, n - 1, i - 4);
      KeyFromStep(add, box, w, key, n, i);
    }
  }

  lemma KeyFromStep(add: (byte, byte) -> byte, box: byte -> byte, w: seq<Word32>, key: nat -> Cols, n: nat, i: nat)
    requires 0 < n <= 10 && i == 4 * n && KeySteps(add, box, w, key) && KeyAt(w, i - 4, key(n - 1))
    ensures KeyAt(w, i, key(n))
  {
    assert KeyStep(add, box, w, key, n, i);
    NextKey(add, box, w, i, i - 4, RCON[n - 1], key(n - 1), key(n));
  }

  lemma KeyFollows(w: seq<Word32>, n: nat, i: nat)
    requires Expands(Sbox, w) && 0 < n <= 10 && i == 4 * n
    ensures KeyStep(Add, Sbox, w, Key, n, i)
  {
    KeyIsListed(n);
    KeyStepIs(Sbox, w, Key, n, i);
  }

  lemma KeyStepIs(box: byte -> byte, w: seq<Word32>, key: nat -> Cols, n: nat, i: nat)
    requires Expands(box, w) && 0 < n <= 10 && i == 4 * n && KeyGives(Add, box, RCON[n - 1], key(n - 1), key(n))
    ensures KeyStep(Add, box, w, key, n, i)
  {
    WordsFollow(box, w, n, i, i - 4);
  }

  ghost predicate KeyRuns(w: seq<Word32>, key: nat -> Cols, n: nat) {
    4 * n + 4 <= |w| && RoundKey(w, n) == key(n).Flat()
  }

  lemma ListedKey(w: seq<Word32>, n: nat)
    requires Expands(Sbox, w) && KeyAt(w, 0, Key(0)) && n <= 10
    ensures KeyRuns(w, Key, n)
  {
    forall m: nat, j: nat | 0 < m <= 10 && j == 4 * m ensures KeyStep(Add, Sbox, w, Key, m, j) {
      KeyFollows(w, m, j);
    }
    KeysAre(Add, Sbox, w, Key, n, 4 * n);
    SameKey(w, Key, n, 4 * n);
  }

  lemma SameKey(w: seq<Word32>, key: nat -> Cols, n: nat, i: nat)
    requires i == 4 * n && KeyAt(w, i, key(n))
    ensures KeyRuns(w, key, n)
  {
  }

  function Plaintext(): Cols {
    Cols([0x00, 0x11, 0x22, 0x33], [0x44, 0x55, 0x66, 0x77], [0x88, 0x99, 0xaa, 0xbb], [0xcc, 0xdd, 0xee, 0xff])
  }

  lemma FirstState()
    ensures Xor(Plaintext().Flat(), Key(0).Flat()) == State(0).Flat()
  {
    XorCols(Plaintext(), Key(0), State(0));
  }

  lemma Input()
    ensures Plaintext().Flat() == [0x00, 0x11, 0x22, 0x33, 0x44, 0x55, 0x66, 0x77, 0x88, 0x99, 0xaa, 0xbb, 0xcc, 0xdd, 0xee, 0xff]
  {
  }

  lemma StepRounds(box: byte -> byte, w: seq<Word32>, p: Block, m: nat)
    requires 0 < m && 4 * m + 4 <= |w|
    ensures Rounds(box, w, p, m) == Round(box, Rounds(box, w, p, m - 1), RoundKey(w, m))
  {
  }

  ghost predicate RoundsAt(box: byte -> byte, w: seq<Word32>, p: Block, state: nat -> Cols, n: nat) {
    4 * n + 4 <= |w| && Rounds(box, w, p, n) == state(n).Flat()
  }

  lemma StartRounds(box: byte -> byte, w: seq<Word32>, p: Block, state: nat -> Cols, key: nat -> Cols)
    requires Xor(p, key(0).Flat()) == state(0).Flat() && KeyRuns(w, key, 0)
    ensures RoundsAt(box, w, p, state, 0)
  {
  }

  lemma NextAt(box: byte -> byte, w: seq<Word32>, p: Block, state: nat -> Cols, key: nat -> Cols, n: nat)
    requires 0 < n && KeyRuns(w, key, n) && RoundStep(box, state, key, n - 1, n) && RoundsAt(box, w, p, state, n - 1)
    ensures RoundsAt(box, w, p, state, n)
  {
    StepRounds(box, w, p, n);
  }

  lemma {:induction false} RoundsAre(box: byte -> byte, w: seq<Word32>, p: Block, state: nat -> Cols, key: nat -> Cols, n: nat)
    requires n < 10 && Xor(p, key(0).Flat()) == state(0).Flat()
    requires forall i: nat :: i <= 10 ==> KeyRuns(w, key, i)
    requires forall i: nat, j: nat :: j == i + 1 < 10 ==> RoundStep(box, state, key, i, j)
    ensures RoundsAt(box, w, p, state, n)
  {
    if n == 0 {
      StartRounds(box, w, p, state, key);
    } else {
      RoundsAre(box, w, p, state, key, n - 1);
      NextAt(box, w, p, state, key, n);
    }
  }

  lemma LastFrom(state: nat -> Cols, boxed: nat -> Cols, key: nat -> Cols, n: nat, m: nat)
    requires BoxedTo(Sbox, state(n), boxed(n)) && LastTo(boxed(n), key(m), state(m))
    ensures LastStep(Sbox, state, key, n, m)
  {
    LastState(Sbox, state(n), boxed(n), key(m), state(m));
  }

  ghost predicate LastStep(box: byte -> byte, state: nat -> Cols, key: nat -> Cols, n: nat, m: nat) {
    Xor(ShiftRows(SubBytes(box, state(n).Flat())), key(m).Flat()) == state(m).Flat()
  }

  lemma LastListed(n: nat, m: nat)
    requires m == n + 1 == 10
    ensures LastStep(Sbox, State, Key, n, m)
  {
    BoxedIsListed(n);
    LastAt9();
    LastFrom(State, Boxed, Key, n, m);
  }

  lemma Output()
    ensures State(10).Flat() == [0x69, 0xc4, 0xe0, 0xd8, 0x6a, 0x7b, 0x04, 0x30, 0xd8, 0xcd, 0xb7, 0x80, 0x70, 0xb4, 0xc5, 0x5a]
  {
  }

  lemma CipherFrom(box: byte -> byte, w: seq<Word32>, p: Block, state: nat -> Cols, key: nat -> Cols, nr: nat)
    requires 0 < nr && KeyRuns(w, key, nr) && RoundsAt(box, w, p, state, nr - 1) && LastStep(box, state, key, nr - 1, nr)
    ensures Cipher(box, nr, w, p) == state(nr).Flat()
  {
    CipherIs(box, nr, w, p);
  }

  lemma ExampleIs(w: seq<Word32>, p: Block, nr: nat)
    requires Expands(Sbox, w) && KeyAt(w, 0, Key(0)) && p == Plaintext().Flat() && nr == 10
    ensures Cipher(Sbox, nr, w, p) == State(nr).Flat()
  {
    FirstState();
    forall i: nat | i <= 10 ensures KeyRuns(w, Key, i) {
      ListedKey(w, i);
    }
    forall i: nat, j: nat | j == i + 1 < 10 ensures RoundStep(Sbox, State, Key, i, j) {
      RoundIsListed(i, j);
    }
    RoundsAre(Sbox, w, p, State, Key, nr - 1);
    LastListed(nr - 1, nr);
    CipherFrom(Sbox, w, p, State, Key, nr);
  }

  lemma FirstKeyAt(key: seq<byte>, box: byte -> byte, w: seq<Word32>, nk: nat, top: nat)
    requires nk == 4 && IsExpansion(box, key, nk, w, top) && |key| == 16 && forall i: nat :: i < 16 ==> key[i] == i as byte
    ensures KeyAt(w, 0, Key(0))
  {
    FirstWordAt(key, w, 0, Key(0).c0);
    FirstWordAt(key, w, 1, Key(0).c1);
    FirstWordAt(key, w, 2, Key(0).c2);
    FirstWordAt(key, w, 3, Key(0).c3);
  }

  lemma FirstWordAt(key: seq<byte>, w: seq<Word32>, i: nat, v: Word32)
    requires i < 4 <= |w| && |key| == 16 && forall i: nat :: i < 16 ==> key[i] == i as byte
    requires forall r: nat {:trigger InWord(i, r)} :: InWord(i, r) ==> w[i][r] == key[4 * i + r]
    requires v[0] == (4 * i) as byte && v[1] == (4 * i + 1) as byte && v[2] == (4 * i + 2) as byte && v[3] == (4 * i + 3) as byte
    ensures w[i] == v
  {
    assert InWord(i, 0) && InWord(i, 1) && InWord(i, 2) && InWord(i, 3);
    SameWord(w[i], v);
  }

  lemma ExpandsIs(key: seq<byte>, box: byte -> byte, w: seq<Word32>, nk: nat, top: nat)
    requires nk == 4 && top == 44 && |w| == 44 && IsExpansion(box, key, nk, w, top)
    ensures Expands(box, w)
  {
  }

  /** The round keys of the example. */
  method ExampleKeys(nk: nat, nr: nat, key: seq<byte>) returns (keys: seq<Word32>)
    requires nk == 4 && nr == 10 && |key| == 16 && forall i: nat :: i < 16 ==> key[i] == i as byte
    ensures keys == Schedule(Sbox, KeyWords(key), 4 * nr + 4) && Expands(Sbox, keys) && KeyAt(keys, 0, Key(0))
  {
    keys := SetEncryptKey(nk, nr, key);
    ExpandsIs(key, Sbox, keys, nk, 4 * nr + 4);
    FirstKeyAt(key, Sbox, keys, nk, 4 * nr + 4);
  }

  /** The code takes the plaintext of the example to its ciphertext. */
  method ExampleC1(key: seq<byte>, p: Block) returns (c: Block)
    requires |key| == 16 && forall i: nat :: i < 16 ==> key[i] == i as byte
    requires p == [0x00, 0x11, 0x22, 0x33, 0x44, 0x55, 0x66, 0x77, 0x88, 0x99, 0xaa, 0xbb, 0xcc, 0xdd, 0xee, 0xff]
    ensures c == [0x69, 0xc4, 0xe0, 0xd8, 0x6a, 0x7b, 0x04, 0x30, 0xd8, 0xcd, 0xb7, 0x80, 0x70, 0xb4, 0xc5, 0x5a]
    ensures c == AesFunction(4, 10, key)(p)
  {
    var keys := ExampleKeys(4, 10, key);
    EncryptTablesAre();
    Input();
    Output();
    ExampleIs(keys, p, 10);
    c := EncryptBlock(EncryptTables(), 10, keys, p);
  }
}
