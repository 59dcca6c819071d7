/** The cipher and the key expansion of FIPS 197, on bytes, for any S-box. Byte r + 4 * c of a state is row r of column c. */
module AesSpec {
  import opened Bytes
  import opened AesTable

  /** A word, as the four bytes it has in the standard. */
  type Word32 = s: seq<byte> | |s| == 4 witness Zeros(4)

  /** Section 5.1.1. */
  function SubBytes(sbox: byte -> byte, s: seq<byte>): (r: seq<byte>)
    ensures |r| == |s|
  {
    seq(|s|, i requires 0 <= i < |s| => sbox(s[i]))
  }

  /** Section 5.1.2: row r moves left by r columns. */
  function ShiftRows(s: Block): Block {
    seq(16, i requires 0 <= i < 16 => s[i % 4 + 4 * ((i / 4 + i % 4) % 4)])
  }

  function Times(c: byte, a: seq<byte>): (r: seq<byte>)
    ensures |r| == |a|
  {
    seq(|a|, i requires 0 <= i < |a| => Product(a[i], c))
  }

  /** The rows of the mixed column, given the column and its products with {02} and {03}. */
  function Mixed(a: seq<byte>, d: seq<byte>, e: seq<byte>): (r: seq<byte>)
    requires |a| == |d| == |e| == 4
    ensures |r| == 4
  {
    [d[0] ^ e[1] ^ a[2] ^ a[3],
     a[0] ^ d[1] ^ e[2] ^ a[3],
     a[0] ^ a[1] ^ d[2] ^ e[3],
     e[0] ^ a[1] ^ a[2] ^ d[3]]
  }

  /** Section 5.1.3: a column, times {03}x^3 + {01}x^2 + {01}x + {02}. */
  function MixColumn(a: seq<byte>): (r: seq<byte>)
    requires |a| == 4
    ensures |r| == 4
  {
    Mixed(a, Times(2, a), Times(3, a))
  }

  function MixColumns(s: Block): Block {
    MixColumn(s[..4]) + MixColumn(s[4..8]) + MixColumn(s[8..12]) + MixColumn(s[12..])
  }

  /** Round `r` for 0 < r < Nr, with its round key. */
  function Round(sbox: byte -> byte, s: Block, key: Block): Block {
    Xor(MixColumns(ShiftRows(SubBytes(sbox, s))), key)
  }

  /** A state, by its columns. */
  function Columns(w0: Word32, w1: Word32, w2: Word32, w3: Word32): Block {
    w0 + w1 + w2 + w3
  }

  function RoundKey(w: seq<Word32>, n: nat): Block
    requires 4 * n + 4 <= |w|
  {
    Columns(w[4 * n], w[4 * n + 1], w[4 * n + 2], w[4 * n + 3])
  }

  function Rounds(sbox: byte -> byte, w: seq<Word32>, s: Block, n: nat): Block
    requires 4 * n + 4 <= |w|
  {
    if n == 0 then Xor(s, RoundKey(w, 0)) else Round(sbox, Rounds(sbox, w, s, n - 1), RoundKey(w, n))
  }

  /** Section 5.1: the cipher with Nr rounds and the key schedule `w`. */
  function Cipher(sbox: byte -> byte, nr: nat, w: seq<Word32>, s: Block): Block
    requires nr > 0 && 4 * nr + 4 <= |w|
  {
    Xor(ShiftRows(SubBytes(sbox, Rounds(sbox, w, s, nr - 1))), RoundKey(w, nr))
  }

  /** Section 5.2: Rcon[j] is [x^(j-1), {00}, {00}, {00}]. */
  function Rcon(j: nat): byte
    requires j > 0
  {
    if j == 1 then 1 else Xtime(Rcon(j - 1))
  }

  function RotWord(a: Word32): Word32 {
    [a[1], a[2], a[3], a[0]]
  }

  /** Word `i` of the key schedule for a key of Nk words. */
  function ScheduleWord(sbox: byte -> byte, key: seq<Word32>, i: nat): Word32
    requires key != []
  {
    var nk := |key|;
    if i < nk then key[i] else
      var temp := ScheduleWord(sbox, key, i - 1);
      var t: Word32 := if i % nk == 0 then Xor(SubBytes(sbox, RotWord(temp)), [Rcon(i / nk), 0, 0, 0])
                       else if nk > 6 && i % nk == 4 then SubBytes(sbox, temp)
                       else temp;
      Xor(ScheduleWord(sbox, key, i - nk), t)
  }

  /** The first `n` words of the key schedule. */
  function Schedule(sbox: byte -> byte, key: seq<Word32>, n: nat): (r: seq<Word32>)
    requires key != []
    ensures |r| == n
  {
    seq(n, i requires 0 <= i < n => ScheduleWord(sbox, key, i))
  }

  // How the round keys enter.

  /** Rounds up to `n` use the first 4 * n + 4 words only. */
  lemma {:induction false} RoundsUse(sbox: byte -> byte, w: seq<Word32>, v: seq<Word32>, s: Block, n: nat)
    requires 4 * n + 4 <= |w| && 4 * n + 4 <= |v| && forall i :: 0 <= i < 4 * n + 4 ==> w[i] == v[i]
    ensures Rounds(sbox, w, s, n) == Rounds(sbox, v, s, n)
  {
    if n > 0 {
      RoundsUse(sbox, w, v, s, n - 1);
    }
  }

  /** What the key of round `n` is added to. */
  function Unkeyed(sbox: byte -> byte, w: seq<Word32>, s: Block, n: nat): Block
    requires 4 * n + 4 <= |w|
  {
    if n == 0 then s else MixColumns(ShiftRows(SubBytes(sbox, Rounds(sbox, w, s, n - 1))))
  }

  lemma RoundsAdd(sbox: byte -> byte, w: seq<Word32>, s: Block, n: nat)
    requires 4 * n + 4 <= |w|
    ensures Rounds(sbox, w, s, n) == Xor(Unkeyed(sbox, w, s, n), RoundKey(w, n))
  {
  }

  lemma KeyByte(w: seq<Word32>, n: nat, i: nat)
    requires 4 * n + 4 <= |w| && i < 16
    ensures RoundKey(w, n)[i] == w[4 * n + i / 4][i % 4]
  {
    var j := 4 * n;
    ColumnByte(w[j], w[j + 1], w[j + 2], w[j + 3], i);
  }

  lemma ColumnByte(w0: Word32, w1: Word32, w2: Word32, w3: Word32, i: nat)
    requires i < 16
    ensures Columns(w0, w1, w2, w3)[i] == [w0, w1, w2, w3][i / 4][i % 4]
  {
    if i < 4 {
    } else if i < 8 {
      assert i / 4 == 1 && i % 4 == i - 4;
    } else if i < 12 {
      assert i / 4 == 2 && i % 4 == i - 8;
    } else {
      assert i / 4 == 3 && i % 4 == i - 12;
    }
  }

  /** `d` is added to word `c` of the key of round `n`. */
  predicate Changed(w: seq<Word32>, v: seq<Word32>, n: nat, c: nat, d: Word32) {
    4 * n + 4 <= |w| && c < 4 && v == w[4 * n + c := Xor(w[4 * n + c], d)]
  }

  lemma ChangedByte(w: seq<Word32>, v: seq<Word32>, n: nat, c: nat, d: Word32, i: nat)
    requires Changed(w, v, n, c, d) && i < 16
    ensures RoundKey(v, n)[i] == RoundKey(w, n)[i] ^ (if i / 4 == c then d[i % 4] else 0)
  {
    KeyByte(v, n, i);
    KeyByte(w, n, i);
    ChangedWord(w, v, 4 * n + c, 4 * n + i / 4, d, i % 4);
  }

  lemma ChangedWord(w: seq<Word32>, v: seq<Word32>, j: nat, k: nat, d: Word32, r: nat)
    requires j < |w| && k < |w| && v == w[j := Xor(w[j], d)] && r < 4
    ensures v[k][r] == w[k][r] ^ (if k == j then d[r] else 0)
  {
    if k != j {
      assert v[k] == w[k];
    }
  }

  /** `a` and `b` differ by `d` in column `c`. */
  predicate Differ(a: Block, b: Block, c: nat, d: Word32) {
    forall i :: 0 <= i < 16 ==> a[i] == b[i] ^ (if i / 4 == c then d[i % 4] else 0)
  }

  lemma SumsDiffer(a: Block, b: Block, u: Block, k: Block, l: Block, c: nat, d: Word32)
    requires a == Xor(u, l) && b == Xor(u, k) && Differ(l, k, c, d)
    ensures Differ(a, b, c, d)
  {
    forall i | 0 <= i < 16 ensures a[i] == b[i] ^ (if i / 4 == c then d[i % 4] else 0) {
      SumsDifferAt(a, b, u, k, l, if i / 4 == c then d[i % 4] else 0, i);
    }
  }

  lemma SumsDifferAt(a: Block, b: Block, u: Block, k: Block, l: Block, m: byte, i: nat)
    requires a == Xor(u, l) && b == Xor(u, k) && i < 16 && l[i] == k[i] ^ m
    ensures a[i] == b[i] ^ m
  {
  }

  lemma KeysDiffer(w: seq<Word32>, v: seq<Word32>, n: nat, c: nat, d: Word32)
    requires Changed(w, v, n, c, d)
    ensures Differ(RoundKey(v, n), RoundKey(w, n), c, d)
  {
    forall i | 0 <= i < 16 ensures RoundKey(v, n)[i] == RoundKey(w, n)[i] ^ (if i / 4 == c then d[i % 4] else 0) {
      ChangedByte(w, v, n, c, d, i);
    }
  }

  lemma UnkeyedSame(sbox: byte -> byte, w: seq<Word32>, v: seq<Word32>, s: Block, n: nat)
    requires 4 * n + 4 <= |w| == |v| && forall i :: 0 <= i < 4 * n ==> w[i] == v[i]
    ensures Unkeyed(sbox, w, s, n) == Unkeyed(sbox, v, s, n)
  {
    if n > 0 {
      RoundsUse(sbox, w, v, s, n - 1);
    }
  }

  lemma ChangedRound(sbox: byte -> byte, w: seq<Word32>, v: seq<Word32>, s: Block, n: nat, c: nat, d: Word32)
    requires Changed(w, v, n, c, d)
    ensures Differ(Rounds(sbox, v, s, n), Rounds(sbox, w, s, n), c, d)
  {
    UnkeyedSame(sbox, w, v, s, n);
    RoundsAdd(sbox, v, s, n);
    RoundsAdd(sbox, w, s, n);
    KeysDiffer(w, v, n, c, d);
    SumsDiffer(Rounds(sbox, v, s, n), Rounds(sbox, w, s, n), Unkeyed(sbox, w, s, n), RoundKey(w, n), RoundKey(v, n), c, d);
  }

  /** Adding to a word of the key of round `n` adds the same to that column of the state after the round, and changes nothing
      before it. */
  lemma RoundKeyEnters(sbox: byte -> byte, w: seq<Word32>, s: Block, n: nat, c: nat, d: Word32)
    requires 4 * n + 4 <= |w| && c < 4
    ensures var v := w[4 * n + c := Xor(w[4 * n + c], d)];
            && (forall i :: 0 <= i < 16 ==> Rounds(sbox, v, s, n)[i] == Rounds(sbox, w, s, n)[i] ^ (if i / 4 == c then d[i % 4] else 0))
            && forall m: nat :: m < n ==> Rounds(sbox, v, s, m) == Rounds(sbox, w, s, m)
  {
    var v := w[4 * n + c := Xor(w[4 * n + c], d)];
    forall m: nat | m < n ensures Rounds(sbox, v, s, m) == Rounds(sbox, w, s, m) {
      RoundsUse(sbox, v, w, s, m);
    }
    ChangedRound(sbox, w, v, s, n, c, d);
  }

  /** What the last round key is added to. */
  function Mixless(sbox: byte -> byte, nr: nat, w: seq<Word32>, s: Block): Block
    requires nr > 0 && 4 * nr + 4 <= |w|
  {
    ShiftRows(SubBytes(sbox, Rounds(sbox, w, s, nr - 1)))
  }

  lemma CipherAdds(sbox: byte -> byte, nr: nat, w: seq<Word32>, s: Block)
    requires nr > 0 && 4 * nr + 4 <= |w|
    ensures Cipher(sbox, nr, w, s) == Xor(Mixless(sbox, nr, w, s), RoundKey(w, nr))
  {
  }

  lemma UnkeyedLast(sbox: byte -> byte, nr: nat, w: seq<Word32>, v: seq<Word32>, s: Block)
    requires nr > 0 && 4 * nr + 4 <= |w| == |v| && forall i :: 0 <= i < 4 * nr ==> w[i] == v[i]
    ensures Mixless(sbox, nr, w, s) == Mixless(sbox, nr, v, s)
  {
    RoundsUse(sbox, w, v, s, nr - 1);
  }

  lemma ChangedLast(sbox: byte -> byte, nr: nat, w: seq<Word32>, v: seq<Word32>, s: Block, c: nat, d: Word32)
    requires nr > 0 && Changed(w, v, nr, c, d)
    ensures Differ(Cipher(sbox, nr, v, s), Cipher(sbox, nr, w, s), c, d)
  {
    UnkeyedLast(sbox, nr, w, v, s);
    CipherAdds(sbox, nr, v, s);
    CipherAdds(sbox, nr, w, s);
    KeysDiffer(w, v, nr, c, d);
    SumsDiffer(Cipher(sbox, nr, v, s), Cipher(sbox, nr, w, s), Mixless(sbox, nr, w, s), RoundKey(w, nr), RoundKey(v, nr), c, d);
  }

  /** And the last round key enters the output in the same way. */
  lemma LastKeyEnters(sbox: byte -> byte, nr: nat, w: seq<Word32>, s: Block, c: nat, d: Word32)
    requires nr > 0 && 4 * nr + 4 <= |w| && c < 4
    ensures var v := w[4 * nr + c := Xor(w[4 * nr + c], d)];
            forall i :: 0 <= i < 16 ==> Cipher(sbox, nr, v, s)[i] == Cipher(sbox, nr, w, s)[i] ^ (if i / 4 == c then d[i % 4] else 0)
  {
    var v := w[4 * nr + c := Xor(w[4 * nr + c], d)];
    ChangedLast(sbox, nr, w, v, s, c, d);
  }
}
