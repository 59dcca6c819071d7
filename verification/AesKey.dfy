/** aes-set-key-internal.c: the key expansion. */
module AesKey {
  import opened Bytes
  import opened AesTable
  import opened AesSpec
  import opened Aes
  import opened Division

  /** The static table of round constants. */
  const RCON: seq<byte> := [0x01, 0x02, 0x04, 0x08, 0x10, 0x20, 0x40, 0x80, 0x1b, 0x36]

  lemma {:induction false} RconIs(j: nat)
    requires 1 <= j <= 10
    ensures RCON[j - 1] == Rcon(j)
  {
    if j > 1 {
      RconIs(j - 1);
    }
  }

  /** The words of a key. */
  function KeyWords(key: seq<byte>): seq<Word32>
    requires |key| % 4 == 0
  {
    seq(|key| / 4, i requires 0 <= i < |key| / 4 => key[4 * i..4 * i + 4])
  }

  /** How many words _nettle_aes_set_key writes. */
  function Written(nr: nat, nk: nat): nat {
    if 4 * (nr + 1) < nk then nk else 4 * (nr + 1)
  }

  lemma DivStep(i: nat, nk: nat)
    requires nk > 0 && i > 0
    ensures i % nk == 0 ==> (i - 1) / nk + 1 == i / nk
    ensures i % nk != 0 ==> (i - 1) / nk == i / nk
  {
    var q, r := i / nk, i % nk;
    assert i == q * nk + r;
    if r == 0 {
      assert i - 1 == (q - 1) * nk + (nk - 1);
      DivUnique(i - 1, nk, q - 1, nk - 1);
    } else {
      assert i - 1 == q * nk + (r - 1);
      DivUnique(i - 1, nk, q, r - 1);
    }
  }

  /** The temporary word of the expansion loop, from the word before it. */
  method NextTemp(box: byte -> byte, ghost key: seq<Word32>, nk: nat, i: nat, rp: nat, prev: Word32) returns (t: Word32, rp': nat)
    requires nk == |key| > 0 && i >= nk && rp == (i - 1) / nk && i / nk <= 10
    requires prev == ScheduleWord(box, key, i - 1)
    ensures Xor(ScheduleWord(box, key, i - nk), t) == ScheduleWord(box, key, i) && rp' == i / nk
    ensures 1 <= i / nk && forall r :: 0 <= r < 4 ==> t[r] == if i % nk == 0 then box(prev[(r + 1) % 4]) ^ (if r == 0 then RCON[i / nk - 1] else 0)
                                                             else if nk > 6 && i % nk == 4 then box(prev[r]) else prev[r]
  {
    t, rp' := prev, rp;
    DivStep(i, nk);
    if i % nk == 0 {
      RconIs(i / nk);
      t := Xor(SubBytes(box, RotWord(t)), [RCON[rp], 0, 0, 0]);
      forall r: nat | r < 4 ensures t[r] == box(prev[(r + 1) % 4]) ^ (if r == 0 then RCON[rp] else 0) {
        FirstTemp(box, prev, RCON[rp], r);
      }
      rp' := rp + 1;
    } else if nk > 6 && i % nk == 4 {
      t := SubBytes(box, t);
    }
  }

  /** Byte `r` of word `i` is one of its four: what the byte equations are instantiated with. */
  predicate InWord(i: nat, r: nat) {
    r < 4
  }

  lemma FirstByte(box: byte -> byte, key: seq<Word32>, i: nat, r: nat)
    requires key != [] && i >= |key| && i % |key| == 0 && r < 4
    ensures ScheduleWord(box, key, i)[r]
         == ScheduleWord(box, key, i - |key|)[r] ^ (box(ScheduleWord(box, key, i - 1)[(r + 1) % 4]) ^ (if r == 0 then Rcon(i / |key|) else 0))
  {
    var temp, c := ScheduleWord(box, key, i - 1), Rcon(i / |key|);
    FirstTemp(box, temp, c, r);
    FirstWord(box, key, i, temp, c);
  }

  lemma FirstWord(box: byte -> byte, key: seq<Word32>, i: nat, temp: Word32, c: byte)
    requires key != [] && i >= |key| && i % |key| == 0 && temp == ScheduleWord(box, key, i - 1) && c == Rcon(i / |key|)
    ensures ScheduleWord(box, key, i) == Xor(ScheduleWord(box, key, i - |key|), Xor(SubBytes(box, RotWord(temp)), [c, 0, 0, 0]))
  {
  }

  lemma FirstTemp(box: byte -> byte, temp: Word32, c: byte, r: nat)
    requires r < 4
    ensures Xor(SubBytes(box, RotWord(temp)), [c, 0, 0, 0])[r] == box(temp[(r + 1) % 4]) ^ (if r == 0 then c else 0)
  {
    var s, k := SubBytes(box, RotWord(temp)), [c, 0, 0, 0];
    match r
    case 0 => assert s[0] == box(temp[1]) && k[0] == c;
    case 1 => assert s[1] == box(temp[2]) && k[1] == 0;
    case 2 => assert s[2] == box(temp[3]) && k[2] == 0;
    case 3 => assert s[3] == box(temp[0]) && k[3] == 0;
  }

  lemma SubByte(box: byte -> byte, key: seq<Word32>, i: nat, r: nat)
    requires |key| > 6 && i >= |key| && i % |key| == 4 && r < 4
    ensures ScheduleWord(box, key, i)[r] == ScheduleWord(box, key, i - |key|)[r] ^ box(ScheduleWord(box, key, i - 1)[r])
  {
    assert ScheduleWord(box, key, i) == Xor(ScheduleWord(box, key, i - |key|), SubBytes(box, ScheduleWord(box, key, i - 1)));
  }

  lemma SumByte(box: byte -> byte, key: seq<Word32>, i: nat, r: nat)
    requires key != [] && i >= |key| && i % |key| != 0 && (|key| > 6 ==> i % |key| != 4) && r < 4
    ensures ScheduleWord(box, key, i)[r] == ScheduleWord(box, key, i - |key|)[r] ^ ScheduleWord(box, key, i - 1)[r]
  {
    assert ScheduleWord(box, key, i) == Xor(ScheduleWord(box, key, i - |key|), ScheduleWord(box, key, i - 1));
  }

  /** The byte equations of section 5.2 of FIPS 197. */
  lemma ScheduleByte(box: byte -> byte, key: seq<Word32>, i: nat, r: nat)
    requires key != [] && i >= |key| && i / |key| <= 10 && r < 4
    ensures ScheduleWord(box, key, i)[r] == ScheduleWord(box, key, i - |key|)[r]
              ^ (if i % |key| == 0 then box(ScheduleWord(box, key, i - 1)[(r + 1) % 4]) ^ (if r == 0 then RCON[i / |key| - 1] else 0)
                 else if |key| > 6 && i % |key| == 4 then box(ScheduleWord(box, key, i - 1)[r])
                 else ScheduleWord(box, key, i - 1)[r])
  {
    if i % |key| == 0 {
      RconIs(i / |key|);
      FirstByte(box, key, i, r);
    } else if |key| > 6 && i % |key| == 4 {
      SubByte(box, key, i, r);
    } else {
      SumByte(box, key, i, r);
    }
  }

  /** The same for words that are those of the schedule. */
  lemma ExpandedByte(s: seq<Word32>, box: byte -> byte, key: seq<Word32>, i: nat, r: nat)
    requires key != [] && |key| <= i < |s| && i / |key| <= 10 && r < 4
    requires s[i] == ScheduleWord(box, key, i) && s[i - 1] == ScheduleWord(box, key, i - 1) && s[i - |key|] == ScheduleWord(box, key, i - |key|)
    ensures s[i][r] == s[i - |key|][r] ^ (if i % |key| == 0 then box(s[i - 1][(r + 1) % 4]) ^ (if r == 0 then RCON[i / |key| - 1] else 0)
                                          else if |key| > 6 && i % |key| == 4 then box(s[i - 1][r])
                                          else s[i - 1][r])
  {
    ScheduleByte(box, key, i, r);
  }

  /** The first `i` words are in place, and the others as they were. */
  ghost predicate Expanded(subkeys: seq<Word32>, was: seq<Word32>, box: byte -> byte, w: seq<Word32>, i: nat) {
    && w != [] && i <= |subkeys| == |was|
    && (forall j :: 0 <= j < i ==> subkeys[j] == ScheduleWord(box, w, j))
    && (forall j :: i <= j < |was| ==> subkeys[j] == was[j])
  }

  /** The first loop: the words of the key itself. */
  method LoadKey(box: byte -> byte, nk: nat, subkeys: array<Word32>, key: seq<byte>, ghost w: seq<Word32>, ghost was: seq<Word32>)
    requires nk != 0 && |key| == 4 * nk && nk <= subkeys.Length && w == KeyWords(key) && was == subkeys[..]
    modifies subkeys
    ensures Expanded(subkeys[..], was, box, w, nk)
  {
    var i := 0;
    while i < nk
      invariant 0 <= i <= nk && Expanded(subkeys[..], was, box, w, i)
    {
      subkeys[i] := key[4 * i..4 * i + 4];
      i := i + 1;
    }
    assert i == nk;
  }

  /** The body of the expansion loop. */
  method ExpandWord(box: byte -> byte, nk: nat, subkeys: array<Word32>, i: nat, rp: nat, ghost last: nat, ghost w: seq<Word32>, ghost was: seq<Word32>) returns (rp': nat)
    requires nk == |w| && 0 < nk <= i < subkeys.Length && i <= last && last / nk <= 10 && rp == (i - 1) / nk
    requires Expanded(subkeys[..], was, box, w, i)
    modifies subkeys
    ensures Expanded(subkeys[..], was, box, w, i + 1) && rp' == i / nk
  {
    DivMonotone(i, last, nk);
    var prev, back := subkeys[i - 1], subkeys[i - nk];
    assert prev == subkeys[..][i - 1] && back == subkeys[..][i - nk];
    var t;
    t, rp' := NextTemp(box, w, nk, i, rp, prev);
    subkeys[i] := Xor(back, t);
  }

  /** The two loops. */
  method Expand(box: byte -> byte, nr: nat, nk: nat, subkeys: array<Word32>, key: seq<byte>)
    requires nk != 0 && |key| == 4 * nk && Written(nr, nk) <= subkeys.Length
    requires (4 * nr + 3) / nk <= 10
    modifies subkeys
    ensures Expanded(subkeys[..], old(subkeys[..]), box, KeyWords(key), Written(nr, nk))
  {
    ghost var w, was := KeyWords(key), subkeys[..];
    LoadKey(box, nk, subkeys, key, w, was);
    var lastkey := 4 * (nr + 1);
    var i, rp := nk, 0;
    DivUnique(nk - 1, nk, 0, nk - 1);
    while i < lastkey
      invariant nk <= i && (i <= lastkey || i == nk) && rp == (i - 1) / nk
      invariant Expanded(subkeys[..], was, box, w, i)
    {
      rp := ExpandWord(box, nk, subkeys, i, rp, 4 * nr + 3, w, was);
      i := i + 1;
    }
    assert i == Written(nr, nk);
  }

  lemma InRange(nk: nat, i: nat, last: nat)
    requires 0 < nk <= i <= last && last / nk <= 10
    ensures 1 <= i / nk <= 10
  {
    DivMonotone(i, last, nk);
    DivMonotone(nk, i, nk);
    DivUnique(nk, nk, 1, 0);
  }

  lemma KeyByte(s: seq<Word32>, was: seq<Word32>, box: byte -> byte, key: seq<byte>, nk: nat, n: nat, i: nat, r: nat)
    requires nk != 0 && |key| == 4 * nk && nk <= n && Expanded(s, was, box, KeyWords(key), n) && i < nk && r < 4
    ensures s[i][r] == key[4 * i + r]
  {
    assert s[i] == ScheduleWord(box, KeyWords(key), i) == KeyWords(key)[i];
  }

  lemma LaterByte(s: seq<Word32>, was: seq<Word32>, box: byte -> byte, w: seq<Word32>, nk: nat, n: nat, i: nat, r: nat)
    requires nk == |w| && Expanded(s, was, box, w, n) && nk <= i < n && 1 <= i / nk <= 10 && r < 4
    ensures s[i][r] == s[i - nk][r] ^ (if i % nk == 0 then box(s[i - 1][(r + 1) % 4]) ^ (if r == 0 then RCON[i / nk - 1] else 0)
                                   else if nk > 6 && i % nk == 4 then box(s[i - 1][r]) else s[i - 1][r])
  {
    ExpandedByte(s, box, w, i, r);
  }

  lemma KeyBytes(s: seq<Word32>, was: seq<Word32>, box: byte -> byte, key: seq<byte>, nk: nat, n: nat)
    requires nk != 0 && |key| == 4 * nk && nk <= n && Expanded(s, was, box, KeyWords(key), n)
    ensures forall i: nat, r: nat {:trigger InWord(i, r)} :: i < nk && InWord(i, r) ==> s[i][r] == key[4 * i + r]
  {
    forall i: nat, r: nat {:trigger InWord(i, r)} | i < nk && InWord(i, r) ensures s[i][r] == key[4 * i + r] {
      KeyByte(s, was, box, key, nk, n, i, r);
    }
  }

  lemma InRanges(nk: nat, last: nat)
    requires nk != 0 && last / nk <= 10
    ensures forall i: nat, r: nat {:trigger InWord(i, r)} :: nk <= i <= last && InWord(i, r) ==> 1 <= i / nk <= 10
  {
    forall i: nat, r: nat {:trigger InWord(i, r)} | nk <= i <= last && InWord(i, r) ensures 1 <= i / nk <= 10 {
      InRange(nk, i, last);
    }
  }

  lemma LaterBytes(s: seq<Word32>, was: seq<Word32>, box: byte -> byte, w: seq<Word32>, nk: nat, n: nat, top: nat)
    requires nk == |w| && top <= n && Expanded(s, was, box, w, n)
    requires forall i: nat, r: nat {:trigger InWord(i, r)} :: nk <= i < top && InWord(i, r) ==> 1 <= i / nk <= 10
    ensures forall i: nat, r: nat {:trigger InWord(i, r)} :: nk <= i < top && InWord(i, r) ==>
      s[i][r] == s[i - nk][r] ^ (if i % nk == 0 then box(s[i - 1][(r + 1) % 4]) ^ (if r == 0 then RCON[i / nk - 1] else 0)
                                 else if nk > 6 && i % nk == 4 then box(s[i - 1][r]) else s[i - 1][r])
  {
    forall i: nat, r: nat {:trigger InWord(i, r)} | nk <= i < top && InWord(i, r)
      ensures s[i][r] == s[i - nk][r] ^ (if i % nk == 0 then box(s[i - 1][(r + 1) % 4]) ^ (if r == 0 then RCON[i / nk - 1] else 0)
                                   else if nk > 6 && i % nk == 4 then box(s[i - 1][r]) else s[i - 1][r])
    {
      LaterByte(s, was, box, w, nk, n, i, r);
    }
  }

  /** Section 5.2 of FIPS 197, byte by byte: the first `nk` words of `s` are those of the key, and a later word, up to `top`, is the
      sum of the word `nk` places before it and of the word just before it, which goes through RotWord, the S-box and the addition of
      a round constant at every multiple of `nk`, and through the S-box half-way between when the key has more than six words. */
  ghost predicate IsExpansion(box: byte -> byte, key: seq<byte>, nk: nat, s: seq<Word32>, top: nat) {
    && 0 < nk && |key| == 4 * nk && nk <= |s| && top <= |s|
    && (forall i: nat, r: nat {:trigger InWord(i, r)} :: i < nk && InWord(i, r) ==> s[i][r] == key[4 * i + r])
    && (forall i: nat, r: nat {:trigger InWord(i, r)} :: nk <= i < top && InWord(i, r) ==> 1 <= i / nk <= 10)
    && (forall i: nat, r: nat {:trigger InWord(i, r)} :: nk <= i < top && InWord(i, r) ==>
          s[i][r] == s[i - nk][r] ^ (if i % nk == 0 then box(s[i - 1][(r + 1) % 4]) ^ (if r == 0 then RCON[i / nk - 1] else 0)
                                     else if nk > 6 && i % nk == 4 then box(s[i - 1][r]) else s[i - 1][r]))
  }

  lemma ExpandedBytes(s: seq<Word32>, was: seq<Word32>, box: byte -> byte, key: seq<byte>, w: seq<Word32>, nk: nat, n: nat, top: nat, last: nat)
    requires nk != 0 && |key| == 4 * nk && w == KeyWords(key) && |w| == nk <= n && last + 1 == top <= n && last / nk <= 10 && Expanded(s, was, box, w, n)
    ensures IsExpansion(box, key, nk, s, top)
  {
    InRanges(nk, last);
    KeyBytes(s, was, box, key, nk, n);
    LaterBytes(s, was, box, w, nk, n, top);
  }

  /** _nettle_aes_set_key, for a key of `nk` words and `nr` rounds. The table of round constants suffices
      just when the last word of the schedule is below 11 * nk. */
  method SetKey(box: byte -> byte, nr: nat, nk: nat, subkeys: array<Word32>, key: seq<byte>)
    requires nk != 0 && |key| == 4 * nk && Written(nr, nk) <= subkeys.Length
    requires (4 * nr + 3) / nk <= 10
    modifies subkeys
    ensures Expanded(subkeys[..], old(subkeys[..]), box, KeyWords(key), Written(nr, nk))
    ensures IsExpansion(box, key, nk, subkeys[..], 4 * nr + 4)
  {
    ghost var was := subkeys[..];
    Expand(box, nr, nk, subkeys, key);
    ExpandedBytes(subkeys[..], was, box, key, KeyWords(key), nk, Written(nr, nk), 4 * nr + 4, 4 * nr + 3);
  }
}
