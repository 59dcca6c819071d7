/** memxor.c, memxor3.c and memxor-internal.h: exclusive or of memory areas, a word at a time. */
module MemXor {
  import opened Bytes

  const WORD_SIZE: nat := 8
  const WORD_T_THRESH: nat := 16

  /** A word_t by its eight bytes, in the order they have in memory. */
  type MemWord = s: seq<byte> | |s| == 8 witness Zeros(8)

  /** A shift to the right by `k` bytes: towards the least significant end, which comes first in memory on a little-endian machine. */
  function ShiftRight(e: Endian, w: MemWord, k: nat): MemWord
    requires k <= 8
  {
    match e case Little => w[k..] + Zeros(k) case Big => Zeros(k) + w[..8 - k]
  }

  /** A shift to the left by `k` bytes. */
  function ShiftLeft(e: Endian, w: MemWord, k: nat): MemWord
    requires k <= 8
  {
    match e case Little => Zeros(k) + w[..8 - k] case Big => w[k..] + Zeros(k)
  }

  function OrWord(v: MemWord, w: MemWord): MemWord {
    seq(8, i requires 0 <= i < 8 => v[i] | w[i])
  }

  function FromByte(e: Endian, b: byte): MemWord {
    match e case Little => [b] + Zeros(7) case Big => Zeros(7) + [b]
  }

  /** MERGE, with the shifts given in bytes. */
  function Merge(e: Endian, w0: MemWord, k0: nat, w1: MemWord, k1: nat): MemWord
    requires k0 <= 8 && k1 <= 8
  {
    match e
    case Little => OrWord(ShiftRight(e, w0, k0), ShiftLeft(e, w1, k1))
    case Big => OrWord(ShiftLeft(e, w0, k0), ShiftRight(e, w1, k1))
  }

  lemma OrZero(b: byte)
    ensures b | 0 == b && 0 | b == b
  {
  }

  lemma OrDisjoint(v: MemWord, w: MemWord, k: nat)
    requires 0 < k < 8
    ensures OrWord(v[k..] + Zeros(k), Zeros(8 - k) + w[..k]) == v[k..] + w[..k]
  {
    var s, t := v[k..] + Zeros(k), Zeros(8 - k) + w[..k];
    forall j | 0 <= j < 8 ensures s[j] | t[j] == (v[k..] + w[..k])[j] {
      OrZero(s[j]);
      OrZero(t[j]);
    }
  }

  /** MERGE yields the word that begins `k` bytes into the first of two adjacent words. */
  lemma MergeMem(e: Endian, w0: MemWord, w1: MemWord, k: nat)
    requires 0 < k < 8
    ensures Merge(e, w0, k, w1, 8 - k) == w0[k..] + w1[..k]
  {
    OrDisjoint(w0, w1, k);
  }

  /** READ_PARTIAL: the `n` bytes at `p` in the low end of a word, in native byte order. */
  method ReadPartial(e: Endian, p: seq<byte>, n: nat) returns (r: MemWord)
    requires 0 < n <= 8 && n <= |p|
    ensures match e case Little => r[..n] == p[..n] case Big => r[8 - n..] == p[..n]
  {
    match e
    case Little => r := ReadDown(p, n);
    case Big => r := ReadUp(p, n);
  }

  /** Its loop on a little-endian machine, */
  method ReadDown(p: seq<byte>, n: nat) returns (r: MemWord)
    requires 0 < n <= 8 && n <= |p|
    ensures r[..n] == p[..n]
  {
    var i := n - 1;
    r := FromByte(Little, p[i]);
    while i > 0
      invariant 0 <= i < n && r[..n - i] == p[i..n]
    {
      i := i - 1;
      LowStep(r, n - i, p, i, n);
      r := OrLow(Little, r, p[i]);
    }
  }

  lemma LowStep(r: MemWord, k: nat, p: seq<byte>, i: nat, n: nat)
    requires i < n <= |p| && 0 < k <= 8 && k == n - i && r[..k - 1] == p[i + 1..n]
    ensures ([p[i]] + r[..7])[..k] == p[i..n]
  {
    assert ([p[i]] + r[..7])[..k] == [p[i]] + r[..k - 1];
  }

  /** and on a big-endian one. */
  method ReadUp(p: seq<byte>, n: nat) returns (r: MemWord)
    requires 0 < n <= 8 && n <= |p|
    ensures r[8 - n..] == p[..n]
  {
    r := FromByte(Big, p[0]);
    var i := 1;
    while i < n
      invariant 1 <= i <= n && r[8 - i..] == p[..i]
    {
      HighStep(r, i, p);
      r := OrLow(Big, r, p[i]);
      i := i + 1;
    }
  }

  lemma HighStep(r: MemWord, i: nat, p: seq<byte>)
    requires 0 < i < 8 && i < |p| && r[8 - i..] == p[..i]
    ensures (r[1..] + [p[i]])[8 - (i + 1)..] == p[..i + 1]
  {
    assert (r[1..] + [p[i]])[7 - i..] == r[8 - i..] + [p[i]];
  }

  /** One more byte at the low end of a word that is being put together. */
  method OrLow(e: Endian, r: MemWord, b: byte) returns (w: MemWord)
    ensures w == match e case Little => [b] + r[..7] case Big => r[1..] + [b]
  {
    w := OrWord(ShiftLeft(e, r, 1), FromByte(e, b));
    var s, t := ShiftLeft(e, r, 1), FromByte(e, b);
    forall j | 0 <= j < 8 ensures w[j] == (match e case Little => [b] + r[..7] case Big => r[1..] + [b])[j] {
      OrZero(s[j]);
      OrZero(t[j]);
    }
  }

  /** A C pointer into an area of memory: `base` is the address of the first byte of the area. */
  datatype Ptr = Ptr(mem: array<byte>, at: nat, base: nat)

  /** ALIGN_OFFSET of the place `n` bytes further on: how far it lies behind a word boundary. */
  function AlignOffset(p: Ptr, n: nat): (r: nat)
    ensures r < WORD_SIZE
  {
    (p.base + p.at + n) % WORD_SIZE
  }

  /** A word can be accessed at `p`, and at every multiple of eight bytes from there. */
  predicate Aligned(p: Ptr) {
    AlignOffset(p, 0) == 0
  }

  /** dst = x ^ y, on `n` bytes: the contents of the three areas at the start, where in them the bytes are,
      and the destination's area once the bytes from a given offset on have been written. */
  datatype Job = Job(was: seq<byte>, d: nat, x: seq<byte>, p: nat, y: seq<byte>, q: nat, n: nat, states: nat -> seq<byte>) {
    predicate Valid() {
      d + n <= |was| && p + n <= |x| && q + n <= |y|
    }

    /** The same job with the operands exchanged. */
    function Swapped(): Job {
      Job(was, d, y, q, x, p, n, states)
    }

    /** What has to be written. */
    function Wanted(): (r: seq<byte>)
      requires Valid()
      ensures |r| == n
    {
      Xor(x[p..p + n], y[q..q + n])
    }

    /** The states are what they should be. Only the two methods that access memory look into this. */
    ghost predicate Follows()
      requires Valid()
    {
      forall i: nat {:trigger Done(i)} :: i <= n ==> states(i) == Done(i)
    }

    /** The destination's area, once everything from offset `i` on has been written. */
    function Done(i: nat): (r: seq<byte>)
      requires Valid() && i <= n
      ensures |r| == |was|
      decreases n - i
    {
      if i == n then was else Done(i + 1)[d + i := x[p + i] ^ y[q + i]]
    }

    lemma {:induction false} DoneAt(i: nat, k: nat)
      requires Valid() && i <= n && k < |was|
      ensures Done(i)[k] == if d + i <= k < d + n then x[p + k - d] ^ y[q + k - d] else was[k]
      decreases n - i
    {
      if i < n {
        DoneAt(i + 1, k);
      }
    }

    /** In the end the destination holds the XOR of the operands, and nothing else has changed. */
    lemma AllDone()
      requires Valid()
      ensures Done(0) == Splice(was, d, Wanted())
    {
      forall k | 0 <= k < |was| ensures Done(0)[k] == Splice(was, d, Wanted())[k] {
        DoneAt(0, k);
      }
    }

    lemma DoneStep(i: nat, s: seq<byte>)
      requires Valid() && i + |s| <= n
      requires forall j :: 0 <= j < |s| ==> s[j] == x[p + i + j] ^ y[q + i + j]
      ensures Splice(Done(i + |s|), d + i, s) == Done(i)
    {
      var now, next := Done(i + |s|), Done(i);
      forall k | 0 <= k < |was| ensures Splice(now, d + i, s)[k] == next[k] {
        DoneAt(i + |s|, k);
        DoneAt(i, k);
      }
    }

    lemma StateStep(i: nat, s: seq<byte>)
      requires Valid() && Follows() && i + |s| <= n && s == Xor(x[p + i..p + i + |s|], y[q + i..q + i + |s|])
      ensures |states(i + |s|)| == |was| && Splice(states(i + |s|), d + i, s) == states(i)
    {
      assert states(i + |s|) == Done(i + |s|) && states(i) == Done(i);
      DoneStep(i, s);
    }

    /** Below offset `i` nothing has changed. */
    lemma DoneRest(i: nat, lo: nat, hi: nat)
      requires Valid() && i <= n && lo <= hi <= d + i
      ensures Done(i)[lo..hi] == was[lo..hi]
    {
      forall k | lo <= k < hi ensures Done(i)[k] == was[k] {
        DoneAt(i, k);
      }
    }
  }

  /** An operand is in another area than the destination, untouched, or in the same area, where it begins no later than the
      destination does: it may be the destination, or overlap its start. */
  ghost predicate Operand(dst: Ptr, p: Ptr, was: seq<byte>, z: seq<byte>, at: nat)
    reads p.mem
  {
    p.at == at && if p.mem != dst.mem then p.mem[..] == z else p.base == dst.base && p.at <= dst.at && z == was
  }

  /** The state of all the loops: the job is done from offset `i` on, and the operands are as they were. */
  ghost predicate Run(dst: Ptr, a: Ptr, b: Ptr, t: Job, i: nat)
    reads dst.mem, a.mem, b.mem
  {
    && t.Valid() && t.Follows() && dst.at == t.d && i <= t.n
    && Operand(dst, a, t.was, t.x, t.p) && Operand(dst, b, t.was, t.y, t.q)
    && dst.mem[..] == t.states(i)
  }

  /** Write the bytes of the result from offset `i` on. */
  method Put(dst: Ptr, ghost a: Ptr, ghost b: Ptr, i: nat, s: seq<byte>, ghost t: Job)
    requires i + |s| <= t.n && Run(dst, a, b, t, i + |s|)
    requires s == Xor(t.x[t.p + i..t.p + i + |s|], t.y[t.q + i..t.q + i + |s|])
    modifies dst.mem
    ensures Run(dst, a, b, t, i)
  {
    t.StateStep(i, s);
    Store(dst.mem, dst.at + i, s);
  }

  /** An operand can be read below offset `j`: the destination has been written from there on only. */
  ghost predicate Readable(dst: Ptr, p: Ptr, t: Job, z: seq<byte>, j: nat)
    reads dst.mem, p.mem
  {
    t.Valid() && t.Follows() && dst.at == t.d && j <= t.n && dst.mem[..] == t.states(j) && Operand(dst, p, t.was, z, p.at)
  }

  /** Read `m` bytes of an operand from `lo` on. */
  method Get(dst: Ptr, p: Ptr, lo: nat, m: nat, ghost t: Job, ghost z: seq<byte>, ghost j: nat) returns (s: seq<byte>)
    requires Readable(dst, p, t, z, j) && lo + m <= p.at + j && lo + m <= |z|
    ensures s == z[lo..lo + m]
  {
    assert t.states(j) == t.Done(j);
    s := p.mem[lo..lo + m];
    assert s == p.mem[..][lo..lo + m];
    if p.mem == dst.mem {
      t.DoneRest(j, lo, lo + m);
    }
  }

  /** Store word `m`. */
  method PutWord(dst: Ptr, ghost a: Ptr, ghost b: Ptr, m: nat, w: MemWord, ghost t: Job)
    requires Aligned(dst)
    requires 8 * m + 8 <= t.n && Run(dst, a, b, t, 8 * m + 8)
    requires w == Xor(t.x[t.p + 8 * m..t.p + 8 * m + 8], t.y[t.q + 8 * m..t.q + 8 * m + 8])
    modifies dst.mem
    ensures Run(dst, a, b, t, 8 * m)
  {
    assert AlignOffset(dst, 8 * m) == 0;
    Put(dst, a, b, 8 * m, w, t);
  }

  /** Load word `m` of an aligned operand. */
  method GetWord(dst: Ptr, p: Ptr, m: nat, ghost t: Job, ghost z: seq<byte>) returns (w: MemWord)
    requires Aligned(p)
    requires Readable(dst, p, t, z, 8 * m + 8) && p.at + 8 * m + 8 <= |z|
    ensures w == z[p.at + 8 * m..p.at + 8 * m + 8]
  {
    assert AlignOffset(p, 8 * m) == 0;
    w := Get(dst, p, p.at + 8 * m, 8, t, z, 8 * m + 8);
  }

  /** Word `m` of the destination becomes the exclusive or of the two aligned operands' words. */
  method XorAlignedWord(dst: Ptr, a: Ptr, b: Ptr, m: nat, ghost t: Job)
    requires Aligned(dst) && Aligned(a) && Aligned(b)
    requires 8 * m + 8 <= t.n && Run(dst, a, b, t, 8 * m + 8)
    modifies dst.mem
    ensures Run(dst, a, b, t, 8 * m)
  {
    var v := GetWord(dst, a, m, t, t.x);
    var w := GetWord(dst, b, m, t, t.y);
    PutWord(dst, a, b, m, Xor(v, w), t);
  }

  /** The step of the common-alignment functions for an odd number of words. */
  method XorOddWord(dst: Ptr, a: Ptr, b: Ptr, count: nat, ghost t: Job) returns (n: nat)
    requires Aligned(dst) && Aligned(a) && Aligned(b)
    requires t.n == 8 * count && Run(dst, a, b, t, t.n)
    modifies dst.mem
    ensures n == count - count % 2 && Run(dst, a, b, t, 8 * n)
  {
    n := count;
    if n % 2 == 1 {
      n := n - 1;
      XorAlignedWord(dst, a, b, n, t);
    }
  }

  /** The body of the loops of the common-alignment functions. */
  method XorAlignedPair(dst: Ptr, a: Ptr, b: Ptr, n: nat, ghost t: Job)
    requires Aligned(dst) && Aligned(a) && Aligned(b)
    requires 8 * n + 16 <= t.n && Run(dst, a, b, t, 8 * n + 16)
    modifies dst.mem
    ensures Run(dst, a, b, t, 8 * n)
  {
    XorAlignedWord(dst, a, b, n + 1, t);
    XorAlignedWord(dst, a, b, n, t);
  }

  /** memxor3_common_alignment: all operands aligned; `count` is in words. */
  method CommonAlignment(dst: Ptr, a: Ptr, b: Ptr, count: nat, ghost t: Job)
    requires Aligned(dst) && Aligned(a) && Aligned(b)
    requires t.n == 8 * count && Run(dst, a, b, t, t.n)
    modifies dst.mem
    ensures Run(dst, a, b, t, 0)
  {
    var n: nat := XorOddWord(dst, a, b, count, t);
    while n > 0
      invariant n <= count && n % 2 == 0
      invariant Run(dst, a, b, t, 8 * n)
    {
      n := n - 2;
      XorAlignedPair(dst, a, b, n, t);
    }
  }

  /** memxor_common_alignment: the destination is the first operand. */
  method MemXorCommonAlignment(dst: Ptr, src: Ptr, count: nat, ghost t: Job)
    requires Aligned(dst) && Aligned(src)
    requires t.n == 8 * count && Run(dst, dst, src, t, t.n)
    modifies dst.mem
    ensures Run(dst, dst, src, t, 0)
  {
    var n: nat := XorOddWord(dst, dst, src, count, t);
    while n >= 2
      invariant n <= count && n % 2 == 0
      invariant Run(dst, dst, src, t, 8 * n)
    {
      n := n - 2;
      XorAlignedPair(dst, dst, src, n, t);
    }
    assert n == 0;
  }

  /** The first `k` places of `w` hold the bytes of the unaligned operand that lie before offset `i`. */
  ghost predicate HoldsBefore(w: MemWord, k: nat, t: Job, i: nat) {
    k <= 8 && k <= i && t.q + i <= |t.y| && w[..k] == t.y[t.q + i - k..t.q + i]
  }

  /** The places of `w` from `k` on hold the bytes of the unaligned operand from offset `i` on. */
  ghost predicate HoldsFrom(w: MemWord, k: nat, t: Job, i: nat) {
    k <= 8 && t.q + i + 8 - k <= |t.y| && w[k..] == t.y[t.q + i..t.q + i + 8 - k]
  }

  /** A merged word is a word of the unaligned operand. */
  lemma MergedWord(e: Endian, v: MemWord, w: MemWord, k: nat, t: Job, i: nat)
    requires 0 < k < 8 && HoldsFrom(v, k, t, i) && HoldsBefore(w, k, t, i + 8)
    ensures Merge(e, v, k, w, 8 - k) == t.y[t.q + i..t.q + i + 8]
  {
    MergeMem(e, v, w, k);
  }

  function ToTop(e: Endian, r: MemWord, k: nat): MemWord
    requires k <= 8
  {
    if e.Big? then ShiftLeft(e, r, 8 - k) else r
  }

  function ToBottom(e: Endian, r: MemWord, k: nat): MemWord
    requires k <= 8
  {
    if e.Little? then ShiftLeft(e, r, k) else r
  }

  /** READ_PARTIAL of the `k` bytes before the end of the area, not yet shifted. */
  method PartialEnd(e: Endian, dst: Ptr, b: Ptr, k: nat, n: nat, ghost t: Job) returns (r: MemWord)
    requires Readable(dst, b, t, t.y, n) && b.at == t.q && n == t.n && 0 < k < 8 <= n
    ensures HoldsBefore(ToTop(e, r, k), k, t, n)
  {
    var s := Get(dst, b, b.at + n - k, k, t, t.y, n);
    assert s[..k] == s;
    r := ReadPartial(e, s, k);
  }

  /** READ_PARTIAL of the first 8 - k bytes of the area, not yet shifted. */
  method PartialStart(e: Endian, dst: Ptr, b: Ptr, k: nat, ghost t: Job) returns (r: MemWord)
    requires Readable(dst, b, t, t.y, 8) && b.at == t.q && 0 < k < 8
    ensures HoldsFrom(ToBottom(e, r, k), k, t, 0)
  {
    var s := Get(dst, b, b.at, 8 - k, t, t.y, 8);
    assert s[..8 - k] == s;
    r := ReadPartial(e, s, 8 - k);
  }

  /** The word that ends `k` bytes into the area, of which only those bytes are read. */
  method ReadTop(e: Endian, dst: Ptr, b: Ptr, k: nat, n: nat, ghost t: Job) returns (w: MemWord)
    requires Readable(dst, b, t, t.y, n) && b.at == t.q && n == t.n && 0 < k < 8 <= n
    ensures HoldsBefore(w, k, t, n)
  {
    var r := PartialEnd(e, dst, b, k, n, t);
    w := ToTop(e, r, k);
  }

  /** The word that begins `k` bytes before the area, of which only the other bytes are read. */
  method ReadBottom(e: Endian, dst: Ptr, b: Ptr, k: nat, ghost t: Job) returns (w: MemWord)
    requires Readable(dst, b, t, t.y, 8) && b.at == t.q && 0 < k < 8
    ensures HoldsFrom(w, k, t, 0)
  {
    var r := PartialStart(e, dst, b, k, t);
    w := ToBottom(e, r, k);
  }

  /** Read a word of the area rounded down to a word boundary, which is `k` bytes before the area. */
  method ReadAround(dst: Ptr, b: Ptr, k: nat, m: nat, ghost t: Job, ghost j: nat) returns (w: MemWord)
    requires AlignOffset(b, 0) == k
    requires Readable(dst, b, t, t.y, j) && b.at == t.q && 0 < k < 8 && m > 0 && 8 * m + 8 - k <= j
    ensures HoldsFrom(w, k, t, 8 * m) && HoldsBefore(w, k, t, 8 * m)
  {
    assert (b.base + b.at + 8 * m - k) % WORD_SIZE == 0;
    w := Get(dst, b, b.at + 8 * m - k, 8, t, t.y, j);
  }

  /** Word `m` of the destination becomes the aligned operand's word, exclusive or the word merged from two of the other's. */
  method XorMergedWord(e: Endian, dst: Ptr, a: Ptr, b: Ptr, m: nat, v: MemWord, w: MemWord, k: nat, ghost t: Job)
    requires Aligned(dst) && Aligned(a)
    requires 0 < k < 8 && 8 * m + 8 <= t.n && Run(dst, a, b, t, 8 * m + 8)
    requires HoldsFrom(v, k, t, 8 * m) && HoldsBefore(w, k, t, 8 * m + 8)
    modifies dst.mem
    ensures Run(dst, a, b, t, 8 * m)
  {
    var s := GetWord(dst, a, m, t, t.x);
    MergedWord(e, v, w, k, t, 8 * m);
    PutWord(dst, a, b, m, Xor(s, Merge(e, v, k, w, 8 - k)), t);
  }

  /** The steps before the loop of the functions with one unaligned operand: an odd number of words remains. */
  method XorTopWord(e: Endian, dst: Ptr, a: Ptr, b: Ptr, k: nat, count: nat, ghost t: Job) returns (n: nat, s1: MemWord)
    requires Aligned(dst) && Aligned(a) && AlignOffset(b, 0) == k
    requires count > 0 && 0 < k < 8 && t.n == 8 * count && Run(dst, a, b, t, t.n)
    modifies dst.mem
    ensures 1 <= n <= count && n % 2 == 1 && Run(dst, a, b, t, 8 * n) && HoldsBefore(s1, k, t, 8 * n)
  {
    n := count;
    var s0 := ReadTop(e, dst, b, k, 8 * count, t);
    if n % 2 == 1 {
      s1 := s0;
    } else {
      n := n - 1;
      s1 := ReadAround(dst, b, k, n, t, 8 * count);
      XorMergedWord(e, dst, a, b, n, s1, s0, k, t);
    }
  }

  /** The body of the loop of the functions with one unaligned operand: the words `m + 1` and `m`. */
  method XorMergedPair(e: Endian, dst: Ptr, a: Ptr, b: Ptr, m: nat, s: MemWord, k: nat, ghost t: Job) returns (s1: MemWord)
    requires Aligned(dst) && Aligned(a) && AlignOffset(b, 0) == k
    requires m > 0 && 0 < k < 8 && 8 * m + 16 <= t.n && Run(dst, a, b, t, 8 * m + 16)
    requires HoldsBefore(s, k, t, 8 * m + 16)
    modifies dst.mem
    ensures Run(dst, a, b, t, 8 * m) && HoldsBefore(s1, k, t, 8 * m)
  {
    var s0 := ReadAround(dst, b, k, m + 1, t, 8 * m + 16);
    XorMergedWord(e, dst, a, b, m + 1, s0, s, k, t);
    s1 := ReadAround(dst, b, k, m, t, 8 * m + 8);
    XorMergedWord(e, dst, a, b, m, s1, s0, k, t);
  }

  /** The step after the loop of the functions with one unaligned operand: the first word. */
  method XorBottomWord(e: Endian, dst: Ptr, a: Ptr, b: Ptr, s1: MemWord, k: nat, ghost t: Job)
    requires Aligned(dst) && Aligned(a) && AlignOffset(b, 0) == k
    requires 0 < k < 8 <= t.n && Run(dst, a, b, t, 8) && HoldsBefore(s1, k, t, 8)
    modifies dst.mem
    ensures Run(dst, a, b, t, 0)
  {
    var s0 := ReadBottom(e, dst, b, k, t);
    XorMergedWord(e, dst, a, b, 0, s0, s1, k, t);
  }

  /** memxor3_different_alignment_b: `b` lies `k` bytes after a word boundary, the others are aligned. No word is
      read that is not inside `b`: its two ends are read byte by byte. */
  method DifferentAlignmentB(e: Endian, dst: Ptr, a: Ptr, b: Ptr, k: nat, count: nat, ghost t: Job)
    requires Aligned(dst) && Aligned(a) && AlignOffset(b, 0) == k
    requires count > 0 && 0 < k < 8 && t.n == 8 * count && Run(dst, a, b, t, t.n)
    modifies dst.mem
    ensures Run(dst, a, b, t, 0)
  {
    var n, s1 := XorTopWord(e, dst, a, b, k, count, t);
    ghost var h := n / 2;
    while n > 2
      invariant n == 2 * h + 1 && 0 <= h && n <= count
      invariant Run(dst, a, b, t, 8 * n)
      invariant HoldsBefore(s1, k, t, 8 * n)
    {
      n, h := n - 2, h - 1;
      s1 := XorMergedPair(e, dst, a, b, n, s1, k, t);
    }
    assert n == 1;
    XorBottomWord(e, dst, a, b, s1, k, t);
  }

  /** memxor_different_alignment: an unaligned source, and the aligned destination as first operand. */
  method MemXorDifferentAlignment(e: Endian, dst: Ptr, src: Ptr, count: nat, ghost t: Job)
    requires Aligned(dst) && 0 < AlignOffset(src, 0)
    requires count > 0 && t.n == 8 * count && Run(dst, dst, src, t, t.n)
    modifies dst.mem
    ensures Run(dst, dst, src, t, 0)
  {
    var offset := AlignOffset(src, 0);
    var n, s1 := XorTopWord(e, dst, dst, src, offset, count, t);
    assert n % 2 == 1;
    ghost var h := n / 2;
    while n > 2
      invariant n == 2 * h + 1 && 0 <= h && n <= count
      invariant Run(dst, dst, src, t, 8 * n)
      invariant HoldsBefore(s1, offset, t, 8 * n)
    {
      n, h := n - 2, h - 1;
      s1 := XorMergedPair(e, dst, dst, src, n, s1, offset, t);
    }
    assert n == 1;
    XorBottomWord(e, dst, dst, src, s1, offset, t);
  }

  /** HoldsBefore and HoldsFrom for a word that is the XOR of one word of each operand; `z` is the XOR of both. */
  ghost predicate BothBefore(w: MemWord, k: nat, z: seq<byte>, i: nat) {
    k <= 8 && k <= i <= |z| && w[..k] == z[i - k..i]
  }

  ghost predicate BothFrom(w: MemWord, k: nat, z: seq<byte>, i: nat) {
    k <= 8 && i + 8 - k <= |z| && w[k..] == z[i..i + 8 - k]
  }

  lemma XorFront(v: MemWord, w: MemWord, k: nat, x: seq<byte>, y: seq<byte>)
    requires k <= 8 && v[..k] == x && w[..k] == y
    ensures Xor(v, w)[..k] == Xor(x, y)
  {
    var s, r := Xor(v, w)[..k], Xor(x, y);
    forall j | 0 <= j < k ensures s[j] == r[j] {
      assert v[j] == x[j] && w[j] == y[j];
    }
  }

  lemma XorBack(v: MemWord, w: MemWord, k: nat, x: seq<byte>, y: seq<byte>)
    requires k <= 8 && v[k..] == x && w[k..] == y
    ensures Xor(v, w)[k..] == Xor(x, y)
  {
    var s, r := Xor(v, w)[k..], Xor(x, y);
    forall j | 0 <= j < 8 - k ensures s[j] == r[j] {
      assert v[k + j] == x[j] && w[k + j] == y[j];
    }
  }

  lemma WantedSlice(t: Job, z: seq<byte>, i: nat, j: nat)
    requires t.Valid() && i <= j <= t.n && z == t.Wanted()
    ensures z[i..j] == Xor(t.x[t.p + i..t.p + j], t.y[t.q + i..t.q + j])
  {
    var s, r := z[i..j], Xor(t.x[t.p + i..t.p + j], t.y[t.q + i..t.q + j]);
    forall k | 0 <= k < j - i ensures s[k] == r[k] {
      assert s[k] == z[i + k];
    }
  }

  lemma MergedBoth(e: Endian, v: MemWord, w: MemWord, k: nat, z: seq<byte>, i: nat)
    requires 0 < k < 8 && BothFrom(v, k, z, i) && BothBefore(w, k, z, i + 8)
    ensures i + 8 <= |z| && Merge(e, v, k, w, 8 - k) == z[i..i + 8]
  {
    MergeMem(e, v, w, k);
  }

  /** MERGE of two words that are the XOR of both operands. */
  method MergeBoth(e: Endian, v: MemWord, w: MemWord, k: nat, ghost t: Job, ghost z: seq<byte>, ghost i: nat) returns (r: MemWord)
    requires 0 < k < 8 && t.Valid() && i + 8 <= t.n && z == t.Wanted()
    requires BothFrom(v, k, z, i) && BothBefore(w, k, z, i + 8)
    ensures r == Xor(t.x[t.p + i..t.p + i + 8], t.y[t.q + i..t.q + i + 8])
  {
    r := Merge(e, v, k, w, 8 - k);
    assert r == z[i..i + 8] by {
      MergedBoth(e, v, w, k, z, i);
    }
    WantedSlice(t, z, i, i + 8);
  }

  /** The word of `a` XOR `b` at offset `i`, from two merged operands. */
  method PutBoth(e: Endian, dst: Ptr, ghost a: Ptr, ghost b: Ptr, m: nat, v: MemWord, w: MemWord, k: nat, ghost t: Job, ghost z: seq<byte>)
    requires Aligned(dst)
    requires 0 < k < 8 && 8 * m + 8 <= t.n && Run(dst, a, b, t, 8 * m + 8) && z == t.Wanted()
    requires BothFrom(v, k, z, 8 * m) && BothBefore(w, k, z, 8 * m + 8)
    modifies dst.mem
    ensures Run(dst, a, b, t, 8 * m)
  {
    var word := MergeBoth(e, v, w, k, t, z, 8 * m);
    PutWord(dst, a, b, m, word, t);
  }

  lemma SwappedBefore(u: MemWord, k: nat, t: Job, i: nat)
    requires t.Valid() && i <= t.n && HoldsBefore(u, k, t.Swapped(), i)
    ensures k <= 8 && k <= i && u[..k] == t.x[t.p + i - k..t.p + i]
  {
  }

  lemma SwappedFrom(u: MemWord, k: nat, t: Job, i: nat)
    requires t.Valid() && k <= 8 && i + 8 - k <= t.n && HoldsFrom(u, k, t.Swapped(), i)
    ensures u[k..] == t.x[t.p + i..t.p + i + 8 - k]
  {
  }

  lemma BeforeXor(u: MemWord, v: MemWord, k: nat, x: seq<byte>, y: seq<byte>, z: seq<byte>, i: nat)
    requires k <= 8 && k <= i <= |z| && u[..k] == x && v[..k] == y && z[i - k..i] == Xor(x, y)
    ensures BothBefore(Xor(u, v), k, z, i)
  {
    XorFront(u, v, k, x, y);
  }

  lemma FromXor(u: MemWord, v: MemWord, k: nat, x: seq<byte>, y: seq<byte>, z: seq<byte>, i: nat)
    requires k <= 8 && i + 8 - k <= |z| && u[k..] == x && v[k..] == y && z[i..i + 8 - k] == Xor(x, y)
    ensures BothFrom(Xor(u, v), k, z, i)
  {
    XorBack(u, v, k, x, y);
  }

  lemma BothBeforeXor(u: MemWord, v: MemWord, k: nat, t: Job, i: nat)
    requires t.Valid() && i <= t.n && HoldsBefore(u, k, t.Swapped(), i) && HoldsBefore(v, k, t, i)
    ensures BothBefore(Xor(u, v), k, t.Wanted(), i)
  {
    SwappedBefore(u, k, t, i);
    WantedSlice(t, t.Wanted(), i - k, i);
    BeforeXor(u, v, k, t.x[t.p + i - k..t.p + i], t.y[t.q + i - k..t.q + i], t.Wanted(), i);
  }

  lemma BothFromXor(u: MemWord, v: MemWord, k: nat, t: Job, i: nat)
    requires t.Valid() && k <= 8 && i + 8 - k <= t.n && HoldsFrom(u, k, t.Swapped(), i) && HoldsFrom(v, k, t, i)
    ensures BothFrom(Xor(u, v), k, t.Wanted(), i)
  {
    SwappedFrom(u, k, t, i);
    WantedSlice(t, t.Wanted(), i, i + 8 - k);
    FromXor(u, v, k, t.x[t.p + i..t.p + i + 8 - k], t.y[t.q + i..t.q + i + 8 - k], t.Wanted(), i);
  }

  /** The shift that follows a READ_PARTIAL can be done after the XOR. */
  lemma ShiftXor(e: Endian, u: MemWord, v: MemWord, k: nat)
    requires k <= 8
    ensures ShiftLeft(e, Xor(u, v), k) == Xor(ShiftLeft(e, u, k), ShiftLeft(e, v, k))
  {
    assert (0 as byte) ^ 0 == 0;
  }

  lemma EndsXor(e: Endian, u: MemWord, v: MemWord, k: nat)
    requires k <= 8
    ensures ToTop(e, Xor(u, v), k) == Xor(ToTop(e, u, k), ToTop(e, v, k))
    ensures ToBottom(e, Xor(u, v), k) == Xor(ToBottom(e, u, k), ToBottom(e, v, k))
  {
    ShiftXor(e, u, v, 8 - k);
    ShiftXor(e, u, v, k);
  }

  /** Two READ_PARTIALs of the ends of both operands, XORed and moved to the front of the word. */
  method ReadTopBoth(e: Endian, dst: Ptr, a: Ptr, b: Ptr, k: nat, n: nat, ghost t: Job) returns (w: MemWord)
    requires n == t.n && 0 < k < 8 <= n && Run(dst, a, b, t, n)
    ensures BothBefore(w, k, t.Wanted(), n)
  {
    SwappedRun(dst, a, b, t, n);
    var u := PartialEnd(e, dst, a, k, n, t.Swapped());
    var v := PartialEnd(e, dst, b, k, n, t);
    BothBeforeXor(ToTop(e, u, k), ToTop(e, v, k), k, t, n);
    EndsXor(e, u, v, k);
    w := ToTop(e, Xor(u, v), k);
  }

  /** Two READ_PARTIALs of the beginnings of both operands, XORed and moved to the back of the word. */
  method ReadBottomBoth(e: Endian, dst: Ptr, a: Ptr, b: Ptr, k: nat, ghost t: Job) returns (w: MemWord)
    requires 0 < k < 8 <= t.n && Run(dst, a, b, t, 8)
    ensures BothFrom(w, k, t.Wanted(), 0)
  {
    SwappedRun(dst, a, b, t, 8);
    var u := PartialStart(e, dst, a, k, t.Swapped());
    var v := PartialStart(e, dst, b, k, t);
    BothFromXor(ToBottom(e, u, k), ToBottom(e, v, k), k, t, 0);
    EndsXor(e, u, v, k);
    w := ToBottom(e, Xor(u, v), k);
  }

  /** The word around offset `8 * m` of both operands, XORed. */
  method ReadAroundBoth(dst: Ptr, a: Ptr, b: Ptr, k: nat, m: nat, ghost j: nat, ghost t: Job) returns (w: MemWord)
    requires AlignOffset(a, 0) == k && AlignOffset(b, 0) == k
    requires 0 < k < 8 && m > 0 && 8 * m + 8 - k <= j && Run(dst, a, b, t, j)
    ensures BothFrom(w, k, t.Wanted(), 8 * m) && BothBefore(w, k, t.Wanted(), 8 * m)
  {
    SwappedRun(dst, a, b, t, j);
    var u := ReadAround(dst, a, k, m, t.Swapped(), j);
    var v := ReadAround(dst, b, k, m, t, j);
    BothFromXor(u, v, k, t, 8 * m);
    BothBeforeXor(u, v, k, t, 8 * m);
    w := Xor(u, v);
  }

  method XorTopBoth(e: Endian, dst: Ptr, a: Ptr, b: Ptr, k: nat, count: nat, ghost t: Job, ghost z: seq<byte>)
    returns (n: nat, s1: MemWord)
    requires Aligned(dst) && AlignOffset(a, 0) == k && AlignOffset(b, 0) == k
    requires count > 0 && 0 < k < 8 && t.n == 8 * count && Run(dst, a, b, t, t.n) && z == t.Wanted()
    modifies dst.mem
    ensures 1 <= n <= count && n % 2 == 1 && Run(dst, a, b, t, 8 * n) && BothBefore(s1, k, z, 8 * n)
  {
    n := count;
    var s0 := ReadTopBoth(e, dst, a, b, k, 8 * count, t);
    if n % 2 == 1 {
      s1 := s0;
    } else {
      n := n - 1;
      s1 := ReadAroundBoth(dst, a, b, k, n, t.n, t);
      PutBoth(e, dst, a, b, n, s1, s0, k, t, z);
    }
  }

  method XorPairBoth(e: Endian, dst: Ptr, a: Ptr, b: Ptr, m: nat, s: MemWord, k: nat, ghost t: Job, ghost z: seq<byte>)
    returns (s1: MemWord)
    requires Aligned(dst) && AlignOffset(a, 0) == k && AlignOffset(b, 0) == k
    requires m > 0 && 0 < k < 8 && 8 * m + 16 <= t.n && Run(dst, a, b, t, 8 * m + 16) && z == t.Wanted()
    requires BothBefore(s, k, z, 8 * m + 16)
    modifies dst.mem
    ensures Run(dst, a, b, t, 8 * m) && BothBefore(s1, k, z, 8 * m)
  {
    var s0 := ReadAroundBoth(dst, a, b, k, m + 1, 8 * m + 16, t);
    PutBoth(e, dst, a, b, m + 1, s0, s, k, t, z);
    s1 := ReadAroundBoth(dst, a, b, k, m, 8 * m + 8, t);
    PutBoth(e, dst, a, b, m, s1, s0, k, t, z);
  }

  method XorBottomBoth(e: Endian, dst: Ptr, a: Ptr, b: Ptr, s1: MemWord, k: nat, ghost t: Job, ghost z: seq<byte>)
    requires Aligned(dst) && AlignOffset(a, 0) == k && AlignOffset(b, 0) == k
    requires 0 < k < 8 <= t.n && Run(dst, a, b, t, 8) && z == t.Wanted() && BothBefore(s1, k, z, 8)
    modifies dst.mem
    ensures Run(dst, a, b, t, 0)
  {
    var s0 := ReadBottomBoth(e, dst, a, b, k, t);
    PutBoth(e, dst, a, b, 0, s0, s1, k, t, z);
  }

  /** memxor3_different_alignment_ab: both operands lie `k` bytes after a word boundary. */
  method DifferentAlignmentAB(e: Endian, dst: Ptr, a: Ptr, b: Ptr, k: nat, count: nat, ghost t: Job, ghost z: seq<byte>)
    requires Aligned(dst) && AlignOffset(a, 0) == k && AlignOffset(b, 0) == k
    requires count > 0 && 0 < k < 8 && t.n == 8 * count && Run(dst, a, b, t, t.n) && z == t.Wanted()
    modifies dst.mem
    ensures Run(dst, a, b, t, 0)
  {
    var n, s1 := XorTopBoth(e, dst, a, b, k, count, t, z);
    ghost var h := n / 2;
    while n > 2
      invariant n == 2 * h + 1 && 0 <= h && n <= count
      invariant Run(dst, a, b, t, 8 * n)
      invariant BothBefore(s1, k, z, 8 * n)
    {
      n, h := n - 2, h - 1;
      s1 := XorPairBoth(e, dst, a, b, n, s1, k, t, z);
    }
    assert n == 1;
    XorBottomBoth(e, dst, a, b, s1, k, t, z);
  }

  /** Word `m` of the destination becomes the exclusive or of two merged words, one of each operand. */
  method PutMerged(e: Endian, dst: Ptr, ghost a: Ptr, ghost b: Ptr, m: nat, v: MemWord, w: MemWord, j: nat,
                   v': MemWord, w': MemWord, k: nat, ghost t: Job)
    requires Aligned(dst)
    requires 0 < j < 8 && 0 < k < 8 && 8 * m + 8 <= t.n && Run(dst, a, b, t, 8 * m + 8)
    requires HoldsFrom(v, j, t.Swapped(), 8 * m) && HoldsBefore(w, j, t.Swapped(), 8 * m + 8)
    requires HoldsFrom(v', k, t, 8 * m) && HoldsBefore(w', k, t, 8 * m + 8)
    modifies dst.mem
    ensures Run(dst, a, b, t, 8 * m)
  {
    MergedWord(e, v, w, j, t.Swapped(), 8 * m);
    MergedWord(e, v', w', k, t, 8 * m);
    PutWord(dst, a, b, m, Xor(Merge(e, v, j, w, 8 - j), Merge(e, v', k, w', 8 - k)), t);
  }

  method XorTopAll(e: Endian, dst: Ptr, a: Ptr, b: Ptr, j: nat, k: nat, count: nat, ghost t: Job)
    returns (n: nat, a1: MemWord, b1: MemWord)
    requires Aligned(dst) && AlignOffset(a, 0) == j && AlignOffset(b, 0) == k
    requires count > 0 && 0 < j < 8 && 0 < k < 8 && t.n == 8 * count && Run(dst, a, b, t, t.n)
    modifies dst.mem
    ensures 1 <= n <= count && n % 2 == 1 && Run(dst, a, b, t, 8 * n)
    ensures HoldsBefore(a1, j, t.Swapped(), 8 * n) && HoldsBefore(b1, k, t, 8 * n)
  {
    n := count;
    SwappedRun(dst, a, b, t, 8 * count);
    var a0 := ReadTop(e, dst, a, j, 8 * count, t.Swapped());
    var b0 := ReadTop(e, dst, b, k, 8 * count, t);
    if n % 2 == 1 {
      a1, b1 := a0, b0;
    } else {
      n := n - 1;
      a1, b1 := XorOneAll(e, dst, a, b, n, a0, j, b0, k, t, 8 * n);
    }
  }

  /** One word, given the words above it; `i` is where it begins. */
  method XorOneAll(e: Endian, dst: Ptr, a: Ptr, b: Ptr, m: nat, av: MemWord, j: nat, bv: MemWord, k: nat, ghost t: Job, ghost i: nat)
    returns (a1: MemWord, b1: MemWord)
    requires Aligned(dst) && AlignOffset(a, 0) == j && AlignOffset(b, 0) == k
    requires m > 0 && i == 8 * m && 0 < j < 8 && 0 < k < 8 && i + 8 <= t.n && Run(dst, a, b, t, i + 8)
    requires HoldsBefore(av, j, t.Swapped(), i + 8) && HoldsBefore(bv, k, t, i + 8)
    modifies dst.mem
    ensures Run(dst, a, b, t, i) && HoldsBefore(a1, j, t.Swapped(), i) && HoldsBefore(b1, k, t, i)
  {
    SwappedRun(dst, a, b, t, i + 8);
    a1 := ReadAround(dst, a, j, m, t.Swapped(), i + 8);
    b1 := ReadAround(dst, b, k, m, t, i + 8);
    PutMerged(e, dst, a, b, m, a1, av, j, b1, bv, k, t);
  }

  method XorPairAll(e: Endian, dst: Ptr, a: Ptr, b: Ptr, m: nat, av: MemWord, j: nat, bv: MemWord, k: nat, ghost t: Job)
    returns (a1: MemWord, b1: MemWord)
    requires Aligned(dst) && AlignOffset(a, 0) == j && AlignOffset(b, 0) == k
    requires m > 0 && 0 < j < 8 && 0 < k < 8 && 8 * m + 16 <= t.n && Run(dst, a, b, t, 8 * m + 16)
    requires HoldsBefore(av, j, t.Swapped(), 8 * m + 16) && HoldsBefore(bv, k, t, 8 * m + 16)
    modifies dst.mem
    ensures Run(dst, a, b, t, 8 * m) && HoldsBefore(a1, j, t.Swapped(), 8 * m) && HoldsBefore(b1, k, t, 8 * m)
  {
    ghost var i := 8 * m;
    var a0, b0 := XorOneAll(e, dst, a, b, m + 1, av, j, bv, k, t, i + 8);
    a1, b1 := XorOneAll(e, dst, a, b, m, a0, j, b0, k, t, i);
  }

  method XorBottomAll(e: Endian, dst: Ptr, a: Ptr, b: Ptr, a1: MemWord, j: nat, b1: MemWord, k: nat, ghost t: Job)
    requires Aligned(dst) && AlignOffset(a, 0) == j && AlignOffset(b, 0) == k
    requires 0 < j < 8 && 0 < k < 8 <= t.n && Run(dst, a, b, t, 8)
    requires HoldsBefore(a1, j, t.Swapped(), 8) && HoldsBefore(b1, k, t, 8)
    modifies dst.mem
    ensures Run(dst, a, b, t, 0)
  {
    SwappedRun(dst, a, b, t, 8);
    var a0 := ReadBottom(e, dst, a, j, t.Swapped());
    var b0 := ReadBottom(e, dst, b, k, t);
    PutMerged(e, dst, a, b, 0, a0, a1, j, b0, b1, k, t);
  }

  /** memxor3_different_alignment_all: the operands lie `j` and `k` bytes after a word boundary. */
  method DifferentAlignmentAll(e: Endian, dst: Ptr, a: Ptr, b: Ptr, j: nat, k: nat, count: nat, ghost t: Job)
    requires Aligned(dst) && AlignOffset(a, 0) == j && AlignOffset(b, 0) == k
    requires count > 0 && 0 < j < 8 && 0 < k < 8 && t.n == 8 * count && Run(dst, a, b, t, t.n)
    modifies dst.mem
    ensures Run(dst, a, b, t, 0)
  {
    var n, a1, b1 := XorTopAll(e, dst, a, b, j, k, count, t);
    ghost var h := n / 2;
    while n > 2
      invariant n == 2 * h + 1 && 0 <= h && n <= count
      invariant Run(dst, a, b, t, 8 * n)
      invariant HoldsBefore(a1, j, t.Swapped(), 8 * n) && HoldsBefore(b1, k, t, 8 * n)
    {
      n, h := n - 2, h - 1;
      a1, b1 := XorPairAll(e, dst, a, b, n, a1, j, b1, k, t);
    }
    assert n == 1;
    XorBottomAll(e, dst, a, b, a1, j, b1, k, t);
  }

  /** The byte loops: from offset `hi` down to `lo`, a byte at a time. */
  method XorBytes(dst: Ptr, a: Ptr, b: Ptr, lo: nat, hi: nat, ghost t: Job)
    requires lo <= hi && Run(dst, a, b, t, hi)
    modifies dst.mem
    ensures Run(dst, a, b, t, lo)
  {
    var n := hi;
    while n > lo
      invariant lo <= n <= hi && Run(dst, a, b, t, n)
    {
      n := n - 1;
      var x := Get(dst, a, a.at + n, 1, t, t.x, n + 1);
      var y := Get(dst, b, b.at + n, 1, t, t.y, n + 1);
      Put(dst, a, b, n, [x[0] ^ y[0]], t);
    }
  }

  /** The pointer `n` bytes further on. */
  function Plus(p: Ptr, n: nat): Ptr {
    Ptr(p.mem, p.at + n, p.base)
  }

  /** The part of a job between two offsets, as a job of its own, started when the rest above it is done. */
  ghost function Part(t: Job, lo: nat, hi: nat, xInPlace: bool, yInPlace: bool): Job
    requires t.Valid() && lo <= hi <= t.n
  {
    var was := t.Done(hi);
    Job(was, t.d + lo, if xInPlace then was else t.x, t.p + lo, if yInPlace then was else t.y, t.q + lo, hi - lo,
        (i: nat) => t.states(lo + i))
  }

  lemma PartFollows(t: Job, lo: nat, hi: nat, xInPlace: bool, yInPlace: bool)
    requires t.Valid() && t.Follows() && lo <= hi <= t.n
    requires xInPlace ==> t.x == t.was && t.p <= t.d
    requires yInPlace ==> t.y == t.was && t.q <= t.d
    ensures var r := Part(t, lo, hi, xInPlace, yInPlace); r.Valid() && r.Follows()
  {
    var r := Part(t, lo, hi, xInPlace, yInPlace);
    forall i: nat {:trigger r.Done(i)} | i <= r.n ensures r.states(i) == r.Done(i) {
      assert t.states(lo + i) == t.Done(lo + i);
      PartDone(t, lo, hi, xInPlace, yInPlace, i);
    }
  }

  /** An operand in the destination's area has not changed where the part of the job is to read it. */
  lemma PartOperand(t: Job, lo: nat, hi: nat, inPlace: bool, at: nat, i: nat)
    requires t.Valid() && lo <= hi <= t.n && i < hi && (inPlace ==> at <= t.d)
    ensures inPlace ==> t.Done(hi)[at + i] == t.was[at + i]
  {
    if inPlace {
      t.DoneAt(hi, at + i);
    }
  }

  lemma PartDone(t: Job, lo: nat, hi: nat, xInPlace: bool, yInPlace: bool, i: nat)
    requires t.Valid() && lo <= hi <= t.n && i <= hi - lo
    requires xInPlace ==> t.x == t.was && t.p <= t.d
    requires yInPlace ==> t.y == t.was && t.q <= t.d
    ensures var r := Part(t, lo, hi, xInPlace, yInPlace); r.Valid() && r.Done(i) == t.Done(lo + i)
  {
    var r := Part(t, lo, hi, xInPlace, yInPlace);
    forall k | 0 <= k < |t.was| ensures r.Done(i)[k] == t.Done(lo + i)[k] {
      r.DoneAt(i, k);
      t.DoneAt(lo + i, k);
      t.DoneAt(hi, k);
      if t.d <= k < t.d + hi {
        PartOperand(t, lo, hi, xInPlace, t.p, k - t.d);
        PartOperand(t, lo, hi, yInPlace, t.q, k - t.d);
      }
    }
  }

  /** Going on with the part of the job between two offsets, on pointers moved forward. */
  lemma StartPart(dst: Ptr, a: Ptr, b: Ptr, t: Job, lo: nat, hi: nat)
    requires lo <= hi && Run(dst, a, b, t, hi)
    ensures Run(Plus(dst, lo), Plus(a, lo), Plus(b, lo), Part(t, lo, hi, a.mem == dst.mem, b.mem == dst.mem), hi - lo)
  {
    PartFollows(t, lo, hi, a.mem == dst.mem, b.mem == dst.mem);
    assert t.states(hi) == t.Done(hi);
  }

  lemma EndPart(dst: Ptr, a: Ptr, b: Ptr, t: Job, lo: nat, hi: nat)
    requires t.Valid() && t.Follows() && dst.at == t.d && a.at == t.p && b.at == t.q && lo <= hi <= t.n
    requires a.mem == dst.mem ==> a.base == dst.base && a.at <= dst.at && t.x == t.was
    requires b.mem == dst.mem ==> b.base == dst.base && b.at <= dst.at && t.y == t.was
    requires Run(Plus(dst, lo), Plus(a, lo), Plus(b, lo), Part(t, lo, hi, a.mem == dst.mem, b.mem == dst.mem), 0)
    ensures Run(dst, a, b, t, lo)
  {
  }

  /** The word part of memxor3: the four cases of alignment of the sources, for an aligned destination. */
  method XorWords3(e: Endian, dst: Ptr, a: Ptr, b: Ptr, count: nat, ghost t: Job)
    requires count > 0 && t.n == 8 * count && Run(dst, a, b, t, t.n) && Aligned(dst)
    modifies dst.mem
    ensures Run(dst, a, b, t, 0)
  {
    var j, k := AlignOffset(a, 0), AlignOffset(b, 0);
    if j == k {
      if j == 0 {
        CommonAlignment(dst, a, b, count, t);
      } else {
        DifferentAlignmentAB(e, dst, a, b, j, count, t, t.Wanted());
      }
    } else if j == 0 {
      DifferentAlignmentB(e, dst, a, b, k, count, t);
    } else if k == 0 {
      SwappedRun(dst, a, b, t, t.n);
      DifferentAlignmentB(e, dst, b, a, j, count, t.Swapped());
      SwappedRun(dst, b, a, t.Swapped(), 0);
    } else {
      DifferentAlignmentAll(e, dst, a, b, j, k, count, t);
    }
  }

  lemma SwappedRun(dst: Ptr, a: Ptr, b: Ptr, t: Job, i: nat)
    requires Run(dst, a, b, t, i)
    ensures Run(dst, b, a, t.Swapped(), i)
  {
    var r := t.Swapped();
    forall i: nat {:trigger r.Done(i)} | i <= r.n ensures r.states(i) == r.Done(i) {
      assert t.states(i) == t.Done(i);
      forall k | 0 <= k < |t.was| ensures r.Done(i)[k] == t.Done(i)[k] {
        r.DoneAt(i, k);
        t.DoneAt(i, k);
      }
      assert r.Done(i) == t.Done(i);
    }
  }

  /** The word part of memxor: the source aligned or not, for an aligned destination. */
  method XorWords(e: Endian, dst: Ptr, src: Ptr, count: nat, ghost t: Job)
    requires count > 0 && t.n == 8 * count && Run(dst, dst, src, t, t.n) && Aligned(dst)
    modifies dst.mem
    ensures Run(dst, dst, src, t, 0)
  {
    var offset := AlignOffset(src, 0);
    if offset != 0 {
      MemXorDifferentAlignment(e, dst, src, count, t);
    } else {
      MemXorCommonAlignment(dst, src, count, t);
    }
  }

  ghost function WholeJob(was: seq<byte>, d: nat, x: seq<byte>, p: nat, y: seq<byte>, q: nat, n: nat): (t: Job)
    requires d + n <= |was| && p + n <= |x| && q + n <= |y|
    ensures t.Valid() && t.Follows() && t.states(n) == was && t.states(0) == t.Done(0) && t.n == n
    ensures t.was == was && t.d == d && t.x == x && t.p == p && t.y == y && t.q == q
  {
    var t := Job(was, d, x, p, y, q, n, i => []);
    var r := t.(states := (i: nat) => if i <= n then t.Done(i) else []);
    SameDone(t, r);
    r
  }

  lemma SameDone(t: Job, r: Job)
    requires t.Valid() && r == t.(states := r.states)
    ensures forall i: nat {:trigger r.Done(i)} :: i <= t.n ==> r.Done(i) == t.Done(i)
  {
    forall i: nat {:trigger r.Done(i)} | i <= t.n ensures r.Done(i) == t.Done(i) {
      forall k | 0 <= k < |t.was| ensures r.Done(i)[k] == t.Done(i)[k] {
        r.DoneAt(i, k);
        t.DoneAt(i, k);
      }
    }
  }

  lemma AlignmentStep(p: Ptr, n: nat)
    requires n >= 8
    ensures AlignOffset(p, n - AlignOffset(p, n)) == 0
  {
  }

  lemma WordAlignment(p: Ptr, n: nat)
    requires AlignOffset(p, n) == 0
    ensures n == 8 * (n / WORD_SIZE) + n % WORD_SIZE && Aligned(Plus(p, n % WORD_SIZE))
  {
    assert p.base + p.at + n == (p.base + p.at + n % WORD_SIZE) + 8 * (n / WORD_SIZE);
  }

  /** The words of memxor3, up to an offset at which the destination is aligned. */
  method XorMiddle3(e: Endian, dst: Ptr, a: Ptr, b: Ptr, n: nat, ghost t: Job)
    requires n >= 8 && AlignOffset(dst, n) == 0 && Run(dst, a, b, t, n)
    modifies dst.mem
    ensures Run(dst, a, b, t, n % WORD_SIZE)
  {
    var nwords, r := n / WORD_SIZE, n % WORD_SIZE;
    WordAlignment(dst, n);
    StartPart(dst, a, b, t, r, n);
    XorWords3(e, Plus(dst, r), Plus(a, r), Plus(b, r), nwords, Part(t, r, n, a.mem == dst.mem, b.mem == dst.mem));
    EndPart(dst, a, b, t, r, n);
  }

  /** The words of memxor. */
  method XorMiddle(e: Endian, dst: Ptr, src: Ptr, n: nat, ghost t: Job)
    requires n >= 8 && AlignOffset(dst, n) == 0 && Run(dst, dst, src, t, n)
    modifies dst.mem
    ensures Run(dst, dst, src, t, n % WORD_SIZE)
  {
    var nwords, r := n / WORD_SIZE, n % WORD_SIZE;
    WordAlignment(dst, n);
    StartPart(dst, dst, src, t, r, n);
    XorWords(e, Plus(dst, r), Plus(src, r), nwords, Part(t, r, n, true, src.mem == dst.mem));
    EndPart(dst, dst, src, t, r, n);
  }

  method Xor3Steps(e: Endian, dst: Ptr, a: Ptr, b: Ptr, n0: nat, ghost t: Job)
    requires t.n == n0 && Run(dst, a, b, t, t.n)
    modifies dst.mem
    ensures Run(dst, a, b, t, 0)
  {
    var n := n0;
    if n >= WORD_T_THRESH {
      var i := AlignOffset(dst, n);
      AlignmentStep(dst, n);
      XorBytes(dst, a, b, n - i, n, t);
      n := n - i;
      XorMiddle3(e, dst, a, b, n, t);
      n := n % WORD_SIZE;
    }
    XorBytes(dst, a, b, 0, n, t);
  }

  method XorSteps(e: Endian, dst: Ptr, src: Ptr, n0: nat, ghost t: Job)
    requires t.n == n0 && Run(dst, dst, src, t, t.n)
    modifies dst.mem
    ensures Run(dst, dst, src, t, 0)
  {
    var n := n0;
    if n >= WORD_T_THRESH {
      var i := AlignOffset(dst, n);
      AlignmentStep(dst, n);
      XorBytes(dst, dst, src, n - i, n, t);
      n := n - i;
      XorMiddle(e, dst, src, n, t);
      n := n % WORD_SIZE;
    }
    XorBytes(dst, dst, src, 0, n, t);
  }

  /** memxor3: from 16 bytes on, first bytes until the end of the destination is aligned, then words,
      then the bytes that are left; all in descending order, so that a source may overlap the start of the destination. */
  method MemXor3(e: Endian, dst: Ptr, a: Ptr, b: Ptr, n: nat)
    requires dst.at + n <= dst.mem.Length && a.at + n <= a.mem.Length && b.at + n <= b.mem.Length
    requires (a.mem == dst.mem ==> a.base == dst.base && a.at <= dst.at) && (b.mem == dst.mem ==> b.base == dst.base && b.at <= dst.at)
    modifies dst.mem
    ensures dst.mem[..] == Splice(old(dst.mem[..]), dst.at, Xor(old(a.mem[..])[a.at..a.at + n], old(b.mem[..])[b.at..b.at + n]))
  {
    ghost var t := WholeJob(dst.mem[..], dst.at, a.mem[..], a.at, b.mem[..], b.at, n);
    Xor3Steps(e, dst, a, b, n, t);
    t.AllDone();
  }

  /** memxor: the same scheme, with the destination as first operand and only two cases of alignment; what holds of
      overlapping areas is more than it promises. */
  method MemXor(e: Endian, dst: Ptr, src: Ptr, n: nat)
    requires dst.at + n <= dst.mem.Length && src.at + n <= src.mem.Length && (src.mem == dst.mem ==> src.base == dst.base && src.at <= dst.at)
    modifies dst.mem
    ensures dst.mem[..] == Splice(old(dst.mem[..]), dst.at, Xor(old(dst.mem[..])[dst.at..dst.at + n], old(src.mem[..])[src.at..src.at + n]))
  {
    ghost var t := WholeJob(dst.mem[..], dst.at, dst.mem[..], dst.at, src.mem[..], src.at, n);
    XorSteps(e, dst, src, n, t);
    t.AllDone();
  }
}
