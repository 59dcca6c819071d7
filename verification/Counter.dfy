/** The counter block: INCREMENT of macros.h, and the three forms of gcm_fill in gcm.c. */
module Counter {
  import opened Bytes

  function Pow256(n: nat): (r: nat)
    ensures r > 0
  {
    if n == 0 then 1 else 256 * Pow256(n - 1)
  }

  /** The integer a byte string stands for, most significant byte first. */
  function Value(s: seq<byte>): nat {
    if s == [] then 0 else 256 * Value(s[..|s| - 1]) + s[|s| - 1] as int
  }

  lemma ByteIncrement(b: byte)
    ensures b != 255 ==> (b + 1) as int == b as int + 1
    ensures b == 255 ==> b as int == 255 && b + 1 == 0
    ensures b + 1 == 0 ==> b == 255
  {
  }

  lemma ByteInjective(a: byte, b: byte)
    requires a as int == b as int
    ensures a == b
  {
  }

  /** The byte with the value `v`. */
  function ByteOf(v: nat): (b: byte)
    requires v < 256
    ensures b as int == v
  {
    if v == 0 then 0 else
      ByteIncrement(ByteOf(v - 1));
      ByteOf(v - 1) + 1
  }

  /** The low `n` bytes of an integer, most significant first. */
  function BigEndian(n: nat, v: nat): (r: seq<byte>)
    ensures |r| == n
  {
    if n == 0 then [] else BigEndian(n - 1, v / 256) + [ByteOf(v % 256)]
  }

  lemma {:induction false} ValueBound(s: seq<byte>)
    ensures Value(s) < Pow256(|s|)
  {
    if s != [] {
      ValueBound(s[..|s| - 1]);
    }
  }

  lemma {:induction false} ValueBigEndian(n: nat, v: nat)
    requires v < Pow256(n)
    ensures Value(BigEndian(n, v)) == v
  {
    if n > 0 {
      ValueBigEndian(n - 1, v / 256);
      var r := BigEndian(n, v);
      assert r[..n - 1] == BigEndian(n - 1, v / 256);
    }
  }

  lemma LastByte(v: nat, b: byte)
    ensures (256 * v + b as int) / 256 == v && ByteOf((256 * v + b as int) % 256) == b
  {
    var i := b as int;
    assert (256 * v + i) % 256 == i;
    ByteInjective(ByteOf(i), b);
  }

  lemma {:induction false} BigEndianValue(s: seq<byte>)
    ensures BigEndian(|s|, Value(s)) == s
  {
    if s != [] {
      var init, last := s[..|s| - 1], s[|s| - 1];
      LastByte(Value(init), last);
      BigEndianValue(init);
      assert BigEndian(|s|, Value(s)) == BigEndian(|init|, Value(init)) + [last];
    }
  }

  lemma Div256(q: nat, v: nat)
    ensures (256 * q + v) / 256 == q + v / 256 && (256 * q + v) % 256 == v % 256
  {
  }

  /** A number with `k` zero bytes put behind it. */
  function Scaled(u: nat, k: nat): nat {
    if k == 0 then u else 256 * Scaled(u, k - 1)
  }

  lemma {:induction false} BigEndianConcat(n: nat, u: nat, k: nat, v: nat)
    requires v < Pow256(k)
    ensures BigEndian(n + k, Scaled(u, k) + v) == BigEndian(n, u) + BigEndian(k, v)
  {
    if k > 0 {
      var q, w := Scaled(u, k - 1), Scaled(u, k) + v;
      Div256(q, v);
      BigEndianConcat(n, u, k - 1, v / 256);
      assert w / 256 == q + v / 256 && w % 256 == v % 256;
      assert BigEndian(n + k, w) == BigEndian(n + (k - 1), w / 256) + [ByteOf(w % 256)];
      assert BigEndian(k, v) == BigEndian(k - 1, v / 256) + [ByteOf(v % 256)];
    }
  }

  lemma Scaled4(u: nat)
    ensures Scaled(u, 4) == u * 0x1_0000_0000
  {
    assert Scaled(u, 1) == u * 0x100;
    assert Scaled(u, 2) == u * 0x1_0000;
    assert Scaled(u, 3) == u * 0x100_0000;
  }

  /** A byte-carry increment: what INCREMENT does to the bytes. */
  function Carry(s: seq<byte>): (r: seq<byte>)
    ensures |r| == |s|
  {
    if s == [] then []
    else if s[|s| - 1] == 255 then Carry(s[..|s| - 1]) + [0]
    else s[..|s| - 1] + [s[|s| - 1] + 1]
  }

  lemma ScaledMod(a: nat, p: nat)
    requires 0 < p && a <= p
    ensures (256 * a) % (256 * p) == 256 * (a % p)
  {
    if a == p {
      assert a % p == 0 && (256 * a) % (256 * p) == 0;
    } else {
      assert a % p == a && (256 * a) % (256 * p) == 256 * a;
    }
  }

  lemma SmallMod(a: nat, p: nat)
    requires a < p
    ensures a % p == a
  {
  }

  /** The carry loop adds one, modulo 256 to the number of bytes. */
  lemma CarryOver(s: seq<byte>, init: seq<byte>)
    requires s != [] && init == s[..|s| - 1] && s[|s| - 1] == 255
    ensures Value(Carry(s)) == 256 * Value(Carry(init)) && Value(s) + 1 == 256 * (Value(init) + 1)
  {
    ByteIncrement(s[|s| - 1]);
    assert Carry(s)[..|s| - 1] == Carry(init);
  }

  lemma {:induction false} CarryAddsOne(s: seq<byte>)
    ensures Value(Carry(s)) == (Value(s) + 1) % Pow256(|s|)
  {
    if s != [] {
      var init, last := s[..|s| - 1], s[|s| - 1];
      ByteIncrement(last);
      ValueBound(s);
      ValueBound(init);
      if last == 255 {
        CarryAddsOne(init);
        CarryOver(s, init);
        ScaledMod(Value(init) + 1, Pow256(|init|));
      } else {
        SmallMod(Value(s) + 1, Pow256(|s|));
        assert Carry(s)[..|s| - 1] == init;
      }
    }
  }

  /** `i` trailing places have gone from 255 to 0, and the one before them has been incremented. */
  function Carried(s: seq<byte>, i: nat): (r: seq<byte>)
    requires i < |s|
    ensures |r| == |s|
  {
    s[..i] + [s[i] + 1] + Zeros(|s| - 1 - i)
  }

  lemma CarriedInit(s: seq<byte>, i: nat)
    requires i + 1 < |s|
    ensures Carried(s, i) == Carried(s[..|s| - 1], i) + [0]
  {
    assert s[..|s| - 1][..i] == s[..i];
    assert Zeros(|s| - 1 - i) == Zeros(|s| - 2 - i) + [0];
  }

  lemma CarriedLast(s: seq<byte>)
    requires s != [] && (|s| == 1 || s[|s| - 1] + 1 != 0)
    ensures Carried(s, |s| - 1) == Carry(s)
  {
    ByteIncrement(s[|s| - 1]);
    assert Carry([]) == [];
  }

  lemma {:induction false} CarriedIsCarry(s: seq<byte>, i: nat)
    requires i < |s| && forall k :: i < k < |s| ==> s[k] == 255
    requires i == 0 || s[i] + 1 != 0
    ensures Carried(s, i) == Carry(s)
  {
    if i == |s| - 1 {
      CarriedLast(s);
    } else {
      CarriedIsCarry(s[..|s| - 1], i);
      CarriedInit(s, i);
    }
  }

  /** The carry goes on to the byte before. */
  lemma CarriedNext(front: seq<byte>, s: seq<byte>, back: seq<byte>, i: nat)
    requires 0 < i < |s| && s[i] == 255
    ensures (front + Carried(s, i) + back)[|front| + i - 1 := s[i - 1] + 1] == front + Carried(s, i - 1) + back
  {
    ByteIncrement(s[i]);
    assert Carried(s, i)[i - 1 := s[i - 1] + 1] == Carried(s, i - 1);
  }

  /** The carry into the byte before, of which there is one. */
  method CarryOn(ctr: array<byte>, at: nat, i: nat, ghost was: seq<byte>, ghost s: seq<byte>) returns (j: nat)
    requires at + |s| <= |was| && s == was[at..at + |s|] && 0 < i < |s| && s[i] == 255
    requires ctr[..] == was[..at] + Carried(s, i) + was[at + |s|..]
    modifies ctr
    ensures j == i - 1 && ctr[..] == was[..at] + Carried(s, j) + was[at + |s|..]
  {
    CarriedNext(was[..at], s, was[at + |s|..], i);
    j := i - 1;
    assert ctr[at + j] == Carried(s, i)[j] == s[j];
    ctr[at + j] := ctr[at + j] + 1;
  }

  /** The byte that was incremented last is zero just when the carry goes on. */
  lemma ZeroAt(front: seq<byte>, s: seq<byte>, back: seq<byte>, i: nat)
    requires i < |s|
    ensures (front + Carried(s, i) + back)[|front| + i] == s[i] + 1 && (s[i] == 255 <==> s[i] + 1 == 0)
  {
    ByteIncrement(s[i]);
    assert Carried(s, i)[i] == s[i] + 1;
  }

  /** The first step: the last byte is incremented. */
  method CarryIn(ctr: array<byte>, at: nat, size: nat, ghost was: seq<byte>, ghost s: seq<byte>) returns (i: nat)
    requires size > 0 && at + size <= ctr.Length && was == ctr[..] && s == was[at..at + size]
    modifies ctr
    ensures i == size - 1 && ctr[..] == was[..at] + Carried(s, i) + was[at + size..]
  {
    i := size - 1;
    assert Zeros(0) == [] && s[..i] == was[at..at + i];
    ctr[at + i] := ctr[at + i] + 1;
  }

  /** INCREMENT(size, ctr + at): the byte-carry loop. */
  method Increment(size: nat, ctr: array<byte>, at: nat)
    requires size > 0 && at + size <= ctr.Length
    modifies ctr
    ensures ctr[..] == old(ctr[..])[..at] + Carry(old(ctr[..])[at..at + size]) + old(ctr[..])[at + size..]
  {
    ghost var was, s := ctr[..], ctr[..][at..at + size];
    var i := CarryIn(ctr, at, size, was, s);
    while i > 0 && ctr[at + i] == 0
      invariant 0 <= i < size
      invariant forall k :: i < k < size ==> s[k] == 255
      invariant ctr[..] == was[..at] + Carried(s, i) + was[at + size..]
    {
      ZeroAt(was[..at], s, was[at + size..], i);
      i := CarryOn(ctr, at, i, was, s);
    }
    ZeroAt(was[..at], s, was[at + size..], i);
    CarriedIsCarry(s, i);
  }

  /** One more, modulo 256 to the number of bytes. */
  function Plus1(s: seq<byte>): (r: seq<byte>)
    ensures |r| == |s|
  {
    BigEndian(|s|, (Value(s) + 1) % Pow256(|s|))
  }

  /** inc32 of section 6.2 of SP 800-38D: one more in the last 32 bits, the rest untouched. */
  function Inc32(b: Block): Block {
    b[..12] + Plus1(b[12..])
  }

  lemma Pow256Of4()
    ensures Pow256(4) == 0x1_0000_0000
  {
    assert Pow256(2) == 0x1_0000;
  }

  /** INC32, the byte-carry loop on the last four bytes, is inc32. */
  lemma CarryIsInc32(b: Block)
    ensures b[..12] + Carry(b[12..]) == Inc32(b)
  {
    Pow256Of4();
    CarryAddsOne(b[12..]);
    BigEndianValue(Carry(b[12..]));
  }

  /** `next` applied `n` times. */
  function Iter(next: Block -> Block, c: Block, n: nat): Block {
    if n == 0 then c else next(Iter(next, c, n - 1))
  }

  /** The counter blocks from `c` on. */
  function Blocks(next: Block -> Block, c: Block, n: nat): (r: seq<byte>)
    ensures |r| == 16 * n
  {
    if n == 0 then [] else Blocks(next, c, n - 1) + Iter(next, c, n - 1)
  }

  lemma ModSucc(v: nat)
    ensures (v % 0x1_0000_0000 + 1) % 0x1_0000_0000 == (v + 1) % 0x1_0000_0000
  {
  }

  /** A counter block whose last four bytes hold `lo`. */
  function CounterBlock(c: Block, lo: nat): Block {
    c[..12] + BigEndian(|c[12..]|, lo)
  }

  lemma Inc32OfBlock(c: Block, v: nat)
    requires v < 0x1_0000_0000
    ensures Inc32(CounterBlock(c, v)) == CounterBlock(c, (v + 1) % 0x1_0000_0000)
  {
    var d := CounterBlock(c, v);
    assert d[..12] == c[..12] && d[12..] == BigEndian(|c[12..]|, v);
    Pow256Of4();
    ValueBigEndian(|c[12..]|, v);
  }

  lemma IterStep(c: Block, w: nat, d: Block)
    requires d == CounterBlock(c, w % 0x1_0000_0000)
    ensures Inc32(d) == CounterBlock(c, (w + 1) % 0x1_0000_0000)
  {
    Inc32OfBlock(c, w % 0x1_0000_0000);
    ModSucc(w);
  }

  lemma CounterBlockSame(c: Block)
    ensures CounterBlock(c, Value(c[12..]) % 0x1_0000_0000) == c
  {
    var s := c[12..];
    var v := Value(s);
    Pow256Of4();
    ValueBound(s);
    SmallMod(v, 0x1_0000_0000);
    BigEndianValue(s);
    assert c[..12] + s == c;
  }

  /** inc32 applied `n` times adds `n` to the last 32 bits, and wraps there. */
  lemma {:induction false} IterInc32(c: Block, n: nat)
    ensures Iter(Inc32, c, n) == CounterBlock(c, (Value(c[12..]) + n) % 0x1_0000_0000)
  {
    if n == 0 {
      CounterBlockSame(c);
    } else {
      IterInc32(c, n - 1);
      IterStep(c, Value(c[12..]) + (n - 1), Iter(Inc32, c, n - 1));
    }
  }

  // The words the fill functions read and write, as integers.

  /** READ_UINT32, READ_UINT64 */
  function ReadUint(p: seq<byte>): nat {
    Value(p)
  }

  /** The opposite byte order. */
  function Reversed(s: seq<byte>): (r: seq<byte>)
    ensures |r| == |s|
  {
    seq(|s|, i requires 0 <= i < |s| => s[|s| - 1 - i])
  }

  /** LE_READ_UINT32, LE_READ_UINT64 */
  function LeReadUint(p: seq<byte>): nat {
    Value(Reversed(p))
  }

  /** __builtin_bswap32 */
  function Bswap32(v: nat): nat {
    Value(Reversed(BigEndian(4, v)))
  }

  /** What an integer stored in a word of `n` bytes is in memory. */
  function StoreUint(e: Endian, n: nat, v: nat): (r: seq<byte>)
    ensures |r| == n
  {
    match e case Big => BigEndian(n, v) case Little => Reversed(BigEndian(n, v))
  }

  lemma ReversedTwice(s: seq<byte>)
    ensures Reversed(Reversed(s)) == s
  {
  }

  lemma ReversedConcat(s: seq<byte>, t: seq<byte>)
    ensures Reversed(s + t) == Reversed(t) + Reversed(s)
  {
  }

  /** A word read in the machine's order and stored again is the same bytes. */
  lemma StoreRead(e: Endian, p: seq<byte>)
    ensures StoreUint(e, |p|, if e.Big? then ReadUint(p) else LeReadUint(p)) == p
  {
    BigEndianValue(p);
    BigEndianValue(Reversed(p));
    ReversedTwice(p);
  }

  /** The second word of a counter block, on a big-endian machine. */
  lemma BigSecondWord(m: seq<byte>, lo: nat)
    requires |m| == 4 && lo < 0x1_0000_0000
    ensures StoreUint(Big, 8, ReadUint(m) * 0x1_0000_0000 + lo) == m + BigEndian(4, lo)
  {
    Pow256Of4();
    Scaled4(Value(m));
    BigEndianConcat(4, Value(m), 4, lo);
    BigEndianValue(m);
  }

  /** The second word of a counter block, on a little-endian machine. */
  lemma LittleSecondWord(m: seq<byte>, lo: nat)
    requires |m| == 4 && lo < 0x1_0000_0000
    ensures StoreUint(Little, 8, LeReadUint(m) + Bswap32(lo) * 0x1_0000_0000) == m + BigEndian(4, lo)
  {
    Pow256Of4();
    var r := Reversed(m);
    ValueBound(r);
    Scaled4(Bswap32(lo));
    BigEndianConcat(4, Bswap32(lo), 4, Value(r));
    BigEndianValue(r);
    BigEndianValue(Reversed(BigEndian(4, lo)));
    ReversedConcat(Reversed(BigEndian(4, lo)), r);
    ReversedTwice(m);
    ReversedTwice(BigEndian(4, lo));
  }

  /** Which form of gcm_fill is compiled: WORDS_BIGENDIAN, HAVE_BUILTIN_BSWAP64, or neither. */
  datatype FillForm = BigWords | SwappedWords | ByBytes

  /** The block that one step of the fill loop stores. */
  method FillBlock(form: FillForm, c: Block, lo: nat) returns (s: seq<byte>)
    requires lo < 0x1_0000_0000
    ensures s == CounterBlock(c, lo)
  {
    match form
    case BigWords =>
      var hi, mid := ReadUint(c[..8]), ReadUint(c[8..12]) * 0x1_0000_0000;
      s := StoreUint(Big, 8, hi) + StoreUint(Big, 8, mid + lo);
      StoreRead(Big, c[..8]);
      BigSecondWord(c[8..12], lo);
      assert c[..8] + (c[8..12] + BigEndian(4, lo)) == CounterBlock(c, lo);
    case SwappedWords =>
      var hi, mid := LeReadUint(c[..8]), LeReadUint(c[8..12]);
      s := StoreUint(Little, 8, hi) + StoreUint(Little, 8, mid + Bswap32(lo) * 0x1_0000_0000);
      StoreRead(Little, c[..8]);
      LittleSecondWord(c[8..12], lo);
      assert c[..8] + (c[8..12] + BigEndian(4, lo)) == CounterBlock(c, lo);
    case ByBytes =>
      s := c[..12] + BigEndian(4, lo);
  }

  /** The block of the `i`-th step is the counter after `i` increments. */
  ghost predicate CountedTo(c: Block, i: nat, lo: nat) {
    lo < 0x1_0000_0000 && CounterBlock(c, lo) == Iter(Inc32, c, i)
  }

  lemma CountedStart(c: Block)
    ensures CountedTo(c, 0, Value(c[12..]))
  {
    Pow256Of4();
    ValueBound(c[12..]);
    BigEndianValue(c[12..]);
    assert c[..12] + c[12..] == c;
  }

  lemma CountedNext(c: Block, i: nat, lo: nat)
    requires CountedTo(c, i, lo)
    ensures CountedTo(c, i + 1, (lo + 1) % 0x1_0000_0000)
  {
    Inc32OfBlock(c, lo);
  }

  /** The buffer when `s` has been stored. */
  ghost predicate Holding(buffer: seq<byte>, was: seq<byte>, at: nat, s: seq<byte>) {
    at + |s| <= |was| && buffer == Splice(was, at, s)
  }

  lemma HoldingNone(was: seq<byte>, at: nat)
    requires at <= |was|
    ensures Holding(was, was, at, [])
  {
  }

  lemma HoldingMore(buffer: seq<byte>, was: seq<byte>, at: nat, s: seq<byte>, t: seq<byte>, k: nat)
    requires Holding(buffer, was, at, s) && k == at + |s| && k + |t| <= |was|
    ensures Holding(Splice(buffer, k, t), was, at, s + t)
  {
    SpliceSplice(was, at, s, t);
  }

  method StoreNext(buffer: array<byte>, k: nat, t: seq<byte>, ghost was: seq<byte>, ghost at: nat, ghost s: seq<byte>, ghost u: seq<byte>)
    requires Holding(buffer[..], was, at, s) && k == at + |s| && k + |t| <= |was| && u == s + t
    modifies buffer
    ensures Holding(buffer[..], was, at, u)
  {
    HoldingMore(buffer[..], was, at, s, t, k);
    Store(buffer, k, t);
  }

  lemma BlocksNext(next: Block -> Block, c: Block, i: nat, b: Block)
    requires b == Iter(next, c, i)
    ensures Blocks(next, c, i + 1) == Blocks(next, c, i) + b
  {
  }

  /** The body of the fill loops. */
  method FillNext(form: FillForm, c: Block, i: nat, lo: nat, buffer: array<byte>, at: nat, ghost was: seq<byte>) returns (lo': nat)
    requires at + 16 * (i + 1) <= |was| && Holding(buffer[..], was, at, Blocks(Inc32, c, i)) && CountedTo(c, i, lo)
    modifies buffer
    ensures Holding(buffer[..], was, at, Blocks(Inc32, c, i + 1)) && CountedTo(c, i + 1, lo')
  {
    var s := FillBlock(form, c, lo);
    BlocksNext(Inc32, c, i, s);
    StoreNext(buffer, at + 16 * i, s, was, at, Blocks(Inc32, c, i), Blocks(Inc32, c, i + 1));
    CountedNext(c, i, lo);
    lo' := (lo + 1) % 0x1_0000_0000;
  }

  lemma AllFilled(buffer: seq<byte>, was: seq<byte>, at: nat, c: Block, i: nat, lo: nat, n: nat)
    requires i == n && Holding(buffer, was, at, Blocks(Inc32, c, i)) && CountedTo(c, i, lo)
    ensures buffer == Splice(was, at, Blocks(Inc32, c, n)) && CounterBlock(c, lo) == Iter(Inc32, c, n)
  {
  }

  /** gcm_fill: store `blocks` counter blocks, and move the counter past them. */
  method GcmFill(form: FillForm, c: Block, blocks: nat, buffer: array<byte>, at: nat) returns (r: Block)
    requires at + 16 * blocks <= buffer.Length
    modifies buffer
    ensures buffer[..] == Splice(old(buffer[..]), at, Blocks(Inc32, c, blocks)) && r == Iter(Inc32, c, blocks)
  {
    ghost var was := buffer[..];
    HoldingNone(was, at);
    CountedStart(c);
    var lo := ReadUint(c[12..]);
    var i := 0;
    while i < blocks
      invariant 0 <= i <= blocks && Holding(buffer[..], was, at, Blocks(Inc32, c, i)) && CountedTo(c, i, lo)
    {
      lo := FillNext(form, c, i, lo, buffer, at, was);
      i := i + 1;
    }
    AllFilled(buffer[..], was, at, c, i, lo, blocks);
    r := CounterBlock(c, lo);
  }
}
