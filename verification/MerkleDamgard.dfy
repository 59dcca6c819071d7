/** MD_UPDATE and MD_PAD of macros.h, for any block size and any compression function. */
module MerkleDamgard {
  import opened Bytes
  import opened Division

  /** The chaining value after the whole blocks of `s`. */
  function Fold<H>(b: nat, f: (H, seq<byte>) -> H, h: H, s: seq<byte>): H
    requires b > 0
    decreases |s|
  {
    if |s| < b then h else Fold(b, f, f(h, s[..b]), s[b..])
  }

  /** What is left of `s` after its whole blocks. */
  function Tail(b: nat, s: seq<byte>): (r: seq<byte>)
    requires b > 0
    ensures |r| < b && |r| <= |s|
    decreases |s|
  {
    if |s| < b then s else Tail(b, s[b..])
  }

  /** The number of whole blocks of `s`. */
  function Count(b: nat, s: seq<byte>): nat
    requires b > 0
    decreases |s|
  {
    if |s| < b then 0 else 1 + Count(b, s[b..])
  }

  lemma {:induction false} TailLength(b: nat, s: seq<byte>)
    requires b > 0
    ensures |Tail(b, s)| == |s| % b && |s| == Count(b, s) * b + |Tail(b, s)|
    decreases |s|
  {
    if |s| >= b {
      TailLength(b, s[b..]);
      assert |s| == Count(b, s) * b + |Tail(b, s)|;
      DivUnique(|s|, b, Count(b, s), |Tail(b, s)|);
    } else {
      DivUnique(|s|, b, 0, |s|);
    }
  }

  /** A message in two parts: the second one meets what the first one has left over. */
  lemma {:induction false} FoldConcat<H>(b: nat, f: (H, seq<byte>) -> H, h: H, s: seq<byte>, t: seq<byte>)
    requires b > 0
    ensures Fold(b, f, h, s + t) == Fold(b, f, Fold(b, f, h, s), Tail(b, s) + t)
    ensures Tail(b, s + t) == Tail(b, Tail(b, s) + t)
    ensures Count(b, s + t) == Count(b, s) + Count(b, Tail(b, s) + t)
    decreases |s|
  {
    if |s| >= b {
      assert (s + t)[..b] == s[..b] && (s + t)[b..] == s[b..] + t;
      FoldConcat(b, f, f(h, s[..b]), s[b..], t);
    }
  }

  /** The chaining value is the initial one at first, takes in one block after the other, and takes in nothing short of a block. */
  lemma FoldSteps<H>(b: nat, f: (H, seq<byte>) -> H, h: H, s: seq<byte>, block: seq<byte>, rest: seq<byte>)
    requires b > 0 && |s| % b == 0 && |block| == b && |rest| < b
    ensures Fold(b, f, h, []) == h
    ensures Fold(b, f, h, s + block) == f(Fold(b, f, h, s), block) && Tail(b, s + block) == [] && Count(b, s + block) == Count(b, s) + 1
    ensures Fold(b, f, h, s + rest) == Fold(b, f, h, s) && Tail(b, s + rest) == rest && Count(b, s + rest) == Count(b, s)
  {
    TailLength(b, s);
    assert Tail(b, s) == [] && [] + block == block && [] + rest == rest;
    FoldConcat(b, f, h, s, block);
    FoldConcat(b, f, h, s, rest);
    assert block[..b] == block && block[b..] == [];
  }

  /** The tail begins where the whole blocks end. */
  lemma CutIs(b: nat, s: seq<byte>) returns (q: nat, cut: int)
    requires b > 0
    ensures cut == |s| - |Tail(b, s)| == q * b && cut <= |s| < cut + b
  {
    TailLength(b, s);
    q, cut := Count(b, s), |s| - |Tail(b, s)|;
  }

  /** A message is its whole blocks and its tail. */
  lemma SplitAt<H>(b: nat, f: (H, seq<byte>) -> H, h: H, s: seq<byte>, q: nat, cut: int)
    requires cut == q * b && cut <= |s| < cut + b
    ensures 0 <= cut && s[cut..] == Tail(b, s) && Fold(b, f, h, s[..cut]) == Fold(b, f, h, s) && Tail(b, s[..cut]) == []
  {
    MulNonNegative(q, b);
    WholeTail(b, s[..cut], q);
    assert s == s[..cut] + s[cut..];
    TailSplit(b, f, h, s, s[..cut], s[cut..]);
  }

  lemma WholeTail(b: nat, front: seq<byte>, q: nat)
    requires b > 0 && |front| == q * b
    ensures Tail(b, front) == []
  {
    TailLength(b, front);
    DivUnique(|front|, b, q, 0);
  }

  /** Blocks and less than a block behind them. */
  lemma TailSplit<H>(b: nat, f: (H, seq<byte>) -> H, h: H, s: seq<byte>, front: seq<byte>, back: seq<byte>)
    requires s == front + back && |back| < b && Tail(b, front) == []
    ensures Tail(b, s) == back && Fold(b, f, h, front) == Fold(b, f, h, s)
  {
    FoldConcat(b, f, h, front, back);
    assert [] + back == back;
  }

  /** `k` zeros after the byte 0x80 make a message of `n` bytes and `size` more a whole number of blocks. */
  predicate Fills(b: nat, size: nat, n: nat, k: nat)
    requires b > 0
  {
    (n + 1 + k + size) % b == 0
  }

  /** `k` is the padding of section 5.1 of FIPS 180-4: the smallest number of zeros that will do. */
  ghost predicate IsFewest(b: nat, size: nat, n: nat, k: nat)
    requires b > 0
  {
    Fills(b, size, n, k) && forall j: nat :: j < k ==> !Fills(b, size, n, j)
  }

  /** How many zeros MD_PAD writes after 0x80, in the first block and in the second one if there is one. */
  function ZerosFor(b: nat, size: nat, index: nat): nat
    requires index < b && size <= b
  {
    if index + 1 > b - size then (b - (index + 1)) + (b - size) else b - size - (index + 1)
  }

  lemma ZerosAreFewest(b: nat, size: nat, n: nat, q: nat, index: nat)
    requires n == q * b + index && index < b && size <= b
    ensures IsFewest(b, size, n, ZerosFor(b, size, index))
  {
    var k := ZerosFor(b, size, index);
    if index + 1 > b - size {
      DivUnique(n + 1 + k + size, b, q + 2, 0);
      forall j: nat | j < k ensures !Fills(b, size, n, j) {
        if index + 1 + size + j < 2 * b {
          NotWhole(n + 1 + j + size, b, q + 1, index + 1 + size + j - b);
        }
      }
    } else {
      DivUnique(n + 1 + k + size, b, q + 1, 0);
      forall j: nat | j < k ensures !Fills(b, size, n, j) {
        NotWhole(n + 1 + j + size, b, q, index + 1 + size + j);
      }
    }
  }

  lemma NotWhole(a: nat, b: nat, q: nat, r: nat)
    requires a == q * b + r && 0 < r < b
    ensures a % b != 0
  {
    DivUnique(a, b, q, r);
  }

  /** All of the padded message `p` but the last b - size bytes is in the chaining value, and those are in the block. */
  ghost predicate IsPadded<H>(b: nat, size: nat, f: (H, seq<byte>) -> H, h: H, p: seq<byte>, state: H, block: seq<byte>)
    requires b > 0
  {
    var cut := |p| - (b - size);
    size <= b == |block| && 0 <= cut && state == Fold(b, f, h, p[..cut]) && block[..b - size] == p[cut..]
  }

  /** With the `size` bytes of the length field in the rest of the block, one more compression gives the hash
      of the whole padded message. */
  lemma PaddedHash<H>(b: nat, size: nat, f: (H, seq<byte>) -> H, h: H, p: seq<byte>, state: H, block: seq<byte>, length: seq<byte>)
    requires b > 0 && IsPadded(b, size, f, h, p, state, block) && |length| == size && (|p| + size) % b == 0
    ensures Fold(b, f, h, p + length) == f(state, block[..b - size] + length)
  {
    var cut := |p| - (b - size);
    var q := (|p| + size) / b;
    assert cut == (q - 1) * b;
    DivUnique(cut, b, q - 1, 0);
    TailLength(b, p[..cut]);
    var last := p[cut..] + length;
    assert p + length == p[..cut] + last;
    FoldConcat(b, f, h, p[..cut], last);
    assert Tail(b, p[..cut]) + last == last;
    assert last[..b] == last;
  }

  /** The padding fits behind the tail. */
  lemma PadOne<H>(b: nat, size: nat, f: (H, seq<byte>) -> H, h: H, m: seq<byte>, state: H, block: seq<byte>, pad: seq<byte>)
    requires b > 0 && size <= b == |block| && |Tail(b, m)| + |pad| == b - size
    requires state == Fold(b, f, h, m) && block[..b - size] == Tail(b, m) + pad
    ensures IsPadded(b, size, f, h, m + pad, state, block)
  {
    var q, cut := CutIs(b, m);
    SplitAt(b, f, h, m, q, cut);
    CutFront(m, cut, pad);
    Padded(b, size, f, h, m + pad, cut, state, block);
  }

  lemma Padded<H>(b: nat, size: nat, f: (H, seq<byte>) -> H, h: H, p: seq<byte>, cut: nat, state: H, block: seq<byte>)
    requires b > 0 && size <= b == |block| && cut + (b - size) == |p| && state == Fold(b, f, h, p[..cut]) && block[..b - size] == p[cut..]
    ensures IsPadded(b, size, f, h, p, state, block)
  {
  }

  lemma Assoc<T>(s: seq<T>, t: seq<T>, u: seq<T>)
    ensures s + t + u == s + (t + u)
  {
  }

  lemma CutFront<T>(m: seq<T>, cut: nat, z: seq<T>)
    requires cut <= |m|
    ensures (m + z)[..cut] == m[..cut] && (m + z)[cut..] == m[cut..] + z
  {
  }

  lemma ZerosSplit(n: nat, k: nat)
    ensures Zeros(n + k) == Zeros(n) + Zeros(k)
  {
  }

  lemma WholeBlock<T>(s: seq<T>, b: nat)
    requires b == |s|
    ensures s[..b] == s && s[b..] == []
  {
  }

  /** It does not, and a block of its own follows. */
  lemma PadTwo<H>(b: nat, size: nat, f: (H, seq<byte>) -> H, h: H, m: seq<byte>, state: H, block: seq<byte>, n: nat, k: nat)
    requires b > 0 && size <= b == |block| && |Tail(b, m)| + 1 + n == b && k == n + (b - size)
    requires state == f(Fold(b, f, h, m), Tail(b, m) + [0x80] + Zeros(n))
    requires block[..b - size] == Zeros(b - size)
    ensures IsPadded(b, size, f, h, m + [0x80] + Zeros(k), state, block)
  {
    var first, rest := [0x80] + Zeros(n), Zeros(b - size);
    FirstBlock(b, f, h, m, first, Tail(b, m));
    Assoc(Tail(b, m), [0x80], Zeros(n));
    ZerosSplit(n, b - size);
    Assoc(m, [0x80], Zeros(n) + rest);
    Assoc([0x80], Zeros(n), rest);
    Assoc(m, first, rest);
    CutFront(m + first, |m + first|, rest);
    WholeBlock(m + first, |m + first|);
    Padded(b, size, f, h, m + [0x80] + Zeros(k), |m + first|, state, block);
  }

  /** What completes the block of the tail is compressed with it. */
  lemma FirstBlock<H>(b: nat, f: (H, seq<byte>) -> H, h: H, m: seq<byte>, first: seq<byte>, t: seq<byte>)
    requires b > 0 && t == Tail(b, m) && |t + first| == b
    ensures Fold(b, f, h, m + first) == f(Fold(b, f, h, m), t + first)
  {
    FoldConcat(b, f, h, m, first);
    WholeBlock(t + first, b);
  }

  /** The fields MD_UPDATE assumes in a context, and those of the hash function. */
  class MdCtx<H> {
    const block: array<byte>
    var index: nat
    var state: H
    var count: nat

    constructor (blockSize: nat, h: H)
      requires blockSize > 0
      ensures fresh(block) && block.Length == blockSize && index == 0 && state == h && count == 0
    {
      block := new byte[blockSize];
      index, state, count := 0, h, 0;
    }

    /** The context holds the message `m`. */
    ghost predicate Holds(f: (H, seq<byte>) -> H, h: H, m: seq<byte>)
      reads this, block
    {
      && block.Length > 0
      && state == Fold(block.Length, f, h, m) && count == Count(block.Length, m)
      && index == |Tail(block.Length, m)| && block[..index] == Tail(block.Length, m)
    }

    /** One block is compressed and counted. */
    method Compress(f: (H, seq<byte>) -> H, p: seq<byte>)
      modifies `state, `count
      ensures state == f(old(state), p) && count == old(count) + 1
    {
      state := f(state, p);
      count := count + 1;
    }

    /** MD_UPDATE */
    method Update(f: (H, seq<byte>) -> H, data0: seq<byte>, ghost h: H, ghost m: seq<byte>)
      requires Holds(f, h, m)
      modifies this, block
      ensures Holds(f, h, m + data0)
    {
      var data, b := data0, block.Length;
      FoldConcat(b, f, h, m, data0);
      ghost var t := Tail(b, m) + data;
      if index > 0 {
        var left := b - index;
        if |data| < left {
          Store(block, index, data);
          index := index + |data|;
          assert block[..index] == t;
          return;
        } else {
          Store(block, index, data[..left]);
          assert block[..] == t[..b] && t[b..] == data0[left..];
          Compress(f, block[..]);
          data := data[left..];
        }
      } else {
        assert t == data0;
      }
      UpdateBlocks(f, data, h, m + data0);
    }

    /** The rest of MD_UPDATE: the blocks of the data that are whole, and what is left into the buffer. */
    method UpdateBlocks(f: (H, seq<byte>) -> H, data0: seq<byte>, ghost h: H, ghost m: seq<byte>)
      requires var b := block.Length;
        b > 0 && Fold(b, f, state, data0) == Fold(b, f, h, m) && Tail(b, data0) == Tail(b, m) && count + Count(b, data0) == Count(b, m)
      modifies this, block
      ensures Holds(f, h, m)
    {
      var data, b := data0, block.Length;
      while |data| >= b
        invariant Fold(b, f, state, data) == Fold(b, f, h, m) && Tail(b, data) == Tail(b, m)
        invariant count + Count(b, data) == Count(b, m)
      {
        Compress(f, data[..b]);
        data := data[b..];
      }
      Store(block, 0, data);
      index := |data|;
      assert block[..index] == data;
    }

    /** MD_PAD: `size` bytes of the block are left, and everything before them is the padded message. */
    method Pad(f: (H, seq<byte>) -> H, size: nat, ghost h: H, ghost m: seq<byte>) returns (ghost k: nat)
      requires Holds(f, h, m) && size <= block.Length
      modifies `state, block
      ensures IsFewest(block.Length, size, |m|, k)
      ensures IsPadded(block.Length, size, f, h, m + [0x80] + Zeros(k), state, block[..])
    {
      var b, i := block.Length, index;
      ghost var t := Tail(b, m);
      k := ZerosFor(b, size, i);
      TailLength(b, m);
      ZerosAreFewest(b, size, |m|, Count(b, m), i);
      block[i] := 0x80;
      i := i + 1;
      assert block[..i] == t + [0x80];
      if i > b - size {
        Store(block, i, Zeros(b - i));
        assert block[..] == t + [0x80] + Zeros(b - i);
        state := f(state, block[..]);
        i := 0;
        Store(block, i, Zeros(b - size - i));
        assert block[..][..b - size] == Zeros(b - size);
        PadTwo(b, size, f, h, m, state, block[..], b - (|t| + 1), k);
      } else {
        Store(block, i, Zeros(b - size - i));
        assert block[..][..b - size] == t + [0x80] + Zeros(b - size - i);
        Assoc(t, [0x80], Zeros(k));
        Assoc(m, [0x80], Zeros(k));
        PadOne(b, size, f, h, m, state, block[..], [0x80] + Zeros(k));
      }
    }
  }
}
