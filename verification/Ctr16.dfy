/** ctr16.c: counter mode on 16-byte blocks, directly in the destination or through a bounded buffer. */
module Ctr16 {
  import opened Bytes
  import opened Counter
  import opened MemXor

  const CTR_BUFFER_LIMIT: nat := 512

  /** Each of the `n` blocks of `s` through the cipher. */
  function Ecb(f: Block -> Block, s: seq<byte>, n: nat): (r: seq<byte>)
    requires |s| == 16 * n
    ensures |r| == 16 * n
  {
    if n == 0 then [] else Ecb(f, s[..16 * (n - 1)], n - 1) + f(s[16 * (n - 1)..])
  }

  /** The key stream: the counter blocks from `c` on, each through the cipher. */
  function Stream(f: Block -> Block, next: Block -> Block, c: Block, n: nat): (r: seq<byte>)
    ensures |r| == 16 * n
  {
    if n == 0 then [] else Stream(f, next, c, n - 1) + f(Iter(next, c, n - 1))
  }

  lemma {:induction false} EcbBlocks(f: Block -> Block, next: Block -> Block, c: Block, n: nat)
    ensures Ecb(f, Blocks(next, c, n), n) == Stream(f, next, c, n)
  {
    if n > 0 {
      var s := Blocks(next, c, n);
      assert s[..16 * (n - 1)] == Blocks(next, c, n - 1) && s[16 * (n - 1)..] == Iter(next, c, n - 1);
      EcbBlocks(f, next, c, n - 1);
    }
  }

  lemma {:induction false} IterIter(next: Block -> Block, c: Block, m: nat, n: nat)
    ensures Iter(next, Iter(next, c, m), n) == Iter(next, c, m + n)
  {
    if n > 0 {
      IterIter(next, c, m, n - 1);
    }
  }

  /** Key stream generated in two pieces is the key stream generated at once. */
  lemma {:induction false} StreamConcat(f: Block -> Block, next: Block -> Block, c: Block, m: nat, n: nat)
    ensures Stream(f, next, c, m + n) == Stream(f, next, c, m) + Stream(f, next, Iter(next, c, m), n)
  {
    if n == 0 {
    } else {
      StreamConcat(f, next, c, m, n - 1);
      IterIter(next, c, m, n - 1);
    }
  }

  /** How many blocks `n` bytes take. */
  function CeilBlocks(n: nat): (r: nat)
    ensures n <= 16 * r < n + 16
  {
    (n + 15) / 16
  }

  /** GCTR of section 6.5 of SP 800-38D: the data, exclusive or as much of the key stream. */
  function Gctr(f: Block -> Block, next: Block -> Block, c: Block, data: seq<byte>): (r: seq<byte>)
    ensures |r| == |data|
  {
    Xor(data, Stream(f, next, c, CeilBlocks(|data|))[..|data|])
  }

  /** Counter mode is its own inverse. */
  lemma GctrTwice(f: Block -> Block, next: Block -> Block, c: Block, data: seq<byte>)
    ensures Gctr(f, next, c, Gctr(f, next, c, data)) == data
  {
    XorCancels(data, Stream(f, next, c, CeilBlocks(|data|))[..|data|]);
  }

  lemma CounterConcat(next: Block -> Block, c: Block, m: nat, n: nat)
    ensures Iter(next, Iter(next, c, m), CeilBlocks(n)) == Iter(next, c, CeilBlocks(16 * m + n))
  {
    assert CeilBlocks(16 * m + n) == m + CeilBlocks(n);
    IterIter(next, c, m, CeilBlocks(n));
  }

  lemma XorConcat(s: seq<byte>, t: seq<byte>, u: seq<byte>, v: seq<byte>)
    requires |s| == |u| && |t| == |v|
    ensures Xor(s + t, u + v) == Xor(s, u) + Xor(t, v)
  {
  }

  lemma TakeConcat(u: seq<byte>, v: seq<byte>, n: nat)
    requires n <= |v|
    ensures (u + v)[..|u| + n] == u + v[..n] && u[..|u|] == u
  {
  }

  /** A message cut after a whole number of blocks, with the counter carried over. */
  lemma GctrConcat(f: Block -> Block, next: Block -> Block, c: Block, s: seq<byte>, m: nat, t: seq<byte>)
    requires |s| == 16 * m
    ensures Gctr(f, next, c, s + t) == Gctr(f, next, c, s) + Gctr(f, next, Iter(next, c, m), t)
  {
    var n := CeilBlocks(|t|);
    assert CeilBlocks(|s|) == m && CeilBlocks(|s + t|) == m + n;
    StreamConcat(f, next, c, m, n);
    var u, v := Stream(f, next, c, m), Stream(f, next, Iter(next, c, m), n);
    TakeConcat(u, v, |t|);
    XorConcat(s, t, u, v[..|t|]);
  }

  lemma SliceSlice(s: seq<byte>, at: nat, n: nat, i: nat, j: nat)
    requires i <= j <= n && at + n <= |s|
    ensures s[at..at + n][i..j] == s[at + i..at + j]
  {
    var t, u := s[at..at + n][i..j], s[at + i..at + j];
    assert forall k :: 0 <= k < j - i ==> t[k] == u[k];
  }

  lemma EcbStep(f: Block -> Block, s: seq<byte>, i: nat)
    requires 16 * (i + 1) <= |s|
    ensures Ecb(f, s[..16 * (i + 1)], i + 1) == Ecb(f, s[..16 * i], i) + f(s[16 * i..16 * (i + 1)])
  {
    var t := s[..16 * (i + 1)];
    assert t[..16 * i] == s[..16 * i] && t[16 * i..] == s[16 * i..16 * (i + 1)];
  }

  lemma SpliceRest(was: seq<byte>, at: nat, s: seq<byte>, i: nat, j: nat)
    requires at + |s| <= i <= j <= |was|
    ensures Splice(was, at, s)[i..j] == was[i..j]
  {
  }

  lemma SpliceFront(was: seq<byte>, s: seq<byte>)
    requires |s| <= |was|
    ensures Splice(was, 0, s)[..|s|] == s
  {
  }

  /** One block of the cipher, in place, when those before it are done. */
  method CipherAt(f: Block -> Block, mem: array<byte>, at: nat, n: nat, i: nat, ghost was: seq<byte>, ghost s: seq<byte>)
    requires i < n && at + 16 * n <= mem.Length == |was| && s == was[at..at + 16 * n]
    requires mem[..] == Splice(was, at, Ecb(f, s[..16 * i], i))
    modifies mem
    ensures mem[..] == Splice(was, at, Ecb(f, s[..16 * (i + 1)], i + 1))
  {
    var j := at + 16 * i;
    var b := mem[j..j + 16];
    SpliceRest(was, at, Ecb(f, s[..16 * i], i), j, j + 16);
    SliceSlice(was, at, 16 * n, 16 * i, 16 * (i + 1));
    assert b == mem[..][j..j + 16] == s[16 * i..16 * (i + 1)];
    EcbStep(f, s, i);
    SpliceSplice(was, at, Ecb(f, s[..16 * i], i), f(b));
    Store(mem, j, f(b));
  }

  /** The cipher as a nettle_cipher_func, in place on `n` blocks. */
  method CipherInPlace(f: Block -> Block, mem: array<byte>, at: nat, n: nat)
    requires at + 16 * n <= mem.Length
    modifies mem
    ensures mem[..] == Splice(old(mem[..]), at, Ecb(f, old(mem[..])[at..at + 16 * n], n))
  {
    ghost var was := mem[..];
    ghost var s := was[at..at + 16 * n];
    var i := 0;
    while i < n
      invariant 0 <= i <= n
      invariant mem[..] == Splice(was, at, Ecb(f, s[..16 * i], i))
    {
      CipherAt(f, mem, at, n, i, was, s);
      i := i + 1;
    }
    assert s[..16 * n] == s;
  }

  /** `fill` and then the cipher: the Inc32 `n` blocks of key stream. */
  method KeyStream(form: FillForm, f: Block -> Block, ctr: Block, n: nat, mem: array<byte>, at: nat) returns (ctr': Block)
    requires at + 16 * n <= mem.Length
    modifies mem
    ensures mem[..] == Splice(old(mem[..]), at, Stream(f, Inc32, ctr, n)) && ctr' == Iter(Inc32, ctr, n)
  {
    ghost var was, blocks, s := mem[..], Blocks(Inc32, ctr, n), Stream(f, Inc32, ctr, n);
    ctr' := GcmFill(form, ctr, n, mem, at);
    ghost var filled := mem[..];
    SpliceOver(was, at, blocks, s);
    assert filled[at..at + 16 * n] == blocks;
    EcbBlocks(f, Inc32, ctr, n);
    CipherInPlace(f, mem, at, n);
    assert mem[..] == Splice(filled, at, s);
  }

  lemma MiddleSlice<T>(s: seq<T>, t: seq<T>, u: seq<T>, i: nat, j: nat)
    requires i == |s| && j == |s| + |t|
    ensures (s + t + u)[i..j] == t
  {
  }

  lemma StreamSlice(f: Block -> Block, next: Block -> Block, c: Block, m: nat, k: nat, n: nat)
    requires m + k <= n
    ensures Stream(f, next, c, n)[16 * m..16 * (m + k)] == Stream(f, next, Iter(next, c, m), k)
  {
    StreamConcat(f, next, c, m + k, n - (m + k));
    StreamConcat(f, next, c, m, k);
    MiddleSlice(Stream(f, next, c, m), Stream(f, next, Iter(next, c, m), k), Stream(f, next, Iter(next, c, m + k), n - (m + k)), 16 * m, 16 * (m + k));
  }

  lemma XorSlice(a: seq<byte>, b: seq<byte>, i: nat, n: nat)
    requires |a| == |b| && i + n <= |a|
    ensures Xor(a, b)[i..i + n] == Xor(a[i..i + n], b[i..i + n])
  {
  }

  lemma TwoSlices(s: seq<byte>, n: nat, i: nat, k: nat, j: nat)
    requires i + k <= n <= |s| && i + k <= j <= |s|
    ensures s[..n][i..i + k] == s[i..j][..k]
  {
    var t, u := s[..n][i..i + k], s[i..j][..k];
    assert forall m :: 0 <= m < k ==> t[m] == u[m] == s[i + m];
  }

  /** The bytes of the output from a block boundary on take key stream from the counter for that block on. */
  lemma GctrSlice(f: Block -> Block, next: Block -> Block, c: Block, data: seq<byte>, m: nat, n: nat)
    requires 16 * m + n <= |data|
    ensures Gctr(f, next, c, data)[16 * m..16 * m + n]
         == Xor(data[16 * m..16 * m + n], Stream(f, next, Iter(next, c, m), CeilBlocks(n))[..n])
  {
    var k := CeilBlocks(n);
    assert m + k <= CeilBlocks(|data|);
    var s := Stream(f, next, c, CeilBlocks(|data|));
    StreamSlice(f, next, c, m, k, CeilBlocks(|data|));
    XorSlice(data, s[..|data|], 16 * m, n);
    TwoSlices(s, |data|, 16 * m, n, 16 * (m + k));
  }

  /** The first `i` bytes of the output are in place. */
  ghost predicate Written(mem: seq<byte>, was: seq<byte>, at: nat, out: seq<byte>, i: nat) {
    i <= |out| && at + |out| <= |was| && mem == Splice(was, at, out[..i])
  }

  lemma WrittenEnds(was: seq<byte>, at: nat, out: seq<byte>)
    requires at + |out| <= |was|
    ensures Written(was, was, at, out, 0)
    ensures forall mem {:trigger Written(mem, was, at, out, |out|)} :: Written(mem, was, at, out, |out|) ==> mem == Splice(was, at, out)
  {
    assert out[..|out|] == out;
  }

  lemma WrittenStep(mem: seq<byte>, was: seq<byte>, at: nat, out: seq<byte>, i: nat, s: seq<byte>)
    requires Written(mem, was, at, out, i) && i + |s| <= |out| && s == out[i..i + |s|]
    ensures Written(Splice(mem, at + i, s), was, at, out, i + |s|)
  {
    assert out[..i] + s == out[..i + |s|];
    SpliceSplice(was, at, out[..i], s);
  }

  /** The source: bytes of its own, or the destination as it was. */
  ghost predicate Source(src: Ptr, dst: Ptr, was: seq<byte>, data: seq<byte>)
    reads src.mem
  {
    && src.at + |data| <= src.mem.Length
    && if src.mem == dst.mem then src == dst && |was| == dst.mem.Length && was[dst.at..dst.at + |data|] == data
       else src.mem[..][src.at..src.at + |data|] == data
  }

  /** The source bytes not yet reached are those of the start, whether or not source and destination are the same. */
  lemma SourceBytes(src: Ptr, dst: Ptr, was: seq<byte>, data: seq<byte>, out: seq<byte>, i: nat, n: nat)
    requires |out| == |data| && dst.at + |data| <= dst.mem.Length && i + n <= |data|
    requires Source(src, dst, was, data) && Written(dst.mem[..], was, dst.at, out, i)
    ensures src.mem[..][src.at + i..src.at + i + n] == data[i..i + n]
  {
    if src.mem == dst.mem {
      SpliceRest(was, dst.at, out[..i], dst.at + i, dst.at + i + n);
      SliceSlice(was, dst.at, |data|, i, i + n);
    } else {
      SliceSlice(src.mem[..], src.at, |data|, i, i + n);
    }
  }

  method ReadNext(dst: Ptr, src: Ptr, i: nat, n: nat, ghost was: seq<byte>, ghost data: seq<byte>, ghost out: seq<byte>) returns (s: seq<byte>)
    requires |out| == |data| && i + n <= |data| && dst.at + |data| <= dst.mem.Length
    requires Source(src, dst, was, data) && Written(dst.mem[..], was, dst.at, out, i)
    ensures s == data[i..i + n]
  {
    SourceBytes(src, dst, was, data, out, i, n);
    s := src.mem[..][src.at + i..src.at + i + n];
  }

  method WriteNext(dst: Ptr, src: Ptr, i: nat, s: seq<byte>, n: nat, ghost was: seq<byte>, ghost data: seq<byte>, ghost out: seq<byte>)
    requires |out| == |data| && |s| == n && i + n <= |data| && dst.at + |data| <= dst.mem.Length && s == out[i..i + n]
    requires Source(src, dst, was, data) && Written(dst.mem[..], was, dst.at, out, i)
    modifies dst.mem
    ensures Source(src, dst, was, data) && Written(dst.mem[..], was, dst.at, out, i + n)
  {
    WrittenStep(dst.mem[..], was, dst.at, out, i, s);
    Store(dst.mem, dst.at + i, s);
  }

  /** memxor3 of bytes that are known. */
  method Xor3Into(e: Endian, dst: Ptr, a: Ptr, b: Ptr, n: nat, ghost p: seq<byte>, ghost q: seq<byte>)
    requires dst.at + n <= dst.mem.Length && a.at + n <= a.mem.Length && b.at + n <= b.mem.Length
    requires (a.mem == dst.mem ==> a == dst) && (b.mem == dst.mem ==> b == dst)
    requires p == a.mem[..][a.at..a.at + n] && q == b.mem[..][b.at..b.at + n]
    modifies dst.mem
    ensures dst.mem[..] == Splice(old(dst.mem[..]), dst.at, Xor(p, q))
  {
    MemXor3(e, dst, a, b, n);
  }

  /** memxor3 of the next `n` bytes of the source with the buffer. */
  method XorBuffer(e: Endian, dst: Ptr, src: Ptr, i: nat, n: nat, buffer: array<byte>,
                   ghost was: seq<byte>, ghost data: seq<byte>, ghost out: seq<byte>)
    requires buffer != dst.mem && buffer != src.mem && n <= buffer.Length
    requires |out| == |data| && i + n <= |data| && dst.at + |data| <= dst.mem.Length
    requires Source(src, dst, was, data) && Written(dst.mem[..], was, dst.at, out, i)
    requires out[i..i + n] == Xor(data[i..i + n], buffer[..][0..n])
    modifies dst.mem
    ensures Source(src, dst, was, data) && Written(dst.mem[..], was, dst.at, out, i + n)
  {
    SourceBytes(src, dst, was, data, out, i, n);
    WrittenStep(dst.mem[..], was, dst.at, out, i, out[i..i + n]);
    Xor3Into(e, Plus(dst, i), Plus(src, i), Ptr(buffer, 0, 0), n, data[i..i + n], buffer[..][0..n]);
  }

  /** What the two paths are to write. */
  ghost predicate Wanted(f: Block -> Block, next: Block -> Block, c: Block, data: seq<byte>, out: seq<byte>) {
    out == Gctr(f, next, c, data)
  }

  lemma WantedSlice(f: Block -> Block, next: Block -> Block, c: Block, data: seq<byte>, out: seq<byte>, m: nat, n: nat, junk: seq<byte>, k: seq<byte>)
    requires Wanted(f, next, c, data, out) && 16 * m + n <= |data|
    requires k == Stream(f, next, Iter(next, c, m), CeilBlocks(n)) && |k| <= |junk|
    ensures |out| == |data| && out[16 * m..16 * m + n] == Xor(data[16 * m..16 * m + n], Splice(junk, 0, k)[0..n])
  {
    GctrSlice(f, next, c, data, m, n);
    assert Splice(junk, 0, k)[0..n] == k[..n];
  }

  /** `blocks` blocks of key stream into a buffer, and from there onto the next `n` bytes. */
  method CryptPart(e: Endian, form: FillForm, f: Block -> Block, ctr: Block, i: nat, n: nat, blocks: nat, buffer: array<byte>,
                   dst: Ptr, src: Ptr, ghost m: nat, ghost was: seq<byte>, ghost c: Block, ghost data: seq<byte>, ghost out: seq<byte>)
    returns (ctr': Block)
    requires Wanted(f, Inc32, c, data, out) && ctr == Iter(Inc32, c, m) && i == 16 * m
    requires blocks == CeilBlocks(n) && 16 * blocks <= buffer.Length && buffer != dst.mem && buffer != src.mem
    requires |out| == |data| && i + n <= |data| && dst.at + |data| <= dst.mem.Length
    requires Source(src, dst, was, data) && Written(dst.mem[..], was, dst.at, out, i)
    modifies dst.mem, buffer
    ensures Source(src, dst, was, data) && Written(dst.mem[..], was, dst.at, out, i + n) && ctr' == Iter(Inc32, c, m + blocks)
  {
    WantedSlice(f, Inc32, c, data, out, m, n, buffer[..], Stream(f, Inc32, ctr, blocks));
    IterIter(Inc32, c, m, blocks);
    ctr' := KeyStream(form, f, ctr, blocks, buffer, 0);
    XorBuffer(e, dst, src, i, n, buffer, was, data, out);
  }

  lemma XorCommutes(a: seq<byte>, b: seq<byte>)
    requires |a| == |b|
    ensures Xor(a, b) == Xor(b, a)
  {
  }

  lemma WantedStart(f: Block -> Block, next: Block -> Block, c: Block, data: seq<byte>, out: seq<byte>, n: nat)
    requires Wanted(f, next, c, data, out) && 16 * n <= |data|
    ensures |out| == |data| && Xor(Stream(f, next, c, n), data[..16 * n]) == out[..16 * n]
  {
    GctrSlice(f, next, c, data, 0, 16 * n);
    assert CeilBlocks(16 * n) == n;
    XorCommutes(data[..16 * n], Stream(f, next, c, n));
  }

  /** memxor of the source into the key stream `k` that is already in the destination. */
  method XorInto(e: Endian, dst: Ptr, src: Ptr, done: nat, ghost k: seq<byte>,
                 ghost was: seq<byte>, ghost data: seq<byte>, ghost out: seq<byte>)
    requires |out| == |data| && done == |k| <= |data| && dst.at + |data| <= dst.mem.Length && |was| == dst.mem.Length
    requires src.mem != dst.mem && Source(src, dst, was, data) && dst.mem[..] == Splice(was, dst.at, k)
    requires Xor(k, data[..done]) == out[..done]
    modifies dst.mem
    ensures Written(dst.mem[..], was, dst.at, out, done)
  {
    ghost var before, x, y := dst.mem[..], dst.mem[..][dst.at..dst.at + done], src.mem[..][src.at..src.at + done];
    SliceSlice(src.mem[..], src.at, |data|, 0, done);
    SpliceOver(was, dst.at, k, Xor(k, y));
    MemXor.MemXor(e, dst, src, done);
    assert dst.mem[..] == Splice(before, dst.at, Xor(x, y));
  }

  lemma SameIter(next: Block -> Block, c: Block, m: nat, n: nat)
    requires m == n
    ensures Iter(next, c, m) == Iter(next, c, n)
  {
  }

  lemma CeilIs(n: nat, r: nat)
    requires n <= 16 * r < n + 16
    ensures r == CeilBlocks(n)
  {
  }

  /** The last round of the buffered path. */
  method CryptLast(e: Endian, form: FillForm, f: Block -> Block, ctr: Block, i: nat, n: nat, blocks: nat, buffer: array<byte>,
                   dst: Ptr, src: Ptr, ghost m: nat, ghost was: seq<byte>, ghost c: Block, ghost data: seq<byte>, ghost out: seq<byte>)
    returns (ctr': Block)
    requires Wanted(f, Inc32, c, data, out) && ctr == Iter(Inc32, c, m) && i == 16 * m && i + n == |data|
    requires n <= 16 * blocks < n + 16 && 16 * blocks <= buffer.Length && buffer != dst.mem && buffer != src.mem
    requires |out| == |data| && dst.at + |data| <= dst.mem.Length
    requires Source(src, dst, was, data) && Written(dst.mem[..], was, dst.at, out, i)
    modifies dst.mem, buffer
    ensures Written(dst.mem[..], was, dst.at, out, |out|) && ctr' == Iter(Inc32, c, CeilBlocks(|data|))
  {
    CeilIs(n, blocks);
    CeilIs(|data|, m + blocks);
    SameIter(Inc32, c, m + blocks, CeilBlocks(|data|));
    ctr' := CryptPart(e, form, f, ctr, i, n, blocks, buffer, dst, src, m, was, c, data, out);
    assert Written(dst.mem[..], was, dst.at, out, |out|);
  }

  /** The whole blocks of the direct path. */
  method CryptWhole(e: Endian, form: FillForm, f: Block -> Block, ctr: Block, blocks: nat, dst: Ptr, src: Ptr,
                    ghost was: seq<byte>, ghost data: seq<byte>, ghost out: seq<byte>) returns (ctr': Block)
    requires Wanted(f, Inc32, ctr, data, out) && |out| == |data| && 16 * blocks <= |data|
    requires dst.at + |data| <= dst.mem.Length && was == dst.mem[..] && src.mem != dst.mem && Source(src, dst, was, data)
    modifies dst.mem
    ensures Source(src, dst, was, data) && Written(dst.mem[..], was, dst.at, out, 16 * blocks) && ctr' == Iter(Inc32, ctr, blocks)
  {
    ctr' := KeyStream(form, f, ctr, blocks, dst.mem, dst.at);
    WantedStart(f, Inc32, ctr, data, out, blocks);
    XorInto(e, dst, src, 16 * blocks, Stream(f, Inc32, ctr, blocks), was, data, out);
  }

  /** The path for a destination that is aligned and not the source: key stream straight into the destination. */
  method CryptDirect(e: Endian, form: FillForm, f: Block -> Block, ctr: Block, length: nat, dst: Ptr, src: Ptr,
                     ghost was: seq<byte>, ghost data: seq<byte>, ghost out: seq<byte>) returns (ctr': Block)
    requires Wanted(f, Inc32, ctr, data, out) && |out| == |data| == length
    requires dst.at + length <= dst.mem.Length && was == dst.mem[..] && src.mem != dst.mem && Source(src, dst, was, data)
    modifies dst.mem
    ensures Written(dst.mem[..], was, dst.at, out, |out|) && ctr' == Iter(Inc32, ctr, CeilBlocks(|data|))
  {
    var blocks := length / 16;
    ctr' := CryptWhole(e, form, f, ctr, blocks, dst, src, was, data, out);
    var left := length - 16 * blocks;
    if left > 0 {
      assert left < 16;
      var block := new byte[16];
      ctr' := CryptLast(e, form, f, ctr', 16 * blocks, left, 1, block, dst, src, blocks, was, ctr, data, out);
    } else {
      CeilIs(length, blocks);
      assert Written(dst.mem[..], was, dst.at, out, |out|);
    }
  }

  /** What is left of the buffered path, if anything, when less than a full buffer of bytes is. */
  method CryptRest(e: Endian, form: FillForm, f: Block -> Block, ctr: Block, i: nat, length: nat, blocks: nat, buffer: array<byte>,
                   dst: Ptr, src: Ptr, ghost m: nat, ghost was: seq<byte>, ghost c: Block, ghost data: seq<byte>, ghost out: seq<byte>)
    returns (ctr': Block)
    requires Wanted(f, Inc32, c, data, out) && ctr == Iter(Inc32, c, m) && i == 16 * m <= length && length == |data| == |out|
    requires length - i <= 16 * blocks < length - i + 16 && m + blocks == CeilBlocks(|data|)
    requires length - i < CTR_BUFFER_LIMIT && 16 * blocks <= buffer.Length && buffer != dst.mem && buffer != src.mem && dst.at + |data| <= dst.mem.Length
    requires Source(src, dst, was, data) && Written(dst.mem[..], was, dst.at, out, i)
    modifies dst.mem, buffer
    ensures Written(dst.mem[..], was, dst.at, out, |out|) && ctr' == Iter(Inc32, c, CeilBlocks(|data|))
  {
    ctr' := ctr;
    if blocks > 0 {
      ctr' := CryptLast(e, form, f, ctr', i, length - i, blocks, buffer, dst, src, m, was, c, data, out);
    } else {
      assert Written(dst.mem[..], was, dst.at, out, |out|);
    }
  }

  /** A full buffer of key stream, and the bytes it is for. */
  method CryptBatch(e: Endian, form: FillForm, f: Block -> Block, ctr: Block, i: nat, buffer: array<byte>,
                    dst: Ptr, src: Ptr, ghost m: nat, ghost was: seq<byte>, ghost c: Block, ghost data: seq<byte>, ghost out: seq<byte>)
    returns (ctr': Block)
    requires Wanted(f, Inc32, c, data, out) && ctr == Iter(Inc32, c, m) && i == 16 * m
    requires CTR_BUFFER_LIMIT <= buffer.Length && buffer != dst.mem && buffer != src.mem
    requires |out| == |data| && i + CTR_BUFFER_LIMIT <= |data| && dst.at + |data| <= dst.mem.Length
    requires Source(src, dst, was, data) && Written(dst.mem[..], was, dst.at, out, i)
    modifies dst.mem, buffer
    ensures Source(src, dst, was, data) && Written(dst.mem[..], was, dst.at, out, i + CTR_BUFFER_LIMIT) && ctr' == Iter(Inc32, c, m + 32)
  {
    ctr' := CryptPart(e, form, f, ctr, i, CTR_BUFFER_LIMIT, CTR_BUFFER_LIMIT / 16, buffer, dst, src, m, was, c, data, out);
  }

  /** The loop of the buffered path: at most 32 blocks of key stream at a time. The `return` is the C code's jump to its
      last memxor3, out of a full buffer of which the last block is needed in part. */
  method CryptBatches(e: Endian, form: FillForm, f: Block -> Block, ctr: Block, length: nat, blocks0: nat, buffer: array<byte>,
                      dst: Ptr, src: Ptr, ghost was: seq<byte>, ghost data: seq<byte>, ghost out: seq<byte>) returns (ctr': Block)
    requires Wanted(f, Inc32, ctr, data, out) && |out| == |data| == length && blocks0 == CeilBlocks(length)
    requires buffer.Length == CTR_BUFFER_LIMIT || buffer.Length == 16 * blocks0 < CTR_BUFFER_LIMIT
    requires buffer != dst.mem && buffer != src.mem && dst.at + length <= dst.mem.Length
    requires Source(src, dst, was, data) && Written(dst.mem[..], was, dst.at, out, 0)
    modifies dst.mem, buffer
    ensures Written(dst.mem[..], was, dst.at, out, |out|) && ctr' == Iter(Inc32, ctr, CeilBlocks(|data|))
  {
    var i, blocks := 0, blocks0;
    ctr' := ctr;
    ghost var m := 0;
    while blocks >= CTR_BUFFER_LIMIT / 16
      invariant i == 16 * m <= length && length - i <= 16 * blocks < length - i + 16 && m + blocks == blocks0
      invariant ctr' == Iter(Inc32, ctr, m) && Source(src, dst, was, data) && Written(dst.mem[..], was, dst.at, out, i)
    {
      if length - i < CTR_BUFFER_LIMIT {
        assert blocks == CTR_BUFFER_LIMIT / 16;
        ctr' := CryptRest(e, form, f, ctr', i, length, blocks, buffer, dst, src, m, was, ctr, data, out);
        return;
      }
      ctr' := CryptBatch(e, form, f, ctr', i, buffer, dst, src, m, was, ctr, data, out);
      i, blocks, m := i + CTR_BUFFER_LIMIT, blocks - CTR_BUFFER_LIMIT / 16, m + 32;
    }
    ctr' := CryptRest(e, form, f, ctr', i, length, blocks, buffer, dst, src, m, was, ctr, data, out);
  }

  /** The path for any other destination, through a buffer of its own. */
  method CryptBuffered(e: Endian, form: FillForm, f: Block -> Block, ctr: Block, length: nat, dst: Ptr, src: Ptr,
                       ghost was: seq<byte>, ghost data: seq<byte>, ghost out: seq<byte>) returns (ctr': Block)
    requires Wanted(f, Inc32, ctr, data, out) && |out| == |data| == length
    requires dst.at + length <= dst.mem.Length && was == dst.mem[..] && Source(src, dst, was, data)
    modifies dst.mem
    ensures Written(dst.mem[..], was, dst.at, out, |out|) && ctr' == Iter(Inc32, ctr, CeilBlocks(|data|))
  {
    var blocks := (length + 15) / 16;
    var buffer := new byte[if blocks < CTR_BUFFER_LIMIT / 16 then 16 * blocks else CTR_BUFFER_LIMIT];
    WrittenEnds(was, dst.at, out);
    ctr' := CryptBatches(e, form, f, ctr, length, blocks, buffer, dst, src, was, data, out);
  }

  /** _nettle_ctr_crypt16, with gcm_fill: GCTR of the source, and a counter that has moved on by the blocks it takes. */
  method CtrCrypt16(e: Endian, form: FillForm, f: Block -> Block, ctr: Block, length: nat, dst: Ptr, src: Ptr)
    returns (ctr': Block)
    requires dst.at + length <= dst.mem.Length && src.at + length <= src.mem.Length && (src.mem == dst.mem ==> src == dst)
    modifies dst.mem
    ensures dst.mem[..] == Splice(old(dst.mem[..]), dst.at, Gctr(f, Inc32, ctr, old(src.mem[..])[src.at..src.at + length]))
    ensures ctr' == Iter(Inc32, ctr, CeilBlocks(length))
  {
    ghost var was, data := dst.mem[..], src.mem[..][src.at..src.at + length];
    ghost var out := Gctr(f, Inc32, ctr, data);
    WrittenEnds(was, dst.at, out);
    if dst != src && Aligned(dst) {
      ctr' := CryptDirect(e, form, f, ctr, length, dst, src, was, data, out);
    } else {
      ctr' := CryptBuffered(e, form, f, ctr, length, dst, src, was, data, out);
    }
  }
}
