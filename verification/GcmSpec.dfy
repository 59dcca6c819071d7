/** Galois/Counter Mode as SP 800-38D defines it, and what a run of the operations of gcm.c computes. */
module GcmSpec {
  import opened Wrappers
  import opened Bytes
  import opened Counter
  import opened Ctr16
  import opened Ghash

  /** The block of the two lengths, given in bytes: 64 bits for each, which count bits. */
  function LengthBlock(a: nat, c: nat): Block {
    BigEndian(8, 8 * a) + BigEndian(8, 8 * c)
  }

  /** The pre-counter block of section 7.1, steps 1 and 2. */
  function J0(m: Block -> Block, iv: seq<byte>): Block {
    if |iv| == 12 then iv + [0, 0, 0, 1]
    else Hash(m, ZEROBLOCK, Padded(iv) + LengthBlock(0, |iv|), CeilBlocks(|iv|) + 1)
  }

  /** The tag of section 7.1, steps 4 to 6, before its truncation. */
  function Tag(f: Block -> Block, m: Block -> Block, iv: seq<byte>, a: seq<byte>, c: seq<byte>): Block {
    Gctr(f, Inc32, J0(m, iv),
         Hash(m, ZEROBLOCK, Padded(a) + Padded(c) + LengthBlock(|a|, |c|), CeilBlocks(|a|) + CeilBlocks(|c|) + 1))
  }

  /** The hash subkey as a multiplication. */
  function HashKey(f: Block -> Block): Block -> Block {
    MulBy(f(ZEROBLOCK))
  }

  /** GCM-AE of section 7.1: the ciphertext and the tag of `t` bytes. */
  function GcmAe(f: Block -> Block, iv: seq<byte>, p: seq<byte>, a: seq<byte>, t: nat): (seq<byte>, seq<byte>)
    requires t <= 16
  {
    var c := Gctr(f, Inc32, Inc32(J0(HashKey(f), iv)), p);
    (c, Tag(f, HashKey(f), iv, a, c)[..t])
  }

  /** GCM-AD of section 7.2: the plaintext, or failure. */
  function GcmAd(f: Block -> Block, iv: seq<byte>, c: seq<byte>, a: seq<byte>, tag: seq<byte>): Option<seq<byte>>
    requires |tag| <= 16
  {
    if Tag(f, HashKey(f), iv, a, c)[..|tag|] == tag then Some(Gctr(f, Inc32, Inc32(J0(HashKey(f), iv)), c)) else None
  }

  /** Authenticated decryption of what authenticated encryption yields gives the plaintext back. */
  lemma AdOfAe(f: Block -> Block, iv: seq<byte>, p: seq<byte>, a: seq<byte>, t: nat)
    requires t <= 16
    ensures var (c, tag) := GcmAe(f, iv, p, a, t); GcmAd(f, iv, c, a, tag) == Some(p)
  {
    GctrTwice(f, Inc32, Inc32(J0(HashKey(f), iv)), p);
  }

  const TWO64: nat := 0x1_0000_0000_0000_0000

  /** struct gcm_ctx. */
  datatype State = State(iv: Block, ctr: Block, x: Block, authSize: nat, dataSize: nat)

  /** What gcm_hash_sizes does to a hash. */
  function HashSizes(m: Block -> Block, x: Block, authSize: nat, dataSize: nat): Block {
    HashData(m, x, BigEndian(8, authSize * 8 % TWO64) + BigEndian(8, dataSize * 8 % TWO64))
  }

  function SetIv(m: Block -> Block, iv: seq<byte>): State {
    var j: Block := if |iv| == 12 then iv + [0, 0, 0, 1] else HashSizes(m, HashData(m, ZEROBLOCK, iv), 0, |iv| % TWO64);
    State(j, j[..12] + Carry(j[12..]), ZEROBLOCK, 0, 0)
  }

  /** The assertions at the start of gcm_update. */
  predicate CanUpdate(s: State) {
    s.authSize % 16 == 0 && s.dataSize == 0
  }

  function Update(m: Block -> Block, s: State, data: seq<byte>): State {
    s.(x := HashData(m, s.x, data), authSize := (s.authSize + |data|) % TWO64)
  }

  /** The assertion at the start of gcm_encrypt and gcm_decrypt. */
  predicate CanCrypt(s: State) {
    s.dataSize % 16 == 0
  }

  function Encrypt(f: Block -> Block, m: Block -> Block, s: State, src: seq<byte>): (State, seq<byte>) {
    var dst := Gctr(f, Inc32, s.ctr, src);
    (Crypted(m, s, dst), dst)
  }

  function Decrypt(f: Block -> Block, m: Block -> Block, s: State, src: seq<byte>): (State, seq<byte>) {
    (Crypted(m, s, src), Gctr(f, Inc32, s.ctr, src))
  }

  /** The state after a piece of ciphertext has gone either way. */
  function Crypted(m: Block -> Block, s: State, c: seq<byte>): State {
    s.(ctr := Iter(Inc32, s.ctr, CeilBlocks(|c|)), x := HashData(m, s.x, c), dataSize := (s.dataSize + |c|) % TWO64)
  }

  function Digest(f: Block -> Block, m: Block -> Block, s: State, n: nat): seq<byte>
    requires n <= 16
  {
    Xor(HashSizes(m, s.x, s.authSize, s.dataSize)[..n], f(s.iv)[..n])
  }

  lemma PowStep(n: nat, k: nat)
    requires n > 0
    ensures k * Pow256(n) == 256 * (k * Pow256(n - 1))
  {
  }

  lemma SameBigEndian(n: nat, u: nat, v: nat)
    requires u == v
    ensures BigEndian(n, u) == BigEndian(n, v)
  {
  }

  lemma {:induction false} BigEndianWraps(n: nat, v: nat, k: nat)
    ensures BigEndian(n, v + k * Pow256(n)) == BigEndian(n, v)
  {
    if n > 0 {
      var p, w := k * Pow256(n - 1), v + k * Pow256(n);
      PowStep(n, k);
      Div256(p, v);
      BigEndianWraps(n - 1, v / 256, k);
      SameBigEndian(n - 1, w / 256, v / 256 + p);
    }
  }

  lemma Pow256Of8()
    ensures Pow256(8) == TWO64
  {
    Pow256Of4();
    assert Pow256(6) == 0x1_0000_0000_0000;
  }

  lemma BigEndianMod(v: nat, q: nat)
    requires q * TWO64 <= v
    ensures BigEndian(8, v) == BigEndian(8, v - q * TWO64)
  {
    Pow256Of8();
    BigEndianWraps(8, v - q * TWO64, q);
  }

  /** A 64-bit size that has wrapped around, times eight, still has the right low 64 bits. */
  lemma SizeField(n: nat)
    ensures BigEndian(8, n % TWO64 * 8 % TWO64) == BigEndian(8, 8 * n)
  {
    var v, q := n % TWO64 * 8, 8 * (n / TWO64);
    BigEndianMod(v, v / TWO64);
    assert 8 * n == v + q * TWO64;
    BigEndianMod(8 * n, q);
  }

  lemma OneBlock(m: Block -> Block, y: Block, b: Block)
    ensures HashData(m, y, b) == Hash(m, y, b, 1)
  {
    PaddedConcat(b, 1, []);
  }

  /** gcm_hash_sizes hashes one more block, the one with the lengths. */
  lemma HashSizesIs(m: Block -> Block, y: Block, a: nat, c: nat)
    ensures HashSizes(m, y, a % TWO64, c % TWO64) == Hash(m, y, LengthBlock(a, c), 1)
  {
    SizeField(a);
    SizeField(c);
    OneBlock(m, y, LengthBlock(a, c));
  }

  /** What the state holds once `a` and then the ciphertext `c` have gone in. */
  ghost predicate Holds(m: Block -> Block, iv: seq<byte>, a: seq<byte>, c: seq<byte>, s: State) {
    && s.iv == J0(m, iv)
    && s.ctr == Iter(Inc32, Inc32(J0(m, iv)), CeilBlocks(|c|))
    && s.x == HashData(m, HashData(m, ZEROBLOCK, a), c)
    && s.authSize == |a| % TWO64 && s.dataSize == |c| % TWO64
  }

  /** gcm_set_iv computes the pre-counter block. */
  lemma SetIvJ0(m: Block -> Block, iv: seq<byte>)
    ensures SetIv(m, iv).iv == J0(m, iv)
  {
    if |iv| != 12 {
      var n, y := CeilBlocks(|iv|), HashData(m, ZEROBLOCK, iv);
      HashSizesIs(m, y, 0, |iv|);
      HashConcat(m, ZEROBLOCK, Padded(iv), n, LengthBlock(0, |iv|), 1);
    }
  }

  lemma HashNothing(m: Block -> Block, y: Block)
    ensures HashData(m, y, []) == y
  {
    assert Padded([]) == [];
  }

  lemma SetIvHolds(m: Block -> Block, iv: seq<byte>)
    ensures Holds(m, iv, [], [], SetIv(m, iv))
  {
    SetIvJ0(m, iv);
    CarryIsInc32(J0(m, iv));
    HashNothing(m, ZEROBLOCK);
  }

  lemma ModAdd(a: nat, n: nat)
    ensures (a % TWO64 + n) % TWO64 == (a + n) % TWO64
  {
  }

  lemma WholeBlocks(n: nat)
    requires n % TWO64 % 16 == 0
    ensures n == 16 * CeilBlocks(n)
  {
    assert n == n / TWO64 * TWO64 + n % TWO64;
    assert TWO64 == 16 * 0x1000_0000_0000_0000;
  }

  lemma UpdateHolds(m: Block -> Block, iv: seq<byte>, a: seq<byte>, s: State, data: seq<byte>)
    requires Holds(m, iv, a, [], s) && CanUpdate(s)
    ensures Holds(m, iv, a + data, [], Update(m, s, data))
  {
    ModAdd(|a|, |data|);
    WholeBlocks(|a|);
    HashDataConcat(m, ZEROBLOCK, a, CeilBlocks(|a|), data);
    HashNothing(m, HashData(m, ZEROBLOCK, a));
    HashNothing(m, HashData(m, ZEROBLOCK, a + data));
  }

  lemma CounterMoves(next: Block -> Block, b: Block, c: seq<byte>, data: seq<byte>)
    requires |c| == 16 * CeilBlocks(|c|)
    ensures Iter(next, Iter(next, b, CeilBlocks(|c|)), CeilBlocks(|data|)) == Iter(next, b, CeilBlocks(|c + data|))
  {
    CounterConcat(next, b, CeilBlocks(|c|), |data|);
    assert |c + data| == 16 * CeilBlocks(|c|) + |data|;
  }

  lemma CryptedCounter(m: Block -> Block, s: State, j: Block, c: seq<byte>, data: seq<byte>)
    requires s.ctr == Iter(Inc32, j, CeilBlocks(|c|)) && |c| == 16 * CeilBlocks(|c|)
    ensures Crypted(m, s, data).ctr == Iter(Inc32, j, CeilBlocks(|c + data|))
  {
    CounterMoves(Inc32, j, c, data);
  }

  lemma CryptedHash(m: Block -> Block, s: State, y: Block, c: seq<byte>, data: seq<byte>)
    requires s.x == HashData(m, y, c) && |c| == 16 * CeilBlocks(|c|)
    ensures Crypted(m, s, data).x == HashData(m, y, c + data)
  {
    HashDataConcat(m, y, c, CeilBlocks(|c|), data);
  }

  lemma CryptedSize(m: Block -> Block, s: State, c: seq<byte>, data: seq<byte>)
    requires s.dataSize == |c| % TWO64
    ensures Crypted(m, s, data).dataSize == |c + data| % TWO64
  {
    ModAdd(|c|, |data|);
  }

  lemma CryptedHolds(m: Block -> Block, iv: seq<byte>, a: seq<byte>, c: seq<byte>, s: State, data: seq<byte>)
    requires Holds(m, iv, a, c, s) && CanCrypt(s)
    ensures Holds(m, iv, a, c + data, Crypted(m, s, data))
  {
    WholeBlocks(|c|);
    CryptedCounter(m, s, Inc32(J0(m, iv)), c, data);
    CryptedHash(m, s, HashData(m, ZEROBLOCK, a), c, data);
    CryptedSize(m, s, c, data);
  }

  /** One block of GCTR is the block, exclusive or its counter through the cipher. */
  lemma GctrBlock(f: Block -> Block, next: Block -> Block, c: Block, b: Block)
    ensures Gctr(f, next, c, b) == Xor(b, f(c))
  {
    CeilIs(16, 1);
    assert Iter(next, c, 0) == c && Stream(f, next, c, 0) == [];
    assert Stream(f, next, c, 1) == f(c);
  }

  lemma HashParts(m: Block -> Block, a: seq<byte>, c: seq<byte>, b: Block)
    ensures Hash(m, ZEROBLOCK, Padded(a) + Padded(c) + b, CeilBlocks(|a|) + CeilBlocks(|c|) + 1)
         == Hash(m, HashData(m, HashData(m, ZEROBLOCK, a), c), b, 1)
  {
    HashConcat(m, ZEROBLOCK, Padded(a) + Padded(c), CeilBlocks(|a|) + CeilBlocks(|c|), b, 1);
    HashConcat(m, ZEROBLOCK, Padded(a), CeilBlocks(|a|), Padded(c), CeilBlocks(|c|));
  }

  /** gcm_digest yields the tag of everything that has gone in, truncated. */
  lemma DigestIsTag(f: Block -> Block, m: Block -> Block, iv: seq<byte>, a: seq<byte>, c: seq<byte>, s: State, n: nat)
    requires Holds(m, iv, a, c, s) && n <= 16
    ensures Digest(f, m, s, n) == Tag(f, m, iv, a, c)[..n]
  {
    var x := HashSizes(m, s.x, s.authSize, s.dataSize);
    HashSizesIs(m, s.x, |a|, |c|);
    HashParts(m, a, c, LengthBlock(|a|, |c|));
    GctrBlock(f, Inc32, s.iv, x);
    XorSlice(x, f(s.iv), 0, n);
  }

  // Runs: any number of calls of gcm_update, then any number of gcm_encrypt or of gcm_decrypt, then gcm_digest.

  function Concat(pieces: seq<seq<byte>>): seq<byte> {
    if pieces == [] then [] else Concat(pieces[..|pieces| - 1]) + pieces[|pieces| - 1]
  }

  /** A step takes a piece of input and yields a piece of output. */
  function Run<S>(step: (S, seq<byte>) -> (S, seq<byte>), s: S, pieces: seq<seq<byte>>): (S, seq<byte>) {
    if pieces == [] then (s, []) else
      var (s1, out) := Run(step, s, pieces[..|pieces| - 1]);
      var (s2, last) := step(s1, pieces[|pieces| - 1]);
      (s2, out + last)
  }

  /** The assertion that guards the step holds each time. */
  predicate Passes<S>(can: S -> bool, step: (S, seq<byte>) -> (S, seq<byte>), s: S, pieces: seq<seq<byte>>) {
    pieces == [] || (Passes(can, step, s, pieces[..|pieces| - 1]) && can(Run(step, s, pieces[..|pieces| - 1]).0))
  }

  type Step = (State, seq<byte>) -> (State, seq<byte>)

  function Updating(m: Block -> Block): Step {
    (s: State, data: seq<byte>) => (Update(m, s, data), [])
  }

  function Encrypting(f: Block -> Block, m: Block -> Block): Step {
    (s: State, data: seq<byte>) => Encrypt(f, m, s, data)
  }

  function Decrypting(f: Block -> Block, m: Block -> Block): Step {
    (s: State, data: seq<byte>) => Decrypt(f, m, s, data)
  }

  lemma {:induction false} UpdatesHold(m: Block -> Block, iv: seq<byte>, pieces: seq<seq<byte>>)
    requires Passes(CanUpdate, Updating(m), SetIv(m, iv), pieces)
    ensures Holds(m, iv, Concat(pieces), [], Run(Updating(m), SetIv(m, iv), pieces).0)
  {
    if pieces == [] {
      SetIvHolds(m, iv);
    } else {
      var init := pieces[..|pieces| - 1];
      UpdatesHold(m, iv, init);
      UpdateHolds(m, iv, Concat(init), Run(Updating(m), SetIv(m, iv), init).0, pieces[|pieces| - 1]);
    }
  }

  /** The next piece of output, from the state a run has reached. */
  lemma NextOutput(f: Block -> Block, m: Block -> Block, iv: seq<byte>, a: seq<byte>, c: seq<byte>, s: State, p: seq<byte>, data: seq<byte>)
    requires Holds(m, iv, a, c, s) && CanCrypt(s) && |c| == |p|
    ensures Gctr(f, Inc32, Inc32(s.iv), p) + Gctr(f, Inc32, s.ctr, data) == Gctr(f, Inc32, Inc32(s.iv), p + data)
  {
    WholeBlocks(|c|);
    GctrConcat(f, Inc32, Inc32(s.iv), p, CeilBlocks(|p|), data);
  }

  lemma {:induction false} EncryptsHold(f: Block -> Block, m: Block -> Block, iv: seq<byte>, a: seq<byte>, s: State, pieces: seq<seq<byte>>)
    requires Holds(m, iv, a, [], s) && Passes(CanCrypt, Encrypting(f, m), s, pieces)
    ensures var (r, out) := Run(Encrypting(f, m), s, pieces);
            out == Gctr(f, Inc32, Inc32(s.iv), Concat(pieces)) && Holds(m, iv, a, out, r)
  {
    if pieces != [] {
      var init, last := pieces[..|pieces| - 1], pieces[|pieces| - 1];
      EncryptsHold(f, m, iv, a, s, init);
      var (s1, out) := Run(Encrypting(f, m), s, init);
      NextOutput(f, m, iv, a, out, s1, Concat(init), last);
      CryptedHolds(m, iv, a, out, s1, Gctr(f, Inc32, s1.ctr, last));
    }
  }

  lemma {:induction false} DecryptsHold(f: Block -> Block, m: Block -> Block, iv: seq<byte>, a: seq<byte>, s: State, pieces: seq<seq<byte>>)
    requires Holds(m, iv, a, [], s) && Passes(CanCrypt, Decrypting(f, m), s, pieces)
    ensures var (r, out) := Run(Decrypting(f, m), s, pieces);
            out == Gctr(f, Inc32, Inc32(s.iv), Concat(pieces)) && Holds(m, iv, a, Concat(pieces), r)
  {
    if pieces != [] {
      var init, last := pieces[..|pieces| - 1], pieces[|pieces| - 1];
      DecryptsHold(f, m, iv, a, s, init);
      var (s1, out) := Run(Decrypting(f, m), s, init);
      NextOutput(f, m, iv, a, Concat(init), s1, Concat(init), last);
      CryptedHolds(m, iv, a, Concat(init), s1, last);
    }
  }

  /** Every piece but the last is a whole number of blocks. */
  predicate WholePieces(pieces: seq<seq<byte>>) {
    |pieces| < 2 || (WholePieces(pieces[..|pieces| - 1]) && |pieces[|pieces| - 2]| % 16 == 0)
  }

  lemma SizeMod16(a: nat, n: nat)
    requires a % 16 == 0
    ensures (a + n) % TWO64 % 16 == n % 16
  {
    var t := a + n;
    assert t == t / TWO64 * TWO64 + t % TWO64;
    assert TWO64 == 16 * 0x1000_0000_0000_0000;
  }

  /** A size field after the pieces, if `plus` is the addition of sizes. */
  function Size(plus: (nat, nat) -> nat, pieces: seq<seq<byte>>): nat {
    if pieces == [] then 0 else plus(Size(plus, pieces[..|pieces| - 1]), |pieces[|pieces| - 1]|)
  }

  /** Addition does not hide what goes beyond a whole number of blocks. */
  ghost predicate KeepsRest(plus: (nat, nat) -> nat) {
    forall a: nat, n: nat :: a % 16 == 0 ==> plus(a, n) % 16 == n % 16
  }

  lemma {:induction false} SizeOfWhole(plus: (nat, nat) -> nat, pieces: seq<seq<byte>>)
    requires WholePieces(pieces) && KeepsRest(plus)
    ensures Size(plus, pieces) % 16 == if pieces == [] then 0 else |pieces[|pieces| - 1]| % 16
  {
    if pieces != [] {
      SizeOfWhole(plus, pieces[..|pieces| - 1]);
    }
  }

  lemma PiecesPass(plus: (nat, nat) -> nat, pieces: seq<seq<byte>>)
    requires pieces != [] && KeepsRest(plus)
    ensures WholePieces(pieces) <==> WholePieces(pieces[..|pieces| - 1]) && Size(plus, pieces[..|pieces| - 1]) % 16 == 0
  {
    if WholePieces(pieces[..|pieces| - 1]) {
      SizeOfWhole(plus, pieces[..|pieces| - 1]);
    }
  }

  /** Every step adds the length of its input to the size field. */
  ghost predicate Adds<S(!new)>(step: (S, seq<byte>) -> (S, seq<byte>), size: S -> nat, plus: (nat, nat) -> nat) {
    forall r: S, d: seq<byte> :: size(step(r, d).0) == plus(size(r), |d|)
  }

  lemma {:induction false} RunSize<S(!new)>(step: (S, seq<byte>) -> (S, seq<byte>), size: S -> nat, plus: (nat, nat) -> nat, s: S, pieces: seq<seq<byte>>)
    requires Adds(step, size, plus) && size(s) == 0
    ensures size(Run(step, s, pieces).0) == Size(plus, pieces)
  {
    if pieces != [] {
      RunSize(step, size, plus, s, pieces[..|pieces| - 1]);
    }
  }

  ghost predicate Keeps<S(!new)>(step: (S, seq<byte>) -> (S, seq<byte>), ok: S -> bool) {
    forall r: S, d: seq<byte> :: ok(r) ==> ok(step(r, d).0)
  }

  lemma {:induction false} RunKeeps<S(!new)>(step: (S, seq<byte>) -> (S, seq<byte>), ok: S -> bool, s: S, pieces: seq<seq<byte>>)
    requires Keeps(step, ok) && ok(s)
    ensures ok(Run(step, s, pieces).0)
  {
    if pieces != [] {
      RunKeeps(step, ok, s, pieces[..|pieces| - 1]);
    }
  }

  /** A guard that asks for a size that is a multiple of 16, of states that are `ok` as all are, passes just when
      every piece but the last is a whole number of blocks. */
  lemma {:induction false} PassesWhole<S(!new)>(can: S -> bool, step: (S, seq<byte>) -> (S, seq<byte>), size: S -> nat, plus: (nat, nat) -> nat,
                                                ok: S -> bool, s: S, pieces: seq<seq<byte>>)
    requires Adds(step, size, plus) && size(s) == 0 && KeepsRest(plus) && Keeps(step, ok) && ok(s)
    requires forall r: S :: ok(r) ==> can(r) == (size(r) % 16 == 0)
    ensures Passes(can, step, s, pieces) <==> WholePieces(pieces)
  {
    if pieces != [] {
      PassesWhole(can, step, size, plus, ok, s, pieces[..|pieces| - 1]);
      PiecesPass(plus, pieces);
      RunSize(step, size, plus, s, pieces[..|pieces| - 1]);
      RunKeeps(step, ok, s, pieces[..|pieces| - 1]);
    }
  }

  function Wrapping(): (nat, nat) -> nat {
    (a: nat, n: nat) => (a + n) % TWO64
  }

  lemma WrappingKeepsRest()
    ensures KeepsRest(Wrapping())
  {
    var plus := Wrapping();
    forall a: nat, n: nat | a % 16 == 0 ensures plus(a, n) % 16 == n % 16 {
      SizeMod16(a, n);
    }
  }

  function DataSize(): State -> nat {
    (r: State) => r.dataSize
  }

  lemma EncryptAdds(f: Block -> Block, m: Block -> Block, r: State, d: seq<byte>)
    ensures Encrypt(f, m, r, d).0.dataSize == Decrypt(f, m, r, d).0.dataSize == Wrapping()(r.dataSize, |d|)
  {
  }

  lemma CryptsAdd(f: Block -> Block, m: Block -> Block)
    ensures Adds(Encrypting(f, m), DataSize(), Wrapping()) && Adds(Decrypting(f, m), DataSize(), Wrapping())
  {
    forall r: State, d: seq<byte>
      ensures Encrypting(f, m)(r, d).0.dataSize == Decrypting(f, m)(r, d).0.dataSize == Wrapping()(r.dataSize, |d|)
    {
      EncryptAdds(f, m, r, d);
    }
  }

  /** So do the assertions of gcm_update, */
  lemma UpdatesPass(m: Block -> Block, s: State, pieces: seq<seq<byte>>)
    requires s.authSize == s.dataSize == 0
    ensures Passes(CanUpdate, Updating(m), s, pieces) <==> WholePieces(pieces)
    ensures Run(Updating(m), s, pieces).0.dataSize == 0
  {
    WrappingKeepsRest();
    var ok := (r: State) => r.dataSize == 0;
    PassesWhole(CanUpdate, Updating(m), (r: State) => r.authSize, Wrapping(), ok, s, pieces);
    RunKeeps(Updating(m), ok, s, pieces);
  }

  /** those of gcm_encrypt, */
  lemma EncryptsPass(f: Block -> Block, m: Block -> Block, s: State, pieces: seq<seq<byte>>)
    requires s.dataSize == 0
    ensures Passes(CanCrypt, Encrypting(f, m), s, pieces) <==> WholePieces(pieces)
  {
    WrappingKeepsRest();
    CryptsAdd(f, m);
    PassesWhole(CanCrypt, Encrypting(f, m), DataSize(), Wrapping(), (r: State) => true, s, pieces);
  }

  /** and those of gcm_decrypt. */
  lemma DecryptsPass(f: Block -> Block, m: Block -> Block, s: State, pieces: seq<seq<byte>>)
    requires s.dataSize == 0
    ensures Passes(CanCrypt, Decrypting(f, m), s, pieces) <==> WholePieces(pieces)
  {
    WrappingKeepsRest();
    CryptsAdd(f, m);
    PassesWhole(CanCrypt, Decrypting(f, m), DataSize(), Wrapping(), (r: State) => true, s, pieces);
  }

  /** A whole run, sending: with a fresh key and IV, any pieces of associated data and of plaintext that pass the
      assertions, the output and the digest are the ciphertext and the tag of GCM-AE. */
  lemma SealIsGcmAe(f: Block -> Block, iv: seq<byte>, ads: seq<seq<byte>>, ps: seq<seq<byte>>, t: nat)
    requires WholePieces(ads) && WholePieces(ps) && t <= 16
    ensures var m := HashKey(f);
            var (s, out) := Run(Encrypting(f, m), Run(Updating(m), SetIv(m, iv), ads).0, ps);
            (out, Digest(f, m, s, t)) == GcmAe(f, iv, Concat(ps), Concat(ads), t)
  {
    var m := HashKey(f);
    var s0 := Run(Updating(m), SetIv(m, iv), ads).0;
    UpdatesPass(m, SetIv(m, iv), ads);
    UpdatesHold(m, iv, ads);
    EncryptsPass(f, m, s0, ps);
    EncryptsHold(f, m, iv, Concat(ads), s0, ps);
    var (s, out) := Run(Encrypting(f, m), s0, ps);
    DigestIsTag(f, m, iv, Concat(ads), out, s, t);
  }

  /** A whole run, receiving: comparing the digest with a tag is what GCM-AD does before it gives the plaintext out. */
  lemma OpenIsGcmAd(f: Block -> Block, iv: seq<byte>, ads: seq<seq<byte>>, cs: seq<seq<byte>>, tag: seq<byte>)
    requires WholePieces(ads) && WholePieces(cs) && |tag| <= 16
    ensures var m := HashKey(f);
            var (s, out) := Run(Decrypting(f, m), Run(Updating(m), SetIv(m, iv), ads).0, cs);
            GcmAd(f, iv, Concat(cs), Concat(ads), tag) == if Digest(f, m, s, |tag|) == tag then Some(out) else None
  {
    var m := HashKey(f);
    var s0 := Run(Updating(m), SetIv(m, iv), ads).0;
    UpdatesPass(m, SetIv(m, iv), ads);
    UpdatesHold(m, iv, ads);
    DecryptsPass(f, m, s0, cs);
    DecryptsHold(f, m, iv, Concat(ads), s0, cs);
    var (s, out) := Run(Decrypting(f, m), s0, cs);
    DigestIsTag(f, m, iv, Concat(ads), Concat(cs), s, |tag|);
  }

  /** What one run encrypts, another with the same key, IV and associated data decrypts to the plaintext,
      and with the same tag, however each of them cuts its data into pieces. */
  lemma OpenOfSeal(f: Block -> Block, iv: seq<byte>, ads: seq<seq<byte>>, ps: seq<seq<byte>>, bs: seq<seq<byte>>, cs: seq<seq<byte>>, t: nat)
    requires WholePieces(ads) && WholePieces(ps) && WholePieces(bs) && WholePieces(cs) && t <= 16
    requires Concat(bs) == Concat(ads)
    requires Concat(cs) == Run(Encrypting(f, HashKey(f)), Run(Updating(HashKey(f)), SetIv(HashKey(f), iv), ads).0, ps).1
    ensures var m := HashKey(f);
            var (s, _) := Run(Encrypting(f, m), Run(Updating(m), SetIv(m, iv), ads).0, ps);
            var (r, out) := Run(Decrypting(f, m), Run(Updating(m), SetIv(m, iv), bs).0, cs);
            out == Concat(ps) && Digest(f, m, r, t) == Digest(f, m, s, t)
  {
    var m := HashKey(f);
    SealIsGcmAe(f, iv, ads, ps, t);
    var (s, _) := Run(Encrypting(f, m), Run(Updating(m), SetIv(m, iv), ads).0, ps);
    OpenIsGcmAd(f, iv, bs, cs, Digest(f, m, s, t));
    AdOfAe(f, iv, Concat(ps), Concat(ads), t);
  }
}
