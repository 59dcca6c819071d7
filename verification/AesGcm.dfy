/** AES as the cipher of GCM: what the abstract block function of the mode stands for, and a whole message through the code. */
module AesGcm {
  import opened Wrappers
  import opened Bytes
  import opened GhashWords
  import opened AesTable
  import opened AesSpec
  import opened Aes
  import opened Counter
  import opened MemXor
  import opened Ctr16
  import opened Ghash
  import K = AesKey
  import opened GcmBytes
  import S = GcmSpec
  import G = Gcm

  /** AES-128, AES-192 and AES-256, by the number of words of the key and of rounds. */
  predicate KeySize(nk: nat, nr: nat) {
    (nk == 4 && nr == 10) || (nk == 6 && nr == 12) || (nk == 8 && nr == 14)
  }

  /** The block function of the standard for a key. */
  function AesFunction(nk: nat, nr: nat, key: seq<byte>): Block -> Block
    requires KeySize(nk, nr) && |key| == 4 * nk
  {
    CipherWith(Sbox, nr, Schedule(Sbox, K.KeyWords(key), 4 * nr + 4))
  }

  /** aes128_set_encrypt_key and its like. */
  method SetEncryptKey(nk: nat, nr: nat, key: seq<byte>) returns (keys: seq<Word32>)
    requires KeySize(nk, nr) && |key| == 4 * nk
    ensures keys == Schedule(Sbox, K.KeyWords(key), 4 * nr + 4)
    ensures K.IsExpansion(Sbox, key, nk, keys, 4 * nr + 4)
  {
    var subkeys := new Word32[4 * nr + 4];
    K.SetKey(Sbox, nr, nk, subkeys, key);
    keys := subkeys[..];
  }

  /** aes128_encrypt and its like, in place: they are what the mode expects of a nettle_cipher_func. */
  method AesInPlace(nk: nat, nr: nat, ghost key: seq<byte>, keys: seq<Word32>, mem: array<byte>, at: nat, n: nat)
    requires KeySize(nk, nr) && |key| == 4 * nk && keys == Schedule(Sbox, K.KeyWords(key), 4 * nr + 4)
    requires at + 16 * n <= mem.Length
    modifies mem
    ensures mem[..] == Splice(old(mem[..]), at, Ecb(AesFunction(nk, nr, key), old(mem[..])[at..at + 16 * n], n))
  {
    EncryptTablesAre();
    TablesSbox(nr, keys);
    EncryptInPlace(EncryptTables(), nr, keys, mem, at, n);
  }

  lemma TablesSbox(nr: nat, keys: seq<Word32>)
    requires nr > 0 && 4 * nr + 4 <= |keys|
    ensures CipherWith(EncryptTables().sbox, nr, keys) == CipherWith(Sbox, nr, keys)
  {
  }

  method EncryptInPlace(t: Tables, nr: nat, keys: seq<Word32>, mem: array<byte>, at: nat, n: nat)
    requires IsEncryptTable(t) && nr > 0 && 4 * nr + 4 <= |keys| && at + 16 * n <= mem.Length
    modifies mem
    ensures mem[..] == Splice(old(mem[..]), at, Ecb(CipherWith(t.sbox, nr, keys), old(mem[..])[at..at + 16 * n], n))
  {
    ghost var f, data := CipherWith(t.sbox, nr, keys), mem[..][at..at + 16 * n];
    EcbOfLength(f, data, 16 * n, n);
    EncryptLength(t, nr, keys, 16 * n, Ptr(mem, at, 0), data, Ecb(f, data, n));
  }

  /** _nettle_aes_encrypt in place, given what it is to write. */
  method EncryptLength(t: Tables, nr: nat, keys: seq<Word32>, length: nat, p: Ptr, ghost data: seq<byte>, ghost out: seq<byte>)
    requires IsEncryptTable(t) && nr > 0 && 4 * nr + 4 <= |keys| && length % 16 == 0 && p.at + length <= p.mem.Length
    requires data == p.mem[..][p.at..p.at + length] && out == Ecb(CipherWith(t.sbox, nr, keys), data, length / 16)
    modifies p.mem
    ensures p.mem[..] == Splice(old(p.mem[..]), p.at, out)
  {
    AesEncrypt(t, nr, keys, length, p, p);
  }

  lemma EcbOfLength(f: Block -> Block, s: seq<byte>, length: nat, n: nat)
    requires |s| == length == 16 * n
    ensures length % 16 == 0 && Ecb(f, s, length / 16) == Ecb(f, s, n)
  {
    assert length / 16 == n;
  }

  lemma OnePiece(s: seq<byte>)
    ensures S.Concat([s]) == s && S.WholePieces([s])
  {
    assert [s][..0] == [];
    assert S.Concat([]) == [];
  }

  lemma OneStep(step: S.Step, s: S.State, p: seq<byte>)
    ensures S.Run(step, s, [p]) == step(s, p)
  {
    assert [p][..0] == [];
    assert S.Run(step, s, []) == (s, []);
    assert [] + step(s, p).1 == step(s, p).1;
  }

  /** The runs of GcmSpec for one piece of associated data and one of text: what a sending run ends with, */
  lemma SealOne(f: Block -> Block, v: seq<byte>, a: seq<byte>, p: seq<byte>, n: nat) returns (r: S.State, out: seq<byte>, t: seq<byte>)
    requires n <= 16
    ensures var m := MulBy(f(ZEROBLOCK)); (r, out) == S.Encrypt(f, m, S.Update(m, S.SetIv(m, v), a), p) && t == S.Digest(f, m, r, n)
    ensures (out, t) == S.GcmAe(f, v, p, a, n) && |out| == |p| && |t| == n
  {
    var m := S.HashKey(f);
    var d := S.Encrypt(f, m, S.Update(m, S.SetIv(m, v), a), p);
    r, out, t := d.0, d.1, S.Digest(f, m, d.0, n);
    OnePiece(a);
    OnePiece(p);
    OneStep(S.Updating(m), S.SetIv(m, v), a);
    OneStep(S.Encrypting(f, m), S.Update(m, S.SetIv(m, v), a), p);
    S.SealIsGcmAe(f, v, [a], [p], n);
  }

  /** and the choice a receiving run makes possible. */
  lemma OpenOne(f: Block -> Block, v: seq<byte>, a: seq<byte>, c: seq<byte>, tag: seq<byte>)
    requires |tag| <= 16
    ensures var m := S.HashKey(f); var s := S.Update(m, S.SetIv(m, v), a); var (r, out) := S.Decrypt(f, m, s, c);
            S.GcmAd(f, v, c, a, tag) == if S.Digest(f, m, r, |tag|) == tag then Some(out) else None
  {
    var m := S.HashKey(f);
    OnePiece(a);
    OnePiece(c);
    OneStep(S.Updating(m), S.SetIv(m, v), a);
    OneStep(S.Decrypting(f, m), S.Update(m, S.SetIv(m, v), a), c);
    S.OpenIsGcmAd(f, v, [a], [c], tag);
  }

  /** To give `out` out just when `t` is the tag received is GCM-AD, whatever that tag is. */
  ghost predicate Opens(f: Block -> Block, v: seq<byte>, a: seq<byte>, c: seq<byte>, out: seq<byte>, t: seq<byte>) {
    |t| <= 16 && forall tag: seq<byte> :: |tag| == |t| ==> S.GcmAd(f, v, c, a, tag) == if t == tag then Some(out) else None
  }

  /** What a receiving run ends with. */
  lemma DecryptOpens(f: Block -> Block, v: seq<byte>, a: seq<byte>, c: seq<byte>, n: nat) returns (r: S.State, out: seq<byte>, t: seq<byte>)
    requires n <= 16
    ensures var m := MulBy(f(ZEROBLOCK)); (r, out) == S.Decrypt(f, m, S.Update(m, S.SetIv(m, v), a), c) && t == S.Digest(f, m, r, n)
    ensures Opens(f, v, a, c, out, t) && |out| == |c| && |t| == n
  {
    var m := MulBy(f(ZEROBLOCK));
    var d := S.Decrypt(f, m, S.Update(m, S.SetIv(m, v), a), c);
    r, out, t := d.0, d.1, S.Digest(f, m, d.0, n);
    forall tag: seq<byte> | |tag| == |t| ensures S.GcmAd(f, v, c, a, tag) == if t == tag then Some(out) else None {
      OpenOne(f, v, a, c, tag);
    }
  }

  /** A ciphertext opens as this plaintext, with this tag, and as no other. */
  ghost predicate OpensAs(f: Block -> Block, v: seq<byte>, a: seq<byte>, c: seq<byte>, p: seq<byte>, tag: seq<byte>) {
    forall out, t :: Opens(f, v, a, c, out, t) && |t| == |tag| ==> out == p && t == tag
  }

  /** So does the output of authenticated encryption. */
  lemma SealedOpensAs(f: Block -> Block, v: seq<byte>, a: seq<byte>, p: seq<byte>, n: nat)
    requires n <= 16
    ensures var (c, tag) := S.GcmAe(f, v, p, a, n); OpensAs(f, v, a, c, p, tag)
  {
    S.AdOfAe(f, v, p, a, n);
  }

  /** gcm_set_iv and gcm_update, for the IV and the associated data of a message. */
  method Begin(e: Endian, key: seq<Words>, ctx: G.GcmCtx, ghost f: Block -> Block, iv: Ptr, ivLength: nat, aad: Ptr, aadLength: nat,
               ghost v: seq<byte>, ghost a: seq<byte>)
    requires Reads(iv, 0, v) && |v| == ivLength && Reads(aad, 0, a) && |a| == aadLength && G.Key(e, key, f(ZEROBLOCK))
    modifies ctx
    ensures var m := MulBy(f(ZEROBLOCK)); ctx.Get() == S.Update(m, S.SetIv(m, v), a) && S.CanCrypt(ctx.Get())
  {
    ctx.SetIv(e, key, ivLength, iv, v, f(ZEROBLOCK));
    ctx.Update(e, key, aadLength, aad, a, f(ZEROBLOCK));
  }

  /** What the calls for a message leave in memory: the text, and then, perhaps in the same array, the digest. */
  ghost predicate Leaves(dst: Ptr, digest: Ptr, was: seq<byte>, sums: seq<byte>, c: seq<byte>, t: seq<byte>)
    reads dst.mem, digest.mem
  {
    && dst.at + |c| <= |was| && digest.at + |t| <= |sums| && (digest.mem == dst.mem ==> was == sums)
    && var sealed := Splice(was, dst.at, c);
       && (digest.mem != dst.mem ==> dst.mem[..] == sealed)
       && digest.mem[..] == Splice(if digest.mem == dst.mem then sealed else sums, digest.at, t)
  }

  lemma LeavesReads(dst: Ptr, digest: Ptr, was: seq<byte>, sums: seq<byte>, c: seq<byte>, t: seq<byte>)
    requires Leaves(dst, digest, was, sums, c, t) && digest.mem != dst.mem
    ensures Reads(dst, 0, c) && Reads(digest, 0, t)
  {
    G.ReadsWritten(dst, was, c);
    G.ReadsWritten(digest, sums, t);
  }

  /** gcm_encrypt and gcm_digest; `r` and `out` are the context and the ciphertext. */
  method EncryptAndDigest(e: Endian, form: FillForm, key: seq<Words>, ctx: G.GcmCtx, f: Block -> Block, src: Ptr, length: nat, dst: Ptr,
                          digest: Ptr, digestLength: nat, ghost h: Block, ghost r: S.State, ghost out: seq<byte>, ghost t: seq<byte>,
                          ghost was: seq<byte>, ghost sums: seq<byte>)
    requires was == dst.mem[..] && sums == digest.mem[..]
    requires dst.at + length <= dst.mem.Length && src.at + length <= src.mem.Length && (src.mem == dst.mem ==> src == dst)
    requires digestLength <= 16 && digest.at + digestLength <= digest.mem.Length && G.Key(e, key, h) && S.CanCrypt(ctx.Get())
    requires (r, out) == S.Encrypt(f, MulBy(h), ctx.Get(), src.mem[..][src.at..src.at + length])
    requires |out| == length && t == S.Digest(f, MulBy(h), r, digestLength) && |t| == digestLength
    modifies ctx, dst.mem, digest.mem
    ensures Leaves(dst, digest, was, sums, out, t)
  {
    ctx.Encrypt(e, form, key, f, length, dst, src, h);
    ctx.Digest(e, key, f, digestLength, digest, h);
  }

  /** gcm_decrypt and gcm_digest. */
  method DecryptAndDigest(e: Endian, form: FillForm, key: seq<Words>, ctx: G.GcmCtx, f: Block -> Block, src: Ptr, length: nat, dst: Ptr,
                          digest: Ptr, digestLength: nat, ghost h: Block, ghost r: S.State, ghost out: seq<byte>, ghost t: seq<byte>,
                          ghost was: seq<byte>, ghost sums: seq<byte>)
    requires was == dst.mem[..] && sums == digest.mem[..]
    requires dst.at + length <= dst.mem.Length && src.at + length <= src.mem.Length && (src.mem == dst.mem ==> src == dst)
    requires digestLength <= 16 && digest.at + digestLength <= digest.mem.Length && G.Key(e, key, h) && S.CanCrypt(ctx.Get())
    requires (r, out) == S.Decrypt(f, MulBy(h), ctx.Get(), src.mem[..][src.at..src.at + length])
    requires |out| == length && t == S.Digest(f, MulBy(h), r, digestLength) && |t| == digestLength
    modifies ctx, dst.mem, digest.mem
    ensures Leaves(dst, digest, was, sums, out, t)
  {
    ctx.Decrypt(e, form, key, f, length, dst, src, h);
    ctx.Digest(e, key, f, digestLength, digest, h);
  }

  /** The calls for one message: gcm_set_iv, gcm_update, gcm_encrypt and gcm_digest. */
  method Seal(e: Endian, form: FillForm, key: seq<Words>, ctx: G.GcmCtx, f: Block -> Block, iv: Ptr, ivLength: nat, aad: Ptr, aadLength: nat,
              src: Ptr, length: nat, dst: Ptr, digest: Ptr, digestLength: nat, ghost v: seq<byte>, ghost a: seq<byte>, ghost p: seq<byte>)
    returns (ghost c: seq<byte>, ghost tag: seq<byte>)
    requires Reads(iv, 0, v) && |v| == ivLength && Reads(aad, 0, a) && |a| == aadLength
    requires dst.at + length <= dst.mem.Length && src.at + length <= src.mem.Length && (src.mem == dst.mem ==> src == dst)
    requires digestLength <= 16 && digest.at + digestLength <= digest.mem.Length && G.Key(e, key, f(ZEROBLOCK))
    requires p == src.mem[..][src.at..src.at + length]
    modifies ctx, dst.mem, digest.mem
    ensures (c, tag) == S.GcmAe(f, v, p, a, digestLength) && |c| == length && |tag| == digestLength
    ensures Leaves(dst, digest, old(dst.mem[..]), old(digest.mem[..]), c, tag)
  {
    ghost var was, sums := dst.mem[..], digest.mem[..];
    ghost var r;
    r, c, tag := SealOne(f, v, a, p, digestLength);
    Begin(e, key, ctx, f, iv, ivLength, aad, aadLength, v, a);
    EncryptAndDigest(e, form, key, ctx, f, src, length, dst, digest, digestLength, f(ZEROBLOCK), r, c, tag, was, sums);
  }

  /** The calls for one message, with a key that gcm_set_key has set. The destination receives the ciphertext and the digest area
      the tag of GCM-AE. */
  method SealMessage(e: Endian, form: FillForm, key: seq<Words>, ctx: G.GcmCtx, f: Block -> Block, iv: Ptr, ivLength: nat, aad: Ptr, aadLength: nat,
                     src: Ptr, length: nat, dst: Ptr, digest: Ptr, digestLength: nat, ghost v: seq<byte>, ghost a: seq<byte>)
    requires Reads(iv, 0, v) && |v| == ivLength && Reads(aad, 0, a) && |a| == aadLength
    requires dst.at + length <= dst.mem.Length && src.at + length <= src.mem.Length && (src.mem == dst.mem ==> src == dst)
    requires digestLength <= 16 && digest.at + digestLength <= digest.mem.Length && G.Key(e, key, f(ZEROBLOCK))
    modifies ctx, dst.mem, digest.mem
    ensures var (c, tag) := S.GcmAe(f, v, old(src.mem[..])[src.at..src.at + length], a, digestLength);
            Leaves(dst, digest, old(dst.mem[..]), old(digest.mem[..]), c, tag) && |c| == length && |tag| == digestLength
  {
    ghost var c, t := Seal(e, form, key, ctx, f, iv, ivLength, aad, aadLength, src, length, dst, digest, digestLength, v, a,
                           src.mem[..][src.at..src.at + length]);
  }

  /** The same calls with an IV of 96 bits and a digest in an array of its own, byte by byte: every byte of the text is added to the
      enciphered IV and counter, from 2 on, and the tag is the hash of what is sent, added to the enciphered IV and counter 1. */
  method SealWithIv96(e: Endian, form: FillForm, key: seq<Words>, ctx: G.GcmCtx, f: Block -> Block, iv: Ptr, aad: Ptr, aadLength: nat,
                      src: Ptr, length: nat, dst: Ptr, digest: Ptr, digestLength: nat, ghost v: seq<byte>, ghost a: seq<byte>, ghost p: seq<byte>)
    returns (ghost c: seq<byte>, ghost t: seq<byte>, ghost x: Block)
    requires Reads(iv, 0, v) && |v| == 12 && Reads(aad, 0, a) && |a| == aadLength
    requires dst.at + length <= dst.mem.Length && src.at + length <= src.mem.Length && (src.mem == dst.mem ==> src == dst)
    requires digestLength <= 16 && digest.at + digestLength <= digest.mem.Length && digest.mem != dst.mem && G.Key(e, key, f(ZEROBLOCK))
    requires p == src.mem[..][src.at..src.at + length]
    modifies ctx, dst.mem, digest.mem
    ensures Reads(dst, 0, c) && Reads(digest, 0, t) && |c| == |p| && |t| == digestLength
    ensures forall i :: 0 <= i < |p| ==> c[i] == p[i] ^ f(v + BigEndian(4, (i / 16 + 2) % 0x1_0000_0000))[i % 16]
    ensures forall i :: 0 <= i < digestLength ==> t[i] == x[i] ^ f(v + BigEndian(4, 1))[i]
    ensures x == Hash(MulBy(f(ZEROBLOCK)), ZEROBLOCK, Padded(a) + Padded(c) + BigEndian(8, 8 * |a|) + BigEndian(8, 8 * |c|),
                      CeilBlocks(|a|) + CeilBlocks(|c|) + 1)
  {
    ghost var was, sums := dst.mem[..], digest.mem[..];
    c, t := Seal(e, form, key, ctx, f, iv, 12, aad, aadLength, src, length, dst, digest, digestLength, v, a, p);
    LeavesReads(dst, digest, was, sums, c, t);
    SealedText(f, v, p, a, digestLength, c);
    x := SealedTag(f, v, p, a, digestLength, c, t);
  }

  lemma SealedText(f: Block -> Block, v: seq<byte>, p: seq<byte>, a: seq<byte>, n: nat, c: seq<byte>)
    requires |v| == 12 && n <= 16 && c == S.GcmAe(f, v, p, a, n).0
    ensures |c| == |p| && forall i :: 0 <= i < |p| ==> c[i] == p[i] ^ f(v + BigEndian(4, (i / 16 + 2) % 0x1_0000_0000))[i % 16]
  {
    forall i: nat | i < |p| ensures |c| == |p| && c[i] == p[i] ^ f(v + BigEndian(4, (i / 16 + 2) % 0x1_0000_0000))[i % 16] {
      SealedByte(f, v, p, a, n, i);
    }
  }

  lemma SealedTag(f: Block -> Block, v: seq<byte>, p: seq<byte>, a: seq<byte>, n: nat, c: seq<byte>, t: seq<byte>) returns (x: Block)
    requires |v| == 12 && n <= 16 && (c, t) == S.GcmAe(f, v, p, a, n)
    ensures x == Hash(MulBy(f(ZEROBLOCK)), ZEROBLOCK, Padded(a) + Padded(c) + BigEndian(8, 8 * |a|) + BigEndian(8, 8 * |c|),
                      CeilBlocks(|a|) + CeilBlocks(|c|) + 1)
    ensures |t| == n && forall i :: 0 <= i < n ==> t[i] == x[i] ^ f(v + BigEndian(4, 1))[i]
  {
    x := Hash(MulBy(f(ZEROBLOCK)), ZEROBLOCK, Padded(a) + Padded(c) + BigEndian(8, 8 * |a|) + BigEndian(8, 8 * |c|),
              CeilBlocks(|a|) + CeilBlocks(|c|) + 1);
    TagSum(f, v, p, a, n, c, x, f(v + BigEndian(4, 1)));
  }

  /** The calls of the receiver, given what they compute. */
  method Receive(e: Endian, form: FillForm, key: seq<Words>, ctx: G.GcmCtx, f: Block -> Block, iv: Ptr, ivLength: nat, aad: Ptr, aadLength: nat,
                 src: Ptr, length: nat, dst: Ptr, digest: Ptr, digestLength: nat, ghost v: seq<byte>, ghost a: seq<byte>,
                 ghost r: S.State, ghost out: seq<byte>, ghost t: seq<byte>, ghost was: seq<byte>, ghost sums: seq<byte>)
    requires Reads(iv, 0, v) && |v| == ivLength && Reads(aad, 0, a) && |a| == aadLength
    requires dst.at + length <= dst.mem.Length && src.at + length <= src.mem.Length && (src.mem == dst.mem ==> src == dst)
    requires digestLength <= 16 && digest.at + digestLength <= digest.mem.Length && G.Key(e, key, f(ZEROBLOCK))
    requires var m := MulBy(f(ZEROBLOCK));
             && (r, out) == S.Decrypt(f, m, S.Update(m, S.SetIv(m, v), a), src.mem[..][src.at..src.at + length])
             && t == S.Digest(f, m, r, digestLength) && |t| == digestLength && |out| == length
    requires was == dst.mem[..] && sums == digest.mem[..]
    modifies ctx, dst.mem, digest.mem
    ensures Leaves(dst, digest, was, sums, out, t)
  {
    Begin(e, key, ctx, f, iv, ivLength, aad, aadLength, v, a);
    DecryptAndDigest(e, form, key, ctx, f, src, length, dst, digest, digestLength, f(ZEROBLOCK), r, out, t, was, sums);
  }

  /** The calls of the receiver: gcm_set_iv, gcm_update, gcm_decrypt and gcm_digest. The destination receives `out` and the
      digest area `t`, which is to be compared with the tag received. */
  method OpenMessage(e: Endian, form: FillForm, key: seq<Words>, ctx: G.GcmCtx, f: Block -> Block, iv: Ptr, ivLength: nat, aad: Ptr, aadLength: nat,
                     src: Ptr, length: nat, dst: Ptr, digest: Ptr, digestLength: nat, ghost v: seq<byte>, ghost a: seq<byte>)
    returns (ghost out: seq<byte>, ghost t: seq<byte>)
    requires Reads(iv, 0, v) && |v| == ivLength && Reads(aad, 0, a) && |a| == aadLength
    requires dst.at + length <= dst.mem.Length && src.at + length <= src.mem.Length && (src.mem == dst.mem ==> src == dst)
    requires digestLength <= 16 && digest.at + digestLength <= digest.mem.Length && G.Key(e, key, f(ZEROBLOCK))
    modifies ctx, dst.mem, digest.mem
    ensures Opens(f, v, a, old(src.mem[..])[src.at..src.at + length], out, t) && |out| == length && |t| == digestLength
    ensures Leaves(dst, digest, old(dst.mem[..]), old(digest.mem[..]), out, t)
  {
    ghost var was, sums, c, r := dst.mem[..], digest.mem[..], src.mem[..][src.at..src.at + length], ctx.Get();
    r, out, t := DecryptOpens(f, v, a, c, digestLength);
    Receive(e, form, key, ctx, f, iv, ivLength, aad, aadLength, src, length, dst, digest, digestLength, v, a, r, out, t, was, sums);
  }

  /** Sealing with the digest in an array of its own. */
  method SealApart(e: Endian, form: FillForm, key: seq<Words>, ctx: G.GcmCtx, f: Block -> Block, iv: Ptr, ivLength: nat, aad: Ptr, aadLength: nat,
                   src: Ptr, length: nat, dst: Ptr, digest: Ptr, digestLength: nat, ghost v: seq<byte>, ghost a: seq<byte>, ghost p: seq<byte>)
    returns (ghost c: seq<byte>, ghost tag: seq<byte>)
    requires Reads(iv, 0, v) && |v| == ivLength && Reads(aad, 0, a) && |a| == aadLength
    requires dst.at + length <= dst.mem.Length && src.at + length <= src.mem.Length && (src.mem == dst.mem ==> src == dst)
    requires digestLength <= 16 && digest.at + digestLength <= digest.mem.Length && digest.mem != dst.mem && G.Key(e, key, f(ZEROBLOCK))
    requires p == src.mem[..][src.at..src.at + length]
    modifies ctx, dst.mem, digest.mem
    ensures OpensAs(f, v, a, c, p, tag) && |c| == length && |tag| == digestLength && Reads(dst, 0, c) && Reads(digest, 0, tag)
  {
    ghost var was, sums, ae := dst.mem[..], digest.mem[..], S.GcmAe(f, v, p, a, digestLength);
    c, tag := ae.0, ae.1;
    SealedOpensAs(f, v, a, p, digestLength);
    SealMessage(e, form, key, ctx, f, iv, ivLength, aad, aadLength, src, length, dst, digest, digestLength, v, a);
    LeavesReads(dst, digest, was, sums, c, tag);
  }

  /** Opening what has been sealed leaves the plaintext and, in the digest area, the same tag. */
  method OpenSealed(e: Endian, form: FillForm, key: seq<Words>, ctx: G.GcmCtx, f: Block -> Block, iv: Ptr, ivLength: nat, aad: Ptr, aadLength: nat,
                    src: Ptr, length: nat, dst: Ptr, digest: Ptr, digestLength: nat, ghost v: seq<byte>, ghost a: seq<byte>,
                    ghost c: seq<byte>, ghost p: seq<byte>, ghost tag: seq<byte>)
    requires Reads(iv, 0, v) && |v| == ivLength && Reads(aad, 0, a) && |a| == aadLength
    requires dst.at + length <= dst.mem.Length && src.at + length <= src.mem.Length && (src.mem == dst.mem ==> src == dst)
    requires digestLength <= 16 && digest.at + digestLength <= digest.mem.Length && digest.mem != dst.mem && G.Key(e, key, f(ZEROBLOCK))
    requires c == src.mem[..][src.at..src.at + length] && OpensAs(f, v, a, c, p, tag) && |tag| == digestLength
    modifies ctx, dst.mem, digest.mem
    ensures Reads(dst, 0, p) && Reads(digest, 0, tag)
  {
    ghost var was, sums := dst.mem[..], digest.mem[..];
    ghost var out, t := OpenMessage(e, form, key, ctx, f, iv, ivLength, aad, aadLength, src, length, dst, digest, digestLength, v, a);
    assert Opens(f, v, a, c, out, t);
    LeavesReads(dst, digest, was, sums, out, t);
  }

  /** What one side seals, the other opens: the plaintext is in the destination again, and the digests agree. The receiver may
      decrypt in place. */
  method SealThenOpen(e: Endian, form: FillForm, key: seq<Words>, ctx: G.GcmCtx, f: Block -> Block, iv: Ptr, ivLength: nat, aad: Ptr, aadLength: nat,
                      src: Ptr, length: nat, mid: Ptr, digest: Ptr, dst: Ptr, check: Ptr, digestLength: nat, ghost v: seq<byte>, ghost a: seq<byte>)
    requires Reads(iv, 0, v) && |v| == ivLength && Reads(aad, 0, a) && |a| == aadLength
    requires mid.at + length <= mid.mem.Length && src.at + length <= src.mem.Length && (src.mem == mid.mem ==> src == mid)
    requires dst.at + length <= dst.mem.Length && (dst.mem == mid.mem ==> dst == mid)
    requires digestLength <= 16 && digest.at + digestLength <= digest.mem.Length && check.at + digestLength <= check.mem.Length
    requires digest.mem != mid.mem && digest.mem != dst.mem && digest.mem != check.mem && check.mem != dst.mem
    requires iv.mem != mid.mem && iv.mem != digest.mem && aad.mem != mid.mem && aad.mem != digest.mem && G.Key(e, key, f(ZEROBLOCK))
    modifies ctx, mid.mem, digest.mem, dst.mem, check.mem
    ensures Reads(dst, 0, old(src.mem[..])[src.at..src.at + length])
    ensures Reads(check, 0, digest.mem[..][digest.at..digest.at + digestLength])
  {
    ghost var p := src.mem[..][src.at..src.at + length];
    ghost var c, tag := SealApart(e, form, key, ctx, f, iv, ivLength, aad, aadLength, src, length, mid, digest, digestLength, v, a, p);
    G.ReadsIs(digest, tag, digestLength);
    ghost var s := digest.mem[..][digest.at..digest.at + digestLength];
    OpenSealed(e, form, key, ctx, f, iv, ivLength, aad, aadLength, mid, length, dst, check, digestLength, v, a, c, p, s);
    assert s == digest.mem[..][digest.at..digest.at + digestLength];
  }
}
