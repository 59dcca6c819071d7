/** A message that reaches the code of GCM in pieces: the calls for them, and what they leave in memory. */
module GcmPieces {
  import opened Wrappers
  import opened Bytes
  import opened GhashWords
  import opened Counter
  import opened MemXor
  import opened Ctr16
  import opened Ghash
  import opened AesGcm
  import S = GcmSpec
  import G = Gcm

  // Where the pieces are in the whole, and what a run has yielded by then.

  lemma PrefixSnoc<T>(ps: seq<T>, n: nat)
    requires n < |ps|
    ensures ps[..n + 1] != [] && ps[..n + 1][..n] == ps[..n] && ps[..n + 1][|ps[..n + 1]| - 1] == ps[n]
  {
  }

  lemma {:induction false} ConcatPrefix(ps: seq<seq<byte>>, n: nat)
    requires n <= |ps|
    ensures S.Concat(ps[..n]) <= S.Concat(ps)
    decreases |ps| - n
  {
    if n == |ps| {
      assert ps[..n] == ps;
    } else {
      PrefixSnoc(ps, n);
      ConcatPrefix(ps, n + 1);
    }
  }

  lemma {:induction false} OutputPrefix(step: S.Step, s: S.State, ps: seq<seq<byte>>, n: nat)
    requires n <= |ps|
    ensures S.Run(step, s, ps[..n]).1 <= S.Run(step, s, ps).1
    decreases |ps| - n
  {
    if n == |ps| {
      assert ps[..n] == ps;
    } else {
      PrefixSnoc(ps, n);
      OutputPrefix(step, s, ps, n + 1);
    }
  }

  lemma {:induction false} PassesAt(can: S.State -> bool, step: S.Step, s: S.State, ps: seq<seq<byte>>, n: nat)
    requires n < |ps| && S.Passes(can, step, s, ps)
    ensures can(S.Run(step, s, ps[..n]).0)
    decreases |ps|
  {
    var init := ps[..|ps| - 1];
    if n < |init| {
      assert init[..n] == ps[..n];
      PassesAt(can, step, s, init, n);
    }
  }

  /** Every piece of output is as long as its piece of input. */
  ghost predicate KeepsLength(step: S.Step) {
    forall s: S.State, d: seq<byte> :: |step(s, d).1| == |d|
  }

  lemma {:induction false} OutputLength(step: S.Step, s: S.State, ps: seq<seq<byte>>)
    requires KeepsLength(step)
    ensures |S.Run(step, s, ps).1| == |S.Concat(ps)|
  {
    if ps != [] {
      OutputLength(step, s, ps[..|ps| - 1]);
    }
  }

  /** A run, one call at a time: the states it goes through, and where in the data and in the output the pieces are. */
  datatype Plan = Plan(ps: seq<seq<byte>>, data: seq<byte>, out: seq<byte>, states: nat -> S.State, offs: nat -> nat) {
    /** Call `n` may be made, it leads to the next state, and its data are the next ones. */
    ghost predicate Piece(can: S.State -> bool, step: S.Step, n: nat)
      requires n < |ps|
    {
      && can(states(n)) && states(n + 1) == step(states(n), ps[n]).0
      && offs(n) + |ps[n]| == offs(n + 1) <= |data|
      && data[offs(n)..offs(n) + |ps[n]|] == ps[n]
    }

    /** Its output is in its place. */
    ghost predicate Output(step: S.Step, n: nat)
      requires n < |ps|
    {
      offs(n) + |ps[n]| <= |out| && out[offs(n)..offs(n) + |ps[n]|] == step(states(n), ps[n]).1
    }

    ghost predicate Valid(can: S.State -> bool, step: S.Step) {
      forall n: nat {:trigger Piece(can, step, n)} :: n < |ps| ==> Piece(can, step, n)
    }

    ghost predicate Outputs(step: S.Step) {
      |out| == |data| && forall n: nat {:trigger Output(step, n)} :: n < |ps| ==> Output(step, n)
    }

    ghost predicate Sound(can: S.State -> bool, step: S.Step) {
      Valid(can, step) && Outputs(step)
    }

    lemma At(can: S.State -> bool, step: S.Step, n: nat)
      requires Sound(can, step) && n < |ps|
      ensures can(states(n)) && states(n + 1) == step(states(n), ps[n]).0
      ensures var i := offs(n); var j := i + |ps[n]|;
              offs(n + 1) == j <= |data| == |out| && data[i..j] == ps[n] && out[i..j] == step(states(n), ps[n]).1
    {
      assert Piece(can, step, n) && Output(step, n);
    }
  }

  ghost function PlanOf(step: S.Step, s: S.State, ps: seq<seq<byte>>): Plan {
    Plan(ps, S.Concat(ps), S.Run(step, s, ps).1,
         (n: nat) => if n <= |ps| then S.Run(step, s, ps[..n]).0 else s,
         (n: nat) => if n <= |ps| then |S.Concat(ps[..n])| else 0)
  }

  lemma PlanEnds(step: S.Step, s: S.State, ps: seq<seq<byte>>)
    ensures var t := PlanOf(step, s, ps); t.states(0) == s && t.states(|ps|) == S.Run(step, s, ps).0 && t.offs(0) == 0 && t.offs(|ps|) == |t.data|
  {
    assert ps[..0] == [] && ps[..|ps|] == ps;
  }

  lemma RunSnoc(step: S.Step, s: S.State, ps: seq<seq<byte>>, n: nat)
    requires n < |ps|
    ensures var (r, out) := S.Run(step, s, ps[..n]);
            S.Run(step, s, ps[..n + 1]) == (step(r, ps[n]).0, out + step(r, ps[n]).1)
    ensures S.Concat(ps[..n + 1]) == S.Concat(ps[..n]) + ps[n]
  {
    PrefixSnoc(ps, n);
  }

  lemma PrefixSlice<T>(s: seq<T>, a: seq<T>, b: seq<T>)
    requires a + b <= s
    ensures s[|a|..|a| + |b|] == b
  {
  }

  lemma PlanPiece(can: S.State -> bool, step: S.Step, s: S.State, ps: seq<seq<byte>>, n: nat)
    requires S.Passes(can, step, s, ps) && n < |ps|
    ensures PlanOf(step, s, ps).Piece(can, step, n)
  {
    PassesAt(can, step, s, ps, n);
    RunSnoc(step, s, ps, n);
    ConcatPrefix(ps, n + 1);
    PrefixSlice(S.Concat(ps), S.Concat(ps[..n]), ps[n]);
  }

  lemma PlanOutput(step: S.Step, s: S.State, ps: seq<seq<byte>>, n: nat)
    requires KeepsLength(step) && n < |ps|
    ensures PlanOf(step, s, ps).Output(step, n)
  {
    OutputLength(step, s, ps[..n]);
    RunSnoc(step, s, ps, n);
    OutputPrefix(step, s, ps, n + 1);
    PrefixSlice(S.Run(step, s, ps).1, S.Run(step, s, ps[..n]).1, step(S.Run(step, s, ps[..n]).0, ps[n]).1);
  }

  lemma PlanIs(can: S.State -> bool, step: S.Step, s: S.State, ps: seq<seq<byte>>)
    requires S.Passes(can, step, s, ps)
    ensures PlanOf(step, s, ps).Valid(can, step)
  {
    PlanEnds(step, s, ps);
    forall n: nat | n < |ps| ensures PlanOf(step, s, ps).Piece(can, step, n) {
      PlanPiece(can, step, s, ps, n);
    }
  }

  lemma PlanOutputs(step: S.Step, s: S.State, ps: seq<seq<byte>>)
    requires KeepsLength(step)
    ensures PlanOf(step, s, ps).Outputs(step)
  {
    var t := PlanOf(step, s, ps);
    OutputLength(step, s, ps);
    forall n: nat | n < |ps| ensures t.Output(step, n) {
      PlanOutput(step, s, ps, n);
    }
  }

  // The loops over the pieces.

  /** Pieces of associated data, each in an area of its own. */
  ghost predicate AreRead(aads: seq<Ptr>, lengths: seq<nat>, ads: seq<seq<byte>>)
    reads set p | p in aads :: p.mem
  {
    |aads| == |lengths| == |ads| && forall n :: 0 <= n < |ads| ==> |ads[n]| == lengths[n] && Reads(aads[n], 0, ads[n])
  }

  /** A call of gcm_update for each of them. */
  method UpdatePieces(e: Endian, key: seq<Words>, ctx: G.GcmCtx, aads: seq<Ptr>, lengths: seq<nat>, ghost ads: seq<seq<byte>>, ghost h: Block, ghost t: Plan)
    requires G.Key(e, key, h) && AreRead(aads, lengths, ads) && t.ps == ads
    requires t.Valid(S.CanUpdate, S.Updating(MulBy(h))) && ctx.Get() == t.states(0)
    modifies ctx
    ensures ctx.Get() == t.states(|ads|)
  {
    var n := 0;
    while n < |aads|
      invariant n <= |aads| && ctx.Get() == t.states(n)
    {
      assert t.Piece(S.CanUpdate, S.Updating(MulBy(h)), n);
      ctx.Update(e, key, lengths[n], aads[n], ads[n], h);
      n := n + 1;
    }
  }

  /** The source holds the text, and is the destination or in another area. */
  ghost predicate IsText(src: Ptr, dst: Ptr, data: seq<byte>)
    reads src.mem
  {
    && src.at + |data| <= src.mem.Length && dst.at + |data| <= dst.mem.Length && (src.mem == dst.mem ==> src == dst)
    && src.mem[..][src.at..src.at + |data|] == data
  }

  lemma TextIs(src: Ptr, dst: Ptr, data: seq<byte>, n: nat)
    requires IsText(src, dst, data) && |data| == n
    ensures src.at + n <= src.mem.Length && dst.at + n <= dst.mem.Length && src.mem[..][src.at..src.at + n] == data
  {
  }

  lemma PieceReady(src: Ptr, dst: Ptr, i: nat, length: nat, j: nat, s: Ptr, d: Ptr, p: seq<byte>, was: seq<byte>, data: seq<byte>, out: seq<byte>)
    requires |out| == |data| && j == i + length <= |data| && dst.at + |data| <= dst.mem.Length && p == data[i..j]
    requires Source(src, dst, was, data) && Written(dst.mem[..], was, dst.at, out, i) && s == Plus(src, i) && d == Plus(dst, i)
    ensures IsText(s, d, p) && |p| == length
  {
    SourceBytes(src, dst, was, data, out, i, length);
  }

  lemma PieceWritten(dst: Ptr, i: nat, j: nat, d: Ptr, mem: seq<byte>, mem': seq<byte>, o: seq<byte>, was: seq<byte>, out: seq<byte>)
    requires i <= j <= |out| && d == Plus(dst, i) && o == out[i..j] && Written(mem, was, dst.at, out, i)
    requires d.at + |o| <= |mem| && mem' == Splice(mem, d.at, o)
    ensures Written(mem', was, dst.at, out, j)
  {
    WrittenStep(mem, was, dst.at, out, i, o);
  }

  /** gcm_encrypt as a step of a run, on bytes that are known. */
  method EncryptInto(e: Endian, form: FillForm, key: seq<Words>, ctx: G.GcmCtx, f: Block -> Block, length: nat, dst: Ptr, src: Ptr,
                     ghost h: Block, ghost step: S.Step, ghost p: seq<byte>, ghost o: seq<byte>)
    requires step == S.Encrypting(f, MulBy(h)) && G.Key(e, key, h) && S.CanCrypt(ctx.Get()) && IsText(src, dst, p)
    requires |p| == length && o == step(ctx.Get(), p).1
    modifies ctx, dst.mem
    ensures ctx.Get() == step(old(ctx.Get()), p).0 && dst.mem[..] == Splice(old(dst.mem[..]), dst.at, o)
  {
    TextIs(src, dst, p, length);
    ctx.Encrypt(e, form, key, f, length, dst, src, h);
  }

  /** That for the next piece of the data, from offset `i` to `j`. */
  method EncryptPiece(e: Endian, form: FillForm, key: seq<Words>, ctx: G.GcmCtx, f: Block -> Block, src: Ptr, dst: Ptr, i: nat, length: nat,
                      ghost h: Block, ghost step: S.Step, ghost p: seq<byte>, ghost o: seq<byte>, ghost j: nat,
                      ghost was: seq<byte>, ghost data: seq<byte>, ghost out: seq<byte>)
    requires step == S.Encrypting(f, MulBy(h)) && G.Key(e, key, h) && S.CanCrypt(ctx.Get())
    requires |out| == |data| && j == i + length <= |data| && dst.at + |data| <= dst.mem.Length
    requires p == data[i..j] && o == out[i..j] == step(ctx.Get(), p).1
    requires Source(src, dst, was, data) && Written(dst.mem[..], was, dst.at, out, i)
    modifies ctx, dst.mem
    ensures ctx.Get() == step(old(ctx.Get()), p).0
    ensures Source(src, dst, was, data) && Written(dst.mem[..], was, dst.at, out, j)
  {
    ghost var mem := dst.mem[..];
    var d, s := Plus(dst, i), Plus(src, i);
    PieceReady(src, dst, i, length, j, s, d, p, was, data, out);
    EncryptInto(e, form, key, ctx, f, length, d, s, h, step, p, o);
    PieceWritten(dst, i, j, d, mem, dst.mem[..], o, was, out);
  }

  /** gcm_decrypt as a step of a run, on bytes that are known. */
  method DecryptInto(e: Endian, form: FillForm, key: seq<Words>, ctx: G.GcmCtx, f: Block -> Block, length: nat, dst: Ptr, src: Ptr,
                     ghost h: Block, ghost step: S.Step, ghost p: seq<byte>, ghost o: seq<byte>)
    requires step == S.Decrypting(f, MulBy(h)) && G.Key(e, key, h) && S.CanCrypt(ctx.Get()) && IsText(src, dst, p)
    requires |p| == length && o == step(ctx.Get(), p).1
    modifies ctx, dst.mem
    ensures ctx.Get() == step(old(ctx.Get()), p).0 && dst.mem[..] == Splice(old(dst.mem[..]), dst.at, o)
  {
    TextIs(src, dst, p, length);
    ctx.Decrypt(e, form, key, f, length, dst, src, h);
  }

  /** That for the next piece of the data, from offset `i` to `j`. */
  method DecryptPiece(e: Endian, form: FillForm, key: seq<Words>, ctx: G.GcmCtx, f: Block -> Block, src: Ptr, dst: Ptr, i: nat, length: nat,
                      ghost h: Block, ghost step: S.Step, ghost p: seq<byte>, ghost o: seq<byte>, ghost j: nat,
                      ghost was: seq<byte>, ghost data: seq<byte>, ghost out: seq<byte>)
    requires step == S.Decrypting(f, MulBy(h)) && G.Key(e, key, h) && S.CanCrypt(ctx.Get())
    requires |out| == |data| && j == i + length <= |data| && dst.at + |data| <= dst.mem.Length
    requires p == data[i..j] && o == out[i..j] == step(ctx.Get(), p).1
    requires Source(src, dst, was, data) && Written(dst.mem[..], was, dst.at, out, i)
    modifies ctx, dst.mem
    ensures ctx.Get() == step(old(ctx.Get()), p).0
    ensures Source(src, dst, was, data) && Written(dst.mem[..], was, dst.at, out, j)
  {
    ghost var mem := dst.mem[..];
    var d, s := Plus(dst, i), Plus(src, i);
    PieceReady(src, dst, i, length, j, s, d, p, was, data, out);
    DecryptInto(e, form, key, ctx, f, length, d, s, h, step, p, o);
    PieceWritten(dst, i, j, d, mem, dst.mem[..], o, was, out);
  }

  /** The lengths are those of the pieces. */
  predicate Cuts(cuts: seq<nat>, ps: seq<seq<byte>>) {
    |cuts| == |ps| && forall n :: 0 <= n < |ps| ==> cuts[n] == |ps[n]|
  }

  /** `n` pieces, which are the first `i` bytes, have been through the code. */
  ghost predicate Reached(ctx: G.GcmCtx, src: Ptr, dst: Ptr, was: seq<byte>, t: Plan, n: nat, i: nat)
    reads ctx, src.mem, dst.mem
  {
    i == t.offs(n) && ctx.Get() == t.states(n) && Source(src, dst, was, t.data) && Written(dst.mem[..], was, dst.at, t.out, i)
  }

  /** The call of gcm_encrypt for piece `n`. */
  method EncryptNext(e: Endian, form: FillForm, key: seq<Words>, ctx: G.GcmCtx, f: Block -> Block, src: Ptr, dst: Ptr, i: nat, length: nat,
                     ghost h: Block, ghost step: S.Step, ghost was: seq<byte>, ghost t: Plan, ghost n: nat)
    requires step == S.Encrypting(f, MulBy(h)) && G.Key(e, key, h) && dst.at + |t.data| <= dst.mem.Length
    requires t.Sound(S.CanCrypt, step) && n < |t.ps| && length == |t.ps[n]| && Reached(ctx, src, dst, was, t, n, i)
    modifies ctx, dst.mem
    ensures Reached(ctx, src, dst, was, t, n + 1, i + length)
  {
    t.At(S.CanCrypt, step, n);
    ghost var j := i + length;
    EncryptPiece(e, form, key, ctx, f, src, dst, i, length, h, step, t.ps[n], t.out[i..j], j, was, t.data, t.out);
  }

  /** A call of gcm_encrypt for each piece. */
  method EncryptPieces(e: Endian, form: FillForm, key: seq<Words>, ctx: G.GcmCtx, f: Block -> Block, src: Ptr, dst: Ptr, cuts: seq<nat>,
                       ghost h: Block, ghost step: S.Step, ghost was: seq<byte>, ghost t: Plan) returns (i: nat)
    requires step == S.Encrypting(f, MulBy(h)) && G.Key(e, key, h) && Cuts(cuts, t.ps) && dst.at + |t.data| <= dst.mem.Length
    requires t.Sound(S.CanCrypt, step) && Reached(ctx, src, dst, was, t, 0, 0)
    modifies ctx, dst.mem
    ensures Reached(ctx, src, dst, was, t, |t.ps|, i)
  {
    i := 0;
    var n := 0;
    while n < |cuts|
      invariant n <= |cuts| && Reached(ctx, src, dst, was, t, n, i)
    {
      EncryptNext(e, form, key, ctx, f, src, dst, i, cuts[n], h, step, was, t, n);
      n, i := n + 1, i + cuts[n];
    }
  }

  /** The call of gcm_decrypt for piece `n`. */
  method DecryptNext(e: Endian, form: FillForm, key: seq<Words>, ctx: G.GcmCtx, f: Block -> Block, src: Ptr, dst: Ptr, i: nat, length: nat,
                     ghost h: Block, ghost step: S.Step, ghost was: seq<byte>, ghost t: Plan, ghost n: nat)
    requires step == S.Decrypting(f, MulBy(h)) && G.Key(e, key, h) && dst.at + |t.data| <= dst.mem.Length
    requires t.Sound(S.CanCrypt, step) && n < |t.ps| && length == |t.ps[n]| && Reached(ctx, src, dst, was, t, n, i)
    modifies ctx, dst.mem
    ensures Reached(ctx, src, dst, was, t, n + 1, i + length)
  {
    t.At(S.CanCrypt, step, n);
    ghost var j := i + length;
    DecryptPiece(e, form, key, ctx, f, src, dst, i, length, h, step, t.ps[n], t.out[i..j], j, was, t.data, t.out);
  }

  /** A call of gcm_decrypt for each piece. */
  method DecryptPieces(e: Endian, form: FillForm, key: seq<Words>, ctx: G.GcmCtx, f: Block -> Block, src: Ptr, dst: Ptr, cuts: seq<nat>,
                       ghost h: Block, ghost step: S.Step, ghost was: seq<byte>, ghost t: Plan) returns (i: nat)
    requires step == S.Decrypting(f, MulBy(h)) && G.Key(e, key, h) && Cuts(cuts, t.ps) && dst.at + |t.data| <= dst.mem.Length
    requires t.Sound(S.CanCrypt, step) && Reached(ctx, src, dst, was, t, 0, 0)
    modifies ctx, dst.mem
    ensures Reached(ctx, src, dst, was, t, |t.ps|, i)
  {
    i := 0;
    var n := 0;
    while n < |cuts|
      invariant n <= |cuts| && Reached(ctx, src, dst, was, t, n, i)
    {
      DecryptNext(e, form, key, ctx, f, src, dst, i, cuts[n], h, step, was, t, n);
      n, i := n + 1, i + cuts[n];
    }
  }

  // Whole messages.

  lemma PlanSound(can: S.State -> bool, step: S.Step, s: S.State, ps: seq<seq<byte>>)
    requires S.Passes(can, step, s, ps) && KeepsLength(step)
    ensures var t := PlanOf(step, s, ps);
            t.Sound(can, step) && t.states(0) == s && t.states(|ps|) == S.Run(step, s, ps).0 && t.offs(0) == 0 && t.offs(|ps|) == |t.data|
  {
    PlanIs(can, step, s, ps);
    PlanOutputs(step, s, ps);
    PlanEnds(step, s, ps);
  }

  lemma CryptKeepsLength(f: Block -> Block, m: Block -> Block)
    ensures KeepsLength(S.Encrypting(f, m)) && KeepsLength(S.Decrypting(f, m))
  {
  }

  /** The text through gcm_encrypt, in place or not. */
  method EncryptRun(e: Endian, form: FillForm, key: seq<Words>, ctx: G.GcmCtx, f: Block -> Block, src: Ptr, dst: Ptr, cuts: seq<nat>,
                    ghost h: Block, ghost step: S.Step, ghost ps: seq<seq<byte>>, ghost r: S.State, ghost out: seq<byte>)
    requires step == S.Encrypting(f, MulBy(h)) && KeepsLength(step) && G.Key(e, key, h) && Cuts(cuts, ps)
    requires IsText(src, dst, S.Concat(ps)) && S.Passes(S.CanCrypt, step, ctx.Get(), ps) && (r, out) == S.Run(step, ctx.Get(), ps) && |out| == |S.Concat(ps)|
    modifies ctx, dst.mem
    ensures ctx.Get() == r && dst.mem[..] == Splice(old(dst.mem[..]), dst.at, out)
  {
    ghost var was, t := dst.mem[..], PlanOf(step, ctx.Get(), ps);
    PlanSound(S.CanCrypt, step, ctx.Get(), ps);
    WrittenEnds(was, dst.at, t.out);
    assert Reached(ctx, src, dst, was, t, 0, 0);
    var i := EncryptPieces(e, form, key, ctx, f, src, dst, cuts, h, step, was, t);
    assert Written(dst.mem[..], was, dst.at, t.out, |t.out|);
  }

  /** The text through gcm_decrypt, in place or not. */
  method DecryptRun(e: Endian, form: FillForm, key: seq<Words>, ctx: G.GcmCtx, f: Block -> Block, src: Ptr, dst: Ptr, cuts: seq<nat>,
                    ghost h: Block, ghost step: S.Step, ghost ps: seq<seq<byte>>, ghost r: S.State, ghost out: seq<byte>)
    requires step == S.Decrypting(f, MulBy(h)) && KeepsLength(step) && G.Key(e, key, h) && Cuts(cuts, ps)
    requires IsText(src, dst, S.Concat(ps)) && S.Passes(S.CanCrypt, step, ctx.Get(), ps) && (r, out) == S.Run(step, ctx.Get(), ps) && |out| == |S.Concat(ps)|
    modifies ctx, dst.mem
    ensures ctx.Get() == r && dst.mem[..] == Splice(old(dst.mem[..]), dst.at, out)
  {
    ghost var was, t := dst.mem[..], PlanOf(step, ctx.Get(), ps);
    PlanSound(S.CanCrypt, step, ctx.Get(), ps);
    WrittenEnds(was, dst.at, t.out);
    assert Reached(ctx, src, dst, was, t, 0, 0);
    var i := DecryptPieces(e, form, key, ctx, f, src, dst, cuts, h, step, was, t);
    assert Written(dst.mem[..], was, dst.at, t.out, |t.out|);
  }

  /** The IV and the associated data. */
  method Start(e: Endian, key: seq<Words>, ctx: G.GcmCtx, iv: Ptr, ivLength: nat, aads: seq<Ptr>, lengths: seq<nat>,
               ghost h: Block, ghost v: seq<byte>, ghost ads: seq<seq<byte>>)
    requires G.Key(e, key, h) && Reads(iv, 0, v) && |v| == ivLength && AreRead(aads, lengths, ads) && S.WholePieces(ads)
    modifies ctx
    ensures var m := MulBy(h); ctx.Get() == S.Run(S.Updating(m), S.SetIv(m, v), ads).0 && ctx.dataSize == 0
  {
    ghost var m := MulBy(h);
    ghost var s := S.SetIv(m, v);
    ctx.SetIv(e, key, ivLength, iv, v, h);
    S.UpdatesPass(m, s, ads);
    PlanIs(S.CanUpdate, S.Updating(m), s, ads);
    PlanEnds(S.Updating(m), s, ads);
    UpdatePieces(e, key, ctx, aads, lengths, ads, h, PlanOf(S.Updating(m), s, ads));
  }

  /** What a sending run ends with, */
  lemma SealRun(f: Block -> Block, v: seq<byte>, ads: seq<seq<byte>>, ps: seq<seq<byte>>, n: nat)
    returns (step: S.Step, s: S.State, r: S.State, out: seq<byte>, t: seq<byte>)
    requires S.WholePieces(ads) && S.WholePieces(ps) && n <= 16
    ensures var m := MulBy(f(ZEROBLOCK)); step == S.Encrypting(f, m) && s == S.Run(S.Updating(m), S.SetIv(m, v), ads).0 && t == S.Digest(f, m, r, n)
    ensures KeepsLength(step) && S.Passes(S.CanCrypt, step, s, ps) && (r, out) == S.Run(step, s, ps)
    ensures (out, t) == S.GcmAe(f, v, S.Concat(ps), S.Concat(ads), n) && |out| == |S.Concat(ps)| && |t| == n
  {
    var m := MulBy(f(ZEROBLOCK));
    step, s := S.Encrypting(f, m), S.Run(S.Updating(m), S.SetIv(m, v), ads).0;
    S.UpdatesPass(m, S.SetIv(m, v), ads);
    S.EncryptsPass(f, m, s, ps);
    CryptKeepsLength(f, m);
    OutputLength(step, s, ps);
    var d := S.Run(step, s, ps);
    r, out, t := d.0, d.1, S.Digest(f, m, d.0, n);
    S.SealIsGcmAe(f, v, ads, ps, n);
  }

  /** and a receiving one. */
  lemma OpenRun(f: Block -> Block, v: seq<byte>, ads: seq<seq<byte>>, cs: seq<seq<byte>>, n: nat)
    returns (step: S.Step, s: S.State, r: S.State, out: seq<byte>, t: seq<byte>)
    requires S.WholePieces(ads) && S.WholePieces(cs) && n <= 16
    ensures var m := MulBy(f(ZEROBLOCK)); step == S.Decrypting(f, m) && s == S.Run(S.Updating(m), S.SetIv(m, v), ads).0 && t == S.Digest(f, m, r, n)
    ensures KeepsLength(step) && S.Passes(S.CanCrypt, step, s, cs) && (r, out) == S.Run(step, s, cs)
    ensures Opens(f, v, S.Concat(ads), S.Concat(cs), out, t) && |out| == |S.Concat(cs)| && |t| == n
  {
    var m := MulBy(f(ZEROBLOCK));
    step, s := S.Decrypting(f, m), S.Run(S.Updating(m), S.SetIv(m, v), ads).0;
    S.UpdatesPass(m, S.SetIv(m, v), ads);
    S.DecryptsPass(f, m, s, cs);
    CryptKeepsLength(f, m);
    OutputLength(step, s, cs);
    var d := S.Run(step, s, cs);
    r, out, t := d.0, d.1, S.Digest(f, m, d.0, n);
    forall tag: seq<byte> | |tag| == |t| ensures S.GcmAd(f, v, S.Concat(cs), S.Concat(ads), tag) == if t == tag then Some(out) else None {
      S.OpenIsGcmAd(f, v, ads, cs, tag);
    }
  }

  /** gcm_encrypt for each piece and gcm_digest; `r`, `out` and `t` are the context, the output and the digest. */
  method EncryptRunAndDigest(e: Endian, form: FillForm, key: seq<Words>, ctx: G.GcmCtx, f: Block -> Block, src: Ptr, dst: Ptr, cuts: seq<nat>,
                           digest: Ptr, digestLength: nat, ghost h: Block, ghost step: S.Step, ghost ps: seq<seq<byte>>, ghost r: S.State,
                           ghost out: seq<byte>, ghost t: seq<byte>, ghost was: seq<byte>, ghost sums: seq<byte>)
    requires step == S.Encrypting(f, MulBy(h)) && KeepsLength(step) && G.Key(e, key, h) && Cuts(cuts, ps)
    requires IsText(src, dst, S.Concat(ps)) && S.Passes(S.CanCrypt, step, ctx.Get(), ps)
    requires (r, out) == S.Run(step, ctx.Get(), ps) && |out| == |S.Concat(ps)|
    requires digestLength <= 16 && digest.at + digestLength <= digest.mem.Length && t == S.Digest(f, MulBy(h), r, digestLength)
    requires |t| == digestLength && was == dst.mem[..] && sums == digest.mem[..]
    modifies ctx, dst.mem, digest.mem
    ensures Leaves(dst, digest, was, sums, out, t)
  {
    EncryptRun(e, form, key, ctx, f, src, dst, cuts, h, step, ps, r, out);
    ctx.Digest(e, key, f, digestLength, digest, h);
  }

  /** gcm_decrypt for each piece and gcm_digest; `r`, `out` and `t` are the context, the output and the digest. */
  method DecryptRunAndDigest(e: Endian, form: FillForm, key: seq<Words>, ctx: G.GcmCtx, f: Block -> Block, src: Ptr, dst: Ptr, cuts: seq<nat>,
                           digest: Ptr, digestLength: nat, ghost h: Block, ghost step: S.Step, ghost ps: seq<seq<byte>>, ghost r: S.State,
                           ghost out: seq<byte>, ghost t: seq<byte>, ghost was: seq<byte>, ghost sums: seq<byte>)
    requires step == S.Decrypting(f, MulBy(h)) && KeepsLength(step) && G.Key(e, key, h) && Cuts(cuts, ps)
    requires IsText(src, dst, S.Concat(ps)) && S.Passes(S.CanCrypt, step, ctx.Get(), ps)
    requires (r, out) == S.Run(step, ctx.Get(), ps) && |out| == |S.Concat(ps)|
    requires digestLength <= 16 && digest.at + digestLength <= digest.mem.Length && t == S.Digest(f, MulBy(h), r, digestLength)
    requires |t| == digestLength && was == dst.mem[..] && sums == digest.mem[..]
    modifies ctx, dst.mem, digest.mem
    ensures Leaves(dst, digest, was, sums, out, t)
  {
    DecryptRun(e, form, key, ctx, f, src, dst, cuts, h, step, ps, r, out);
    ctx.Digest(e, key, f, digestLength, digest, h);
  }

  /** Sealing a message that comes in pieces. Whatever the pieces are that the assertions of the code allow, the ciphertext and
      the tag are those of GCM-AE for the whole. */
  method SealPieces(e: Endian, form: FillForm, key: seq<Words>, ctx: G.GcmCtx, f: Block -> Block, iv: Ptr, ivLength: nat,
                    aads: seq<Ptr>, lengths: seq<nat>, src: Ptr, dst: Ptr, cuts: seq<nat>, digest: Ptr, digestLength: nat,
                    ghost v: seq<byte>, ghost ads: seq<seq<byte>>, ghost ps: seq<seq<byte>>)
    requires G.Key(e, key, f(ZEROBLOCK)) && Reads(iv, 0, v) && |v| == ivLength && AreRead(aads, lengths, ads)
    requires IsText(src, dst, S.Concat(ps)) && Cuts(cuts, ps) && S.WholePieces(ads) && S.WholePieces(ps)
    requires digestLength <= 16 && digest.at + digestLength <= digest.mem.Length
    modifies ctx, dst.mem, digest.mem
    ensures var (c, tag) := S.GcmAe(f, v, S.Concat(ps), S.Concat(ads), digestLength);
            Leaves(dst, digest, old(dst.mem[..]), old(digest.mem[..]), c, tag) && |c| == |S.Concat(ps)| && |tag| == digestLength
  {
    ghost var was, sums := dst.mem[..], digest.mem[..];
    ghost var step, s, r, out, t := SealRun(f, v, ads, ps, digestLength);
    Start(e, key, ctx, iv, ivLength, aads, lengths, f(ZEROBLOCK), v, ads);
    EncryptRunAndDigest(e, form, key, ctx, f, src, dst, cuts, digest, digestLength, f(ZEROBLOCK), step, ps, r, out, t, was, sums);
  }

  /** Opening one: to give out what is in the destination just when the digest is the tag received is GCM-AD for the whole. */
  method OpenPieces(e: Endian, form: FillForm, key: seq<Words>, ctx: G.GcmCtx, f: Block -> Block, iv: Ptr, ivLength: nat,
                    aads: seq<Ptr>, lengths: seq<nat>, src: Ptr, dst: Ptr, cuts: seq<nat>, digest: Ptr, digestLength: nat,
                    ghost v: seq<byte>, ghost ads: seq<seq<byte>>, ghost cs: seq<seq<byte>>) returns (ghost out: seq<byte>, ghost t: seq<byte>)
    requires G.Key(e, key, f(ZEROBLOCK)) && Reads(iv, 0, v) && |v| == ivLength && AreRead(aads, lengths, ads)
    requires IsText(src, dst, S.Concat(cs)) && Cuts(cuts, cs) && S.WholePieces(ads) && S.WholePieces(cs)
    requires digestLength <= 16 && digest.at + digestLength <= digest.mem.Length
    modifies ctx, dst.mem, digest.mem
    ensures Opens(f, v, S.Concat(ads), S.Concat(cs), out, t) && |out| == |S.Concat(cs)| && |t| == digestLength
    ensures Leaves(dst, digest, old(dst.mem[..]), old(digest.mem[..]), out, t)
  {
    ghost var was, sums := dst.mem[..], digest.mem[..];
    ghost var step, s, r;
    step, s, r, out, t := OpenRun(f, v, ads, cs, digestLength);
    Start(e, key, ctx, iv, ivLength, aads, lengths, f(ZEROBLOCK), v, ads);
    DecryptRunAndDigest(e, form, key, ctx, f, src, dst, cuts, digest, digestLength, f(ZEROBLOCK), step, cs, r, out, t, was, sums);
  }

  // One side seals, and the other cuts what it receives in its own way.

  function Total(cuts: seq<nat>): nat {
    if cuts == [] then 0 else Total(cuts[..|cuts| - 1]) + cuts[|cuts| - 1]
  }

  /** Data cut into pieces of the given lengths. */
  function CutUp(data: seq<byte>, cuts: seq<nat>): seq<seq<byte>>
    requires |data| == Total(cuts)
    decreases |cuts|
  {
    if cuts == [] then [] else
      var n := Total(cuts[..|cuts| - 1]);
      CutUp(data[..n], cuts[..|cuts| - 1]) + [data[n..]]
  }

  /** Every length but the last is a multiple of 16. */
  predicate WholeCuts(cuts: seq<nat>) {
    forall n :: 0 <= n < |cuts| - 1 ==> cuts[n] % 16 == 0
  }

  lemma ConcatSnoc(ps: seq<seq<byte>>, p: seq<byte>)
    ensures S.Concat(ps + [p]) == S.Concat(ps) + p
  {
    assert (ps + [p])[..|ps|] == ps;
  }

  lemma CutsSnoc(cuts: seq<nat>, ps: seq<seq<byte>>, p: seq<byte>)
    requires cuts != [] && Cuts(cuts[..|cuts| - 1], ps) && cuts[|cuts| - 1] == |p|
    ensures Cuts(cuts, ps + [p])
  {
    forall n | 0 <= n < |cuts| ensures cuts[n] == |(ps + [p])[n]| {
      if n < |ps| {
        assert cuts[n] == cuts[..|cuts| - 1][n];
      }
    }
  }

  lemma {:induction false} CutUpIs(data: seq<byte>, cuts: seq<nat>)
    requires |data| == Total(cuts)
    ensures S.Concat(CutUp(data, cuts)) == data && Cuts(cuts, CutUp(data, cuts))
    decreases |cuts|
  {
    if cuts != [] {
      var init, n := cuts[..|cuts| - 1], Total(cuts[..|cuts| - 1]);
      var start, last := data[..n], data[n..];
      CutUpIs(start, init);
      ConcatSnoc(CutUp(start, init), last);
      CutsSnoc(cuts, CutUp(start, init), last);
      assert start + last == data;
    }
  }

  lemma {:induction false} CutsWhole(cuts: seq<nat>, ps: seq<seq<byte>>)
    requires Cuts(cuts, ps) && WholeCuts(cuts)
    ensures S.WholePieces(ps)
    decreases |ps|
  {
    if |ps| >= 2 {
      var m := |ps| - 1;
      assert cuts[m - 1] % 16 == 0;
      CutsWhole(cuts[..m], ps[..m]);
    }
  }

  /** Sealing with the digest in an array of its own. */
  method SealApart(e: Endian, form: FillForm, key: seq<Words>, ctx: G.GcmCtx, f: Block -> Block, iv: Ptr, ivLength: nat,
                   aads: seq<Ptr>, lengths: seq<nat>, src: Ptr, dst: Ptr, cuts: seq<nat>, digest: Ptr, digestLength: nat,
                   ghost v: seq<byte>, ghost ads: seq<seq<byte>>, ghost p: seq<byte>) returns (ghost c: seq<byte>, ghost tag: seq<byte>)
    requires G.Key(e, key, f(ZEROBLOCK)) && Reads(iv, 0, v) && |v| == ivLength && AreRead(aads, lengths, ads)
    requires |p| == Total(cuts) && IsText(src, dst, p) && S.WholePieces(ads) && WholeCuts(cuts)
    requires digestLength <= 16 && digest.at + digestLength <= digest.mem.Length && digest.mem != dst.mem
    modifies ctx, dst.mem, digest.mem
    ensures OpensAs(f, v, S.Concat(ads), c, p, tag) && |c| == |p| && |tag| == digestLength && Reads(dst, 0, c) && Reads(digest, 0, tag)
  {
    ghost var was, sums, ae := dst.mem[..], digest.mem[..], S.GcmAe(f, v, p, S.Concat(ads), digestLength);
    c, tag := ae.0, ae.1;
    CutUpIs(p, cuts);
    CutsWhole(cuts, CutUp(p, cuts));
    SealedOpensAs(f, v, S.Concat(ads), p, digestLength);
    SealPieces(e, form, key, ctx, f, iv, ivLength, aads, lengths, src, dst, cuts, digest, digestLength, v, ads, CutUp(p, cuts));
    LeavesReads(dst, digest, was, sums, c, tag);
  }

  /** Opening what has been sealed. */
  method OpenSealed(e: Endian, form: FillForm, key: seq<Words>, ctx: G.GcmCtx, f: Block -> Block, iv: Ptr, ivLength: nat,
                    aads: seq<Ptr>, lengths: seq<nat>, src: Ptr, dst: Ptr, cuts: seq<nat>, digest: Ptr, digestLength: nat,
                    ghost v: seq<byte>, ghost ads: seq<seq<byte>>, ghost c: seq<byte>, ghost p: seq<byte>, ghost tag: seq<byte>)
    requires G.Key(e, key, f(ZEROBLOCK)) && Reads(iv, 0, v) && |v| == ivLength && AreRead(aads, lengths, ads)
    requires |c| == Total(cuts) && IsText(src, dst, c) && S.WholePieces(ads) && WholeCuts(cuts)
    requires digestLength <= 16 && digest.at + digestLength <= digest.mem.Length && digest.mem != dst.mem
    requires OpensAs(f, v, S.Concat(ads), c, p, tag) && |tag| == digestLength
    modifies ctx, dst.mem, digest.mem
    ensures Reads(dst, 0, p) && Reads(digest, 0, tag)
  {
    ghost var was, sums := dst.mem[..], digest.mem[..];
    CutUpIs(c, cuts);
    CutsWhole(cuts, CutUp(c, cuts));
    ghost var out, t := OpenPieces(e, form, key, ctx, f, iv, ivLength, aads, lengths, src, dst, cuts, digest, digestLength, v, ads, CutUp(c, cuts));
    assert Opens(f, v, S.Concat(ads), c, out, t);
    LeavesReads(dst, digest, was, sums, out, t);
  }

  /** None of the pointers is into the area. */
  predicate Outside(ps: seq<Ptr>, mem: array<byte>) {
    forall p :: p in ps ==> p.mem != mem
  }

  /** What one side seals the other opens, whichever way each of them cuts the associated data and the text: the plaintext is
      in the destination again, and the digests agree. */
  method SealThenOpen(e: Endian, form: FillForm, key: seq<Words>, ctx: G.GcmCtx, f: Block -> Block, iv: Ptr, ivLength: nat,
                      aads: seq<Ptr>, lengths: seq<nat>, src: Ptr, cuts: seq<nat>, mid: Ptr, digest: Ptr,
                      aads': seq<Ptr>, lengths': seq<nat>, cuts': seq<nat>, dst: Ptr, check: Ptr, digestLength: nat,
                      ghost v: seq<byte>, ghost ads: seq<seq<byte>>, ghost ads': seq<seq<byte>>, ghost p: seq<byte>)
    requires G.Key(e, key, f(ZEROBLOCK)) && Reads(iv, 0, v) && |v| == ivLength
    requires AreRead(aads, lengths, ads) && S.WholePieces(ads) && AreRead(aads', lengths', ads') && S.WholePieces(ads')
    requires S.Concat(ads) == S.Concat(ads') && |p| == Total(cuts) == Total(cuts') && WholeCuts(cuts) && WholeCuts(cuts')
    requires IsText(src, mid, p) && dst.at + |p| <= dst.mem.Length && (dst.mem == mid.mem ==> dst == mid)
    requires digestLength <= 16 && digest.at + digestLength <= digest.mem.Length && check.at + digestLength <= check.mem.Length
    requires digest.mem != mid.mem && digest.mem != dst.mem && digest.mem != check.mem && check.mem != dst.mem
    requires Outside([iv] + aads', mid.mem) && Outside([iv] + aads', digest.mem)
    modifies ctx, mid.mem, digest.mem, dst.mem, check.mem
    ensures Reads(dst, 0, p) && Reads(check, 0, digest.mem[..][digest.at..digest.at + digestLength])
  {
    assert iv in [iv] + aads' && forall q :: q in aads' ==> q in [iv] + aads';
    ghost var c, tag := SealApart(e, form, key, ctx, f, iv, ivLength, aads, lengths, src, mid, cuts, digest, digestLength, v, ads, p);
    assert AreRead(aads', lengths', ads');
    G.ReadsIs(digest, tag, digestLength);
    ghost var s := digest.mem[..][digest.at..digest.at + digestLength];
    OpenSealed(e, form, key, ctx, f, iv, ivLength, aads', lengths', mid, dst, cuts', check, digestLength, v, ads', c, p, s);
    assert s == digest.mem[..][digest.at..digest.at + digestLength];
  }
}
