/** UTF-8 text as a byte string: cp_len, byte_of_cp, slice_cp and the paste filter of term.hpp. A byte is its value,
    so that the tests of its high bits are ranges; MasksAreRanges relates the two. */
module Utf8 {
  type Octet = n: int | 0 <= n < 256

  /** A byte of which the two highest bits are 10. */
  predicate IsContinuation(b: Octet) {
    0x80 <= b < 0xC0
  }

  /** The length of a sequence, from its first byte. */
  function LeadLength(b: Octet): nat {
    if 0xC0 <= b < 0xE0 then 2 else if 0xE0 <= b < 0xF0 then 3 else if 0xF0 <= b < 0xF8 then 4 else 1
  }

  lemma MasksAreRanges(b: bv8, n: Octet)
    requires n == b as int
    ensures (b & 0xC0 == 0x80) == IsContinuation(n)
    ensures (b & 0xE0 == 0xC0) == (0xC0 <= n < 0xE0) && (b & 0xF0 == 0xE0) == (0xE0 <= n < 0xF0) && (b & 0xF8 == 0xF0) == (0xF0 <= n < 0xF8)
  {
  }

  /** A Unicode scalar value. */
  type Scalar = c: int | 0 <= c < 0xD800 || 0xE000 <= c < 0x110000

  /** Section 3 of RFC 3629. */
  function EncodeScalar(c: Scalar): seq<Octet> {
    if c < 0x80 then [c]
    else if c < 0x800 then [0xC0 + c / 64, 0x80 + c % 64]
    else if c < 0x10000 then [0xE0 + c / 4096, 0x80 + c / 64 % 64, 0x80 + c % 64]
    else [0xF0 + c / 262144, 0x80 + c / 4096 % 64, 0x80 + c / 64 % 64, 0x80 + c % 64]
  }

  /** What the code relies on: a character starts with a byte that is not a continuation byte and gives its length,
      and goes on with bytes that are. */
  ghost predicate IsEncoding<T(!new)>(enc: T -> seq<Octet>) {
    forall c: T :: IsSequence(enc(c))
  }

  predicate IsSequence(s: seq<Octet>) {
    && |s| > 0 && !IsContinuation(s[0]) && LeadLength(s[0]) == |s|
    && forall k :: 0 < k < |s| ==> IsContinuation(s[k])
  }

  lemma Utf8IsEncoding()
    ensures IsEncoding(EncodeScalar)
  {
    forall c: Scalar ensures IsSequence(EncodeScalar(c)) {
    }
  }

  /** The scalar value of a sequence. */
  function DecodeScalar(s: seq<Octet>): int
    requires 1 <= |s| <= 4
  {
    match |s|
    case 1 => s[0]
    case 2 => (s[0] as int - 0xC0) * 64 + (s[1] as int - 0x80)
    case 3 => ((s[0] as int - 0xE0) * 64 + (s[1] as int - 0x80)) * 64 + (s[2] as int - 0x80)
    case _ => (((s[0] as int - 0xF0) * 64 + (s[1] as int - 0x80)) * 64 + (s[2] as int - 0x80)) * 64 + (s[3] as int - 0x80)
  }

  lemma DecodeEncode(c: Scalar)
    ensures 1 <= |EncodeScalar(c)| <= 4 && DecodeScalar(EncodeScalar(c)) == c
  {
    var d, e := c / 64, c / 4096;
    assert d / 64 == e && e / 64 == c / 262144;
    assert c == d * 64 + c % 64 && d == e * 64 + d % 64 && e == e / 64 * 64 + e % 64;
  }

  /** The encoding of a text. */
  function Encode<T>(enc: T -> seq<Octet>, s: seq<T>): seq<Octet> {
    if s == [] then [] else Encode(enc, s[..|s| - 1]) + enc(s[|s| - 1])
  }

  lemma {:induction false} EncodeConcat<T>(enc: T -> seq<Octet>, s: seq<T>, t: seq<T>)
    ensures Encode(enc, s + t) == Encode(enc, s) + Encode(enc, t)
  {
    if t == [] {
      assert s + t == s;
    } else {
      var init := t[..|t| - 1];
      assert (s + t)[..|s + t| - 1] == s + init;
      EncodeConcat(enc, s, init);
    }
  }

  ghost predicate Injective<T(!new)>(enc: T -> seq<Octet>) {
    forall c: T, d: T :: enc(c) == enc(d) ==> c == d
  }

  lemma Utf8IsInjective()
    ensures Injective(EncodeScalar)
  {
    forall c: Scalar, d: Scalar | EncodeScalar(c) == EncodeScalar(d) ensures c == d {
      DecodeEncode(c);
      DecodeEncode(d);
    }
  }

  lemma EncodeCons<T>(enc: T -> seq<Octet>, s: seq<T>)
    requires s != []
    ensures Encode(enc, s) == enc(s[0]) + Encode(enc, s[1..])
  {
    assert s == [s[0]] + s[1..];
    EncodeConcat(enc, [s[0]], s[1..]);
    assert [s[0]][..0] == [];
    assert Encode(enc, [s[0]]) == enc(s[0]);
  }

  lemma EncodeNonEmpty<T(!new)>(enc: T -> seq<Octet>, s: seq<T>)
    requires IsEncoding(enc)
    ensures Encode(enc, s) == [] ==> s == []
  {
    if s != [] {
      assert IsSequence(enc(s[|s| - 1]));
    }
  }

  /** No two texts have the same bytes. */
  lemma {:induction false} EncodeInjective<T(!new)>(enc: T -> seq<Octet>, s: seq<T>, t: seq<T>)
    requires IsEncoding(enc) && Injective(enc) && Encode(enc, s) == Encode(enc, t)
    ensures s == t
  {
    if s == [] || t == [] {
      EncodeNonEmpty(enc, s);
      EncodeNonEmpty(enc, t);
    } else {
      EncodeCons(enc, s);
      EncodeCons(enc, t);
      var u, v, w := enc(s[0]), enc(t[0]), Encode(enc, s);
      assert IsSequence(u) && IsSequence(v);
      assert w[0] == u[0] == v[0];
      assert u == w[..|u|] && v == w[..|v|];
      assert Encode(enc, s[1..]) == w[|u|..] == Encode(enc, t[1..]);
      EncodeInjective(enc, s[1..], t[1..]);
    }
  }

  /** Where character `k` starts. */
  function Offset<T>(enc: T -> seq<Octet>, s: seq<T>, k: nat): nat
    requires k <= |s|
  {
    |Encode(enc, s[..k])|
  }

  lemma OffsetSplits<T>(enc: T -> seq<Octet>, s: seq<T>, k: nat)
    requires k <= |s|
    ensures Offset(enc, s, k) <= |Encode(enc, s)|
    ensures Encode(enc, s)[..Offset(enc, s, k)] == Encode(enc, s[..k])
    ensures Encode(enc, s)[Offset(enc, s, k)..] == Encode(enc, s[k..])
  {
    assert s == s[..k] + s[k..];
    EncodeConcat(enc, s[..k], s[k..]);
  }

  /** At the start of a character there is its sequence, and no continuation byte follows it. */
  lemma CharacterAt<T(!new)>(enc: T -> seq<Octet>, s: seq<T>, k: nat)
    requires IsEncoding(enc) && k < |s|
    ensures var b, p, q := Encode(enc, s), Offset(enc, s, k), Offset(enc, s, k + 1);
            p < q <= |b| && b[p..q] == enc(s[k]) && IsSequence(b[p..q]) && (q < |b| ==> !IsContinuation(b[q]))
  {
    assert s[..k + 1][..k] == s[..k] && IsSequence(enc(s[k]));
    OffsetSplits(enc, s, k);
    OffsetSplits(enc, s, k + 1);
    EncodeCons(enc, s[k..]);
    assert s[k..][1..] == s[k + 1..];
    if k + 1 < |s| {
      EncodeCons(enc, s[k + 1..]);
      assert IsSequence(enc(s[k + 1]));
    }
  }

  /** Past one character: its first byte and the continuation bytes behind it. */
  method NextCharacter<T(!new)>(s: seq<Octet>, i0: nat, ghost enc: T -> seq<Octet>, ghost cs: seq<T>, ghost k: nat) returns (i: nat)
    requires IsEncoding(enc) && s == Encode(enc, cs) && k < |cs| && i0 == Offset(enc, cs, k)
    ensures i == Offset(enc, cs, k + 1)
  {
    CharacterAt(enc, cs, k);
    ghost var q := Offset(enc, cs, k + 1);
    assert forall j :: i0 < j < q ==> s[j] == s[i0..q][j - i0];
    i := i0 + 1;
    while i < |s| && IsContinuation(s[i])
      invariant i0 < i <= q
    {
      i := i + 1;
    }
  }

  /** A codepoint index, kept within a text. */
  function Clamp(cp: int, n: nat): (r: nat)
    ensures r <= n
  {
    if cp < 0 then 0 else if cp > n then n else cp
  }

  lemma OffsetEnds<T(!new)>(enc: T -> seq<Octet>, cs: seq<T>, k: nat)
    requires IsEncoding(enc) && k <= |cs|
    ensures Offset(enc, cs, 0) == 0 && Offset(enc, cs, |cs|) == |Encode(enc, cs)|
    ensures Offset(enc, cs, k) < |Encode(enc, cs)| <==> k < |cs|
  {
    assert cs[..0] == [] && cs[..|cs|] == cs;
    OffsetSplits(enc, cs, k);
    if k < |cs| {
      CharacterAt(enc, cs, k);
    }
  }

  /** byte_of_cp: the byte offset of a codepoint. */
  method ByteOfCp<T(!new)>(s: seq<Octet>, cp: int, ghost enc: T -> seq<Octet>, ghost cs: seq<T>) returns (i: nat)
    requires IsEncoding(enc) && s == Encode(enc, cs)
    ensures i == Offset(enc, cs, Clamp(cp, |cs|)) <= |s|
  {
    OffsetEnds(enc, cs, 0);
    i := 0;
    if cp > 0 {
      var n := 0;
      while i < |s| && n < cp
        invariant 0 <= n <= cp && n <= |cs| && i == Offset(enc, cs, n)
        decreases cp - n
      {
        OffsetEnds(enc, cs, n);
        i := NextCharacter(s, i, enc, cs, n);
        n := n + 1;
      }
      OffsetEnds(enc, cs, n);
      assert n == Clamp(cp, |cs|);
    }
    OffsetSplits(enc, cs, Clamp(cp, |cs|));
  }

  /** How many bytes are not continuation bytes. */
  function Leads(s: seq<Octet>): nat {
    if s == [] then 0 else Leads(s[..|s| - 1]) + if IsContinuation(s[|s| - 1]) then 0 else 1
  }

  lemma {:induction false} LeadsConcat(s: seq<Octet>, t: seq<Octet>)
    ensures Leads(s + t) == Leads(s) + Leads(t)
  {
    if t == [] {
      assert s + t == s;
    } else {
      assert (s + t)[..|s + t| - 1] == s + t[..|t| - 1];
      LeadsConcat(s, t[..|t| - 1]);
    }
  }

  lemma {:induction false} LeadsOfSequence(s: seq<Octet>)
    requires IsSequence(s)
    ensures Leads(s) == 1
    decreases |s|
  {
    LeadsOfTail(s, |s|);
    assert s[..|s|] == s;
  }

  lemma {:induction false} LeadsOfTail(s: seq<Octet>, n: nat)
    requires IsSequence(s) && 0 < n <= |s|
    ensures Leads(s[..n]) == 1
  {
    if n > 1 {
      LeadsOfTail(s, n - 1);
      assert s[..n][..n - 1] == s[..n - 1];
    } else {
      assert s[..1][..0] == [];
    }
  }

  /** The bytes that are not continuation bytes are as many as the characters. */
  lemma {:induction false} LeadsOfEncode<T(!new)>(enc: T -> seq<Octet>, cs: seq<T>)
    requires IsEncoding(enc)
    ensures Leads(Encode(enc, cs)) == |cs|
  {
    if cs != [] {
      LeadsOfEncode(enc, cs[..|cs| - 1]);
      assert IsSequence(enc(cs[|cs| - 1]));
      LeadsOfSequence(enc(cs[|cs| - 1]));
      LeadsConcat(Encode(enc, cs[..|cs| - 1]), enc(cs[|cs| - 1]));
    }
  }

  /** cp_len: the number of codepoints. */
  method CpLen<T(!new)>(s: seq<Octet>, ghost enc: T -> seq<Octet>, ghost cs: seq<T>) returns (n: nat)
    requires IsEncoding(enc) && s == Encode(enc, cs)
    ensures n == |cs|
  {
    n := 0;
    for i := 0 to |s|
      invariant n == Leads(s[..i])
    {
      assert s[..i + 1][..i] == s[..i];
      n := n + if IsContinuation(s[i]) then 0 else 1;
    }
    assert s[..|s|] == s;
    LeadsOfEncode(enc, cs);
  }

  lemma EncodeSlice<T>(enc: T -> seq<Octet>, cs: seq<T>, a: nat, b: nat)
    requires a <= b <= |cs|
    ensures Offset(enc, cs, a) <= Offset(enc, cs, b) <= |Encode(enc, cs)|
    ensures Encode(enc, cs)[Offset(enc, cs, a)..Offset(enc, cs, b)] == Encode(enc, cs[a..b])
  {
    OffsetSplits(enc, cs, b);
    OffsetSplits(enc, cs[..b], a);
    assert cs[..b][..a] == cs[..a] && cs[..b][a..] == cs[a..b];
    var s, p, q := Encode(enc, cs), Offset(enc, cs, a), Offset(enc, cs, b);
    assert s[p..q] == s[..q][p..];
  }

  /** The loops of slice_cp: from character `k`, `n` characters on, or to the end. */
  method SkipCp<T(!new)>(s: seq<Octet>, i0: nat, n: int, ghost enc: T -> seq<Octet>, ghost cs: seq<T>, ghost k: nat) returns (i: nat)
    requires IsEncoding(enc) && s == Encode(enc, cs) && k <= |cs| && i0 == Offset(enc, cs, k)
    ensures i == Offset(enc, cs, k + Clamp(n, |cs| - k))
  {
    i := i0;
    var cp := 0;
    while i < |s| && cp < n
      invariant 0 <= cp && (cp <= n || cp == 0) && k + cp <= |cs| && i == Offset(enc, cs, k + cp)
      decreases n - cp
    {
      OffsetEnds(enc, cs, k + cp);
      i := NextCharacter(s, i, enc, cs, k + cp);
      cp := cp + 1;
    }
    OffsetEnds(enc, cs, k + cp);
    assert cp == Clamp(n, |cs| - k);
  }

  /** slice_cp: the codepoints from `cpFrom` on, at most `cpCount` of them. */
  method SliceCp<T(!new)>(s: seq<Octet>, cpFrom: int, cpCount: int, ghost enc: T -> seq<Octet>, ghost cs: seq<T>) returns (r: seq<Octet>)
    requires IsEncoding(enc) && s == Encode(enc, cs)
    ensures var a := Clamp(cpFrom, |cs|); r == Encode(enc, cs[a..a + Clamp(cpCount, |cs| - a)])
  {
    ghost var a := Clamp(cpFrom, |cs|);
    ghost var b := a + Clamp(cpCount, |cs| - a);
    OffsetEnds(enc, cs, 0);
    if cpCount <= 0 || s == [] {
      assert cs[a..b] == [];
      return [];
    }
    var start := SkipCp(s, 0, cpFrom, enc, cs, 0);
    var i := SkipCp(s, start, cpCount, enc, cs, a);
    EncodeSlice(enc, cs, a, b);
    r := s[start..i];
  }

  function First(s: seq<Octet>): int {
    if s == [] then 0 else s[0]
  }

  /** A character that does not go into a pasted query: C0 controls and DEL. */
  predicate IsControl<T>(enc: T -> seq<Octet>, c: T) {
    First(enc(c)) < 0x20 || First(enc(c)) == 0x7f
  }

  function Kept<T>(enc: T -> seq<Octet>, cs: seq<T>): seq<T> {
    if cs == [] then [] else
      var c := cs[|cs| - 1];
      Kept(enc, cs[..|cs| - 1]) + if IsControl(enc, c) then [] else [c]
  }

  /** The filter on scalar values: the control characters of ASCII go, and everything else stays, in its order. */
  lemma KeptIs(cs: seq<Scalar>, c: Scalar)
    ensures Kept(EncodeScalar, []) == []
    ensures Kept(EncodeScalar, cs + [c]) == Kept(EncodeScalar, cs) + if c < 32 || c == 127 then [] else [c]
  {
    assert (cs + [c])[..|cs|] == cs;
  }

  /** The encoding in numbers: a dollar sign, a cent sign, a euro sign, and a character beyond 16 bits. */
  lemma EncodingExamples()
    ensures EncodeScalar(0x24) == [0x24] && EncodeScalar(0xA2) == [0xC2, 0xA2]
    ensures EncodeScalar(0x20AC) == [0xE2, 0x82, 0xAC] && EncodeScalar(0x10348) == [0xF0, 0x90, 0x8D, 0x88]
  {
  }

  lemma EncodeOne<T>(enc: T -> seq<Octet>, cs: seq<T>, k: nat)
    requires k < |cs|
    ensures Encode(enc, Kept(enc, cs[..k + 1])) == Encode(enc, Kept(enc, cs[..k])) + if IsControl(enc, cs[k]) then [] else enc(cs[k])
  {
    assert cs[..k + 1][..k] == cs[..k];
    var r, c := Kept(enc, cs[..k]), cs[k];
    assert (r + [c])[..|r|] == r;
    assert r + [] == r;
  }

  /** The body of the loop over pasted text: the sequence at `i` is dropped or copied. */
  method FilterOne<T(!new)>(src: seq<Octet>, i0: nat, buf0: seq<Octet>, ghost enc: T -> seq<Octet>, ghost cs: seq<T>, ghost k: nat)
    returns (i: nat, buf: seq<Octet>)
    requires IsEncoding(enc) && src == Encode(enc, cs) && k < |cs| && i0 == Offset(enc, cs, k) < |src|
    ensures i == Offset(enc, cs, k + 1) && buf == buf0 + if IsControl(enc, cs[k]) then [] else enc(cs[k])
  {
    CharacterAt(enc, cs, k);
    i, buf := i0, buf0;
    assert src[i] == src[i..Offset(enc, cs, k + 1)][0];
    var c := src[i];
    if c < 0x20 || c == 0x7f {
      i := i + 1;
    } else {
      var n := LeadLength(c);
      if i + n > |src| {
        n := |src| - i;
      }
      buf := buf + src[i..i + n];
      i := i + n;
    }
  }

  /** The loop over pasted text: it drops the control characters and copies every other sequence whole. */
  method Filter<T(!new)>(src: seq<Octet>, ghost enc: T -> seq<Octet>, ghost cs: seq<T>) returns (buf: seq<Octet>)
    requires IsEncoding(enc) && src == Encode(enc, cs)
    ensures buf == Encode(enc, Kept(enc, cs))
  {
    buf := [];
    var i := 0;
    ghost var k := 0;
    OffsetEnds(enc, cs, 0);
    while i < |src|
      invariant k <= |cs| && i == Offset(enc, cs, k) && (i < |src| <==> k < |cs|)
      invariant buf == Encode(enc, Kept(enc, cs[..k]))
      decreases |cs| - k
    {
      EncodeOne(enc, cs, k);
      i, buf := FilterOne(src, i, buf, enc, cs, k);
      k := k + 1;
      OffsetEnds(enc, cs, k);
    }
    assert cs[..k] == cs;
  }
}
