/** The session records of vtm-tile.cpp: json_escape, parse_field, and the record that write prints. A char is a byte. */
module SessionRecord {
  import opened Wrappers

  /** What json_escape writes for one byte. */
  function EscapeChar(c: char): string {
    if c == '"' then "\\\""
    else if c == '\\' then "\\\\"
    else if c == '\n' then "\\n"
    else if c == '\r' then "\\r"
    else if c == '\t' then "\\t"
    else if c >= ' ' then [c]
    else ""
  }

  function Escaped(s: string): string {
    if s == "" then "" else EscapeChar(s[0]) + Escaped(s[1..])
  }

  /** The escapes: a quote, a backslash, the three control bytes that are written with a letter, and the others, which are not. */
  lemma EscapesAre(c: char)
    ensures Escaped("\"") == "\\\"" && Escaped("\\") == "\\\\" && Escaped("\n") == "\\n" && Escaped("\r") == "\\r" && Escaped("\t") == "\\t"
    ensures c < ' ' && c != '\n' && c != '\r' && c != '\t' ==> Escaped([c]) == ""
    ensures c >= ' ' && c != '"' && c != '\\' ==> Escaped([c]) == [c]
  {
    assert forall x: char :: [x][1..] == [];
  }

  function JsonEscape(s: string): string {
    "\"" + Escaped(s) + "\""
  }

  lemma {:induction false} EscapedConcat(s: string, t: string)
    ensures Escaped(s + t) == Escaped(s) + Escaped(t)
  {
    if s == "" {
      assert s + t == t;
    } else {
      assert (s + t)[1..] == s[1..] + t;
      EscapedConcat(s[1..], t);
    }
  }

  lemma EscapedNext(s: string, i: nat)
    requires i < |s|
    ensures Escaped(s[..i + 1]) == Escaped(s[..i]) + EscapeChar(s[i])
  {
    assert s[..i + 1] == s[..i] + [s[i]];
    EscapedConcat(s[..i], [s[i]]);
    assert Escaped([s[i]]) == EscapeChar(s[i]) + Escaped([s[i]][1..]);
  }

  /** json_escape */
  method Escape(s: string) returns (out: string)
    ensures out == JsonEscape(s)
  {
    out := "\"";
    for i := 0 to |s|
      invariant out == "\"" + Escaped(s[..i])
    {
      EscapedNext(s, i);
      out := out + EscapeChar(s[i]);
    }
    assert s[..|s|] == s;
    out := out + "\"";
  }

  /** The control bytes json_escape leaves out. */
  predicate Dropped(c: char) {
    c < ' ' && c != '\n' && c != '\r' && c != '\t'
  }

  function Kept(s: string): string {
    if s == "" then "" else (if Dropped(s[0]) then "" else [s[0]]) + Kept(s[1..])
  }

  predicate OccursAt(s: string, q: string, k: nat) {
    k + |q| <= |s| && s[k..k + |q|] == q
  }

  /** body.find(q), from `i` on: the first place where `q` occurs. */
  function Find(s: string, q: string, i: nat): (r: Option<nat>)
    requires i <= |s|
    ensures r.Some? ==> i <= r.value && r.value + |q| <= |s|
    decreases |s| - i
  {
    if i + |q| > |s| then None
    else if OccursAt(s, q, i) then Some(i)
    else if i == |s| then None
    else Find(s, q, i + 1)
  }

  /** It is the first place where `q` occurs. */
  lemma {:induction false} FindIsFirst(s: string, q: string, i: nat)
    requires i <= |s|
    ensures Find(s, q, i).Some? ==> OccursAt(s, q, Find(s, q, i).value)
    ensures forall k: nat :: i <= k && (Find(s, q, i).Some? ==> k < Find(s, q, i).value) ==> !OccursAt(s, q, k)
    decreases |s| - i
  {
    if !OccursAt(s, q, i) && i + |q| <= |s| && i < |s| {
      FindIsFirst(s, q, i + 1);
    }
  }

  function Quoted(key: string): string {
    "\"" + key + "\""
  }

  predicate IsBlank(c: char) {
    c == ' ' || c == ':' || c == '\t'
  }

  function SkipBlanks(s: string): string {
    if s != "" && IsBlank(s[0]) then SkipBlanks(s[1..]) else s
  }

  /** A quoted value, from after its opening quote. */
  function Unescaped(s: string): string {
    if s == "" || s[0] == '"' then ""
    else if s[0] == '\\' && |s| > 1 then [UnescapeChar(s[1])] + Unescaped(s[2..])
    else [s[0]] + Unescaped(s[1..])
  }

  function UnescapeChar(c: char): char {
    if c == 'n' then '\n' else if c == 'r' then '\r' else if c == 't' then '\t' else c
  }

  /** Behind a backslash the letters stand for control bytes, and everything else for itself. */
  lemma UnescapesAre(s: string)
    ensures Unescaped("\\n" + s) == "\n" + Unescaped(s) && Unescaped("\\r" + s) == "\r" + Unescaped(s) && Unescaped("\\t" + s) == "\t" + Unescaped(s)
    ensures Unescaped("\\\"" + s) == "\"" + Unescaped(s) && Unescaped("\\\\" + s) == "\\" + Unescaped(s) && Unescaped("\"" + s) == ""
  {
    assert forall c: char, e: char :: ([c, e] + s)[2..] == s;
  }

  predicate EndsRaw(c: char) {
    c == ',' || c == '\n' || c == '\r' || c == '}'
  }

  /** An unquoted value. */
  function Raw(s: string): string {
    if s == "" || EndsRaw(s[0]) then "" else (if s[0] == ' ' || s[0] == '\t' then "" else [s[0]]) + Raw(s[1..])
  }

  /** What is read after the quoted key. */
  function ValueAt(s: string): string {
    var t := SkipBlanks(s);
    if t == "" then "" else if t[0] == '"' then Unescaped(t[1..]) else Raw(t)
  }

  /** Spaces, colons and tabs before a value are passed, and nothing else is. */
  lemma {:induction false} BlanksPassed(b: string, s: string)
    requires (forall i :: 0 <= i < |b| ==> b[i] == ' ' || b[i] == ':' || b[i] == '\t') && s != "" && s[0] != ' ' && s[0] != ':' && s[0] != '\t'
    ensures ValueAt(b + s) == if s[0] == '"' then Unescaped(s[1..]) else Raw(s)
  {
    BlanksSkipped(b, s);
  }

  lemma {:induction false} BlanksSkipped(b: string, s: string)
    requires (forall i :: 0 <= i < |b| ==> b[i] == ' ' || b[i] == ':' || b[i] == '\t') && s != "" && s[0] != ' ' && s[0] != ':' && s[0] != '\t'
    ensures SkipBlanks(b + s) == s
  {
    if b == "" {
      assert b + s == s;
    } else {
      assert (b + s)[1..] == b[1..] + s;
      BlanksSkipped(b[1..], s);
    }
  }

  /** A value without quotes goes on to a comma, a line end or a brace, or to the end of the text. */
  lemma {:induction false} RawUpTo(v: string, s: string)
    requires forall i :: 0 <= i < |v| ==> v[i] != ',' && v[i] != '\n' && v[i] != '\r' && v[i] != '}' && v[i] != ' ' && v[i] != '\t'
    requires s == "" || s[0] == ',' || s[0] == '\n' || s[0] == '\r' || s[0] == '}'
    ensures Raw(v + s) == v
  {
    if v == "" {
      assert v + s == s;
    } else {
      assert (v + s)[1..] == v[1..] + s;
      RawUpTo(v[1..], s);
      assert v == [v[0]] + v[1..];
    }
  }

  function ReadBehind(read: string -> string, body: string, n: nat, found: Option<nat>): string {
    if found.None? || found.value + n > |body| then "" else read(body[found.value + n..])
  }

  /** What is read behind the first place where the quoted key occurs. */
  function ReadFirst(read: string -> string, body: string, key: string): string {
    ReadBehind(read, body, |Quoted(key)|, Find(body, Quoted(key), 0))
  }

  function Parsed(body: string, key: string): string {
    ReadFirst(ValueAt, body, key)
  }

  lemma SkipStep(s: string, i: nat)
    requires i < |s|
    ensures s[i..][0] == s[i] && s[i..][1..] == s[i + 1..] && (i + 1 < |s| ==> s[i..][1] == s[i + 1] && s[i..][2..] == s[i + 2..])
  {
  }

  /** parse_field */
  method ParseField(body: string, key: string) returns (out: string)
    ensures out == Parsed(body, key)
  {
    var qkey := "\"" + key + "\"";
    assert qkey == Quoted(key);
    var found := Find(body, qkey, 0);
    if found.None? {
      return "";
    }
    var pos := found.value + |qkey|;
    ghost var rest := body[pos..];
    while pos < |body| && IsBlank(body[pos])
      invariant pos <= |body| && SkipBlanks(rest) == SkipBlanks(body[pos..])
    {
      SkipStep(body, pos);
      pos := pos + 1;
    }
    if pos >= |body| {
      return "";
    }
    SkipStep(body, pos);
    assert SkipBlanks(rest) == body[pos..];
    if body[pos] == '"' {
      out := ReadQuoted(body, pos + 1);
    } else {
      out := ReadRaw(body, pos);
    }
  }

  lemma QuotedStep(body: string, i: nat, out: string)
    requires i < |body| && body[i] != '"'
    ensures out + Unescaped(body[i..])
         == if body[i] == '\\' && i + 1 < |body| then out + [UnescapeChar(body[i + 1])] + Unescaped(body[i + 2..])
            else out + [body[i]] + Unescaped(body[i + 1..])
  {
    SkipStep(body, i);
  }

  method ReadQuoted(body: string, pos0: nat) returns (out: string)
    requires pos0 <= |body|
    ensures out == Unescaped(body[pos0..])
  {
    var pos := pos0;
    out := "";
    while pos < |body| && body[pos] != '"'
      invariant pos <= |body| && out + Unescaped(body[pos..]) == Unescaped(body[pos0..])
      decreases |body| - pos
    {
      QuotedStep(body, pos, out);
      if body[pos] == '\\' && pos + 1 < |body| {
        out := out + [UnescapeChar(body[pos + 1])];
        pos := pos + 2;
      } else {
        out := out + [body[pos]];
        pos := pos + 1;
      }
    }
    QuotedEnds(body, pos, out);
  }

  lemma QuotedEnds(body: string, i: nat, out: string)
    requires i <= |body| && (i < |body| ==> body[i] == '"')
    ensures out + Unescaped(body[i..]) == out
  {
  }

  lemma RawStep(body: string, i: nat, out: string)
    requires i < |body| && !EndsRaw(body[i])
    ensures out + Raw(body[i..]) == (if body[i] != ' ' && body[i] != '\t' then out + [body[i]] else out) + Raw(body[i + 1..])
  {
    SkipStep(body, i);
  }

  method ReadRaw(body: string, pos0: nat) returns (out: string)
    requires pos0 <= |body|
    ensures out == Raw(body[pos0..])
  {
    var pos := pos0;
    out := "";
    while pos < |body| && !EndsRaw(body[pos])
      invariant pos <= |body| && out + Raw(body[pos..]) == Raw(body[pos0..])
      decreases |body| - pos
    {
      SkipStep(body, pos);
      RawStep(body, pos, out);
      if body[pos] != ' ' && body[pos] != '\t' {
        out := out + [body[pos]];
      }
      pos := pos + 1;
    }
  }

  // A record, and what parse_field finds in it.

  predicate NoQuote(s: string) {
    '"' !in s
  }

  /** The keys of a record. */
  predicate IsName(key: string) {
    key != "" && forall c :: c in key ==> 'a' <= c <= 'z'
  }

  /** What parse_field finds in the text behind a quote that may be the one in front of the key. */
  function BehindQuote(read: string -> string, s: string, key: string): string {
    if key + "\"" <= s then read(s[|key| + 1..]) else ReadFirst(read, s, key)
  }

  lemma FirstChar(s: string, q: string, k: nat)
    ensures OccursAt(s, q, k) && q != "" ==> k < |s| && s[k] == q[0]
  {
    if OccursAt(s, q, k) && q != "" {
      assert s[k] == s[k..k + |q|][0];
    }
  }

  /** Places where nothing occurs can be skipped. */
  lemma {:induction false} FindSkip(s: string, q: string, i: nat, n: nat)
    requires i <= n <= |s| && forall j: nat :: i <= j < n ==> !OccursAt(s, q, j)
    ensures Find(s, q, i) == Find(s, q, n)
    decreases n - i
  {
    if i < n {
      FindSkip(s, q, i + 1, n);
      if i + |q| > |s| {
        assert n + |q| > |s|;
      }
    }
  }

  lemma ShiftedOccurrence(x: string, t: string, q: string, j: nat)
    ensures OccursAt(x + t, q, |x| + j) == OccursAt(t, q, j)
  {
    if j + |q| <= |t| {
      assert (x + t)[|x| + j..|x| + j + |q|] == t[j..j + |q|];
    }
  }

  lemma {:induction false} FindSuffix(x: string, t: string, q: string, i: nat)
    requires i <= |t|
    ensures var r := Find(t, q, i); Find(x + t, q, |x| + i) == if r.None? then None else Some(|x| + r.value)
    decreases |t| - i
  {
    ShiftedOccurrence(x, t, q, i);
    if i < |t| {
      FindSuffix(x, t, q, i + 1);
    }
  }

  /** Text without a quote holds no key. */
  lemma NoKey(read: string -> string, x: string, key: string)
    requires NoQuote(x)
    ensures ReadFirst(read, x, key) == ""
  {
    forall j: nat ensures !OccursAt(x, Quoted(key), j) {
      FirstChar(x, Quoted(key), j);
    }
    FindSkip(x, Quoted(key), 0, |x|);
  }

  lemma AtQuote(t: string, key: string)
    ensures OccursAt("\"" + t, Quoted(key), 0) == (key + "\"" <= t)
  {
    var s, q := "\"" + t, Quoted(key);
    if key + "\"" <= t {
      assert s[0..|q|] == q;
    }
    if OccursAt(s, q, 0) {
      assert t[..|key| + 1] == s[0..|q|][1..] == key + "\"";
    }
  }

  /** Up to its first quote, text holds no key. */
  lemma SkipToQuote(x: string, t: string, q: string)
    requires NoQuote(x) && q != "" && q[0] == '"'
    ensures Find(x + t, q, 0) == Find(x + t, q, |x|)
  {
    forall j: nat | j < |x| ensures !OccursAt(x + t, q, j) {
      FirstChar(x + t, q, j);
    }
    FindSkip(x + t, q, 0, |x|);
  }

  lemma QuoteIsKey(read: string -> string, x: string, t: string, key: string)
    requires NoQuote(x) && key + "\"" <= t
    ensures ReadFirst(read, x + ("\"" + t), key) == read(t[|key| + 1..])
  {
    var u, q := "\"" + t, Quoted(key);
    SkipToQuote(x, u, q);
    FindSuffix(x, u, q, 0);
    AtQuote(t, key);
    assert (x + u)[|x| + |q|..] == t[|key| + 1..];
  }

  /** Text in front that holds nothing makes no difference. */
  lemma ParsedSuffix(read: string -> string, y: string, t: string, key: string)
    requires Find(y + t, Quoted(key), 0) == Find(y + t, Quoted(key), |y|)
    ensures ReadFirst(read, y + t, key) == ReadFirst(read, t, key)
  {
    FindSuffix(y, t, Quoted(key), 0);
    ReadSuffix(read, y, t, |Quoted(key)|, Find(t, Quoted(key), 0));
  }

  lemma ReadSuffix(read: string -> string, y: string, t: string, n: nat, r: Option<nat>)
    ensures ReadBehind(read, y + t, n, if r.None? then None else Some(|y| + r.value)) == ReadBehind(read, t, n, r)
  {
    if r.Some? && r.value + n <= |t| {
      assert (y + t)[|y| + (r.value + n)..] == t[r.value + n..];
    }
  }

  lemma QuoteIsNotKey(read: string -> string, x: string, t: string, key: string)
    requires NoQuote(x) && !(key + "\"" <= t)
    ensures ReadFirst(read, x + ("\"" + t), key) == ReadFirst(read, t, key)
  {
    AtQuote(t, key);
    FindSkip("\"" + t, Quoted(key), 0, 1);
    ParsedSuffix(read, "\"", t, key);
    SkipToQuote(x, "\"" + t, Quoted(key));
    ParsedSuffix(read, x, "\"" + t, key);
  }

  /** parse_field passes text up to the next quote. */
  lemma PassToQuote(read: string -> string, x: string, t: string, key: string)
    requires NoQuote(x)
    ensures ReadFirst(read, x + "\"" + t, key) == BehindQuote(read, t, key)
  {
    assert x + "\"" + t == x + ("\"" + t);
    if key + "\"" <= t {
      QuoteIsKey(read, x, t, key);
    } else {
      QuoteIsNotKey(read, x, t, key);
    }
  }

  /** Text, cut at its quotes. */
  function Split(s: string): (r: seq<string>)
    ensures |r| > 0 && forall i :: 0 <= i < |r| ==> NoQuote(r[i])
  {
    if s == "" then [""]
    else if s[0] == '"' then [""] + Split(s[1..])
    else var r := Split(s[1..]); [[s[0]] + r[0]] + r[1..]
  }

  function Join(segs: seq<string>): string
    requires |segs| > 0
  {
    if |segs| == 1 then segs[0] else segs[0] + "\"" + Join(segs[1..])
  }

  lemma Assoc4<T>(a: seq<T>, b: seq<T>, c: seq<T>, d: seq<T>)
    ensures a + b + c + d == a + (b + c + d)
  {
  }

  lemma JoinLonger(p: string, r: seq<string>)
    requires r != []
    ensures Join([p + r[0]] + r[1..]) == p + Join(r)
  {
    var u := [p + r[0]] + r[1..];
    assert u[0] == p + r[0] && |u| == |r| && u[1..] == r[1..];
    if |r| > 1 {
      Assoc4(p, r[0], "\"", Join(r[1..]));
    }
  }

  lemma {:induction false} JoinSplit(s: string)
    ensures Join(Split(s)) == s
  {
    if s != "" {
      JoinSplit(s[1..]);
      var r := Split(s[1..]);
      if s[0] == '"' {
        assert ([""] + r)[1..] == r;
        assert s == "" + "\"" + s[1..];
      } else {
        JoinLonger([s[0]], r);
        assert s == [s[0]] + s[1..];
      }
    }
  }

  lemma {:induction false} SplitPrefix(p: string, s: string)
    requires NoQuote(p)
    ensures Split(p + s) == [p + Split(s)[0]] + Split(s)[1..]
  {
    var r := Split(s);
    if p == "" {
      assert p + s == s && "" + r[0] == r[0] && [r[0]] + r[1..] == r;
    } else {
      assert (p + s)[1..] == p[1..] + s;
      SplitPrefix(p[1..], s);
      assert [p[0]] + (p[1..] + Split(s)[0]) == p + Split(s)[0];
    }
  }

  lemma SplitQuote(p: string, s: string)
    requires NoQuote(p)
    ensures Split(p + "\"" + s) == [p] + Split(s)
  {
    assert ("\"" + s)[1..] == s;
    assert p + "\"" + s == p + ("\"" + s);
    SplitPrefix(p, "\"" + s);
    var r := Split("\"" + s);
    assert r == [""] + Split(s) && r[0] == "" && r[1..] == Split(s);
    assert p + "" == p;
  }

  predicate EndsWith(s: string, t: string) {
    |t| <= |s| && s[|s| - |t|..] == t
  }

  /** The value is taken for a key: it is the key, or it ends in a quote and the key. */
  predicate Clashes(v: string, key: string) {
    Kept(v) == key || EndsWith(Kept(v), "\"" + key)
  }

  lemma {:induction false} KeptQuote(v: string)
    ensures '"' in Kept(v) <==> '"' in v
  {
    if v != "" {
      KeptQuote(v[1..]);
      assert v == [v[0]] + v[1..];
    }
  }

  /** Text that is not a name, in front of other text, is not one either. */
  lemma NotName(p: string, s: string, key: string)
    requires IsName(key) && p != "" && !('a' <= p[0] <= 'z')
    ensures p + s != key
  {
    assert (p + s)[0] == p[0] && key[0] in key;
  }

  /** One more character in front of a value. */
  lemma SameCons<T>(a: T, s: seq<T>, b: T, t: seq<T>)
    ensures [a] + s == [b] + t <==> a == b && s == t
  {
    assert ([a] + s)[1..] == s && ([b] + t)[1..] == t;
    assert ([a] + s)[0] == a && ([b] + t)[0] == b;
  }

  lemma ClashesCons(c: char, k: string, key: string)
    requires IsName(key)
    ensures EndsWith([c] + k, "\"" + key) == (EndsWith(k, "\"" + key) || (c == '"' && k == key))
  {
    var s, t := [c] + k, "\"" + key;
    if |t| <= |k| {
      assert s[|s| - |t|..] == k[|k| - |t|..];
    } else if |t| == |s| {
      assert s[0..] == s;
      SameCons(c, k, '"', key);
    }
  }

  predicate Letters(t: string) {
    forall i :: 0 <= i < |t| ==> 'a' <= t[i] <= 'z'
  }

  lemma EscapeShape(c: char)
    ensures NoQuote(EscapeChar(c)) || c == '"'
    ensures Dropped(c) <==> EscapeChar(c) == ""
    ensures 'a' <= c <= 'z' ==> EscapeChar(c) == [c]
    ensures !Dropped(c) && !('a' <= c <= 'z') ==> !('a' <= EscapeChar(c)[0] <= 'z')
  {
  }

  lemma LettersStep(c: char, p: string, e: string, k: string, t: string)
    requires Letters(t) && p != "" && ('a' <= c <= 'z' ==> p == [c]) && ('a' <= p[0] <= 'z' ==> 'a' <= c <= 'z')
    requires t != "" ==> (e == t[1..] <==> k == t[1..])
    ensures p + e == t <==> [c] + k == t
  {
    assert (p + e)[0] == p[0] && ([c] + k)[0] == c && ([c] + k)[1..] == k;
    if t != "" && 'a' <= c <= 'z' {
      assert t == [t[0]] + t[1..] && (p + e)[1..] == e;
    }
  }

  /** Escaping and dropping yield letters from the same texts. */
  lemma {:induction false} EscapedLetters(x: string, t: string)
    requires Letters(t)
    ensures Escaped(x) == t <==> Kept(x) == t
  {
    if x != "" {
      EscapeShape(x[0]);
      if Dropped(x[0]) {
        EscapedLetters(x[1..], t);
      } else {
        if t != "" {
          EscapedLetters(x[1..], t[1..]);
        }
        LettersStep(x[0], EscapeChar(x[0]), Escaped(x[1..]), Kept(x[1..]), t);
      }
    }
  }

  predicate Slashed(seg: string) {
    seg != "" && seg[|seg| - 1] == '\\'
  }

  /** An escaped value, cut at its quotes: every piece but the last ends in a backslash, and the last one is the key
      just when the value clashes with it. */
  ghost predicate SegsOf(segs: seq<string>, v: string, key: string)
    requires |segs| > 0
  {
    && (forall i :: 0 <= i < |segs| - 1 ==> Slashed(segs[i]))
    && (segs[|segs| - 1] == key <==> Clashes(v, key))
    && (|segs| == 1 <==> '"' !in v)
  }

  /** A quote in front of a value: one more piece, and no other clash. */
  lemma SegsQuote(v: string, w: string, key: string, r: seq<string>)
    requires IsName(key) && Kept(v) == ['"'] + Kept(w) && '"' in v && |r| > 0 && SegsOf(r, w, key)
    ensures SegsOf(["\\"] + r, v, key)
  {
    ClashesCons('"', Kept(w), key);
    NotName(['"'], Kept(w), key);
    var s := ["\\"] + r;
    assert s[|s| - 1] == r[|r| - 1];
  }

  /** Any other character in front of a value that has a quote: a longer first piece. */
  lemma SegsLonger(v: string, w: string, key: string, c: char, p: string, r: seq<string>)
    requires IsName(key) && Kept(v) == (if Dropped(c) then "" else [c]) + Kept(w) && c != '"' && '"' in v && '"' in w
    requires |r| > 0 && SegsOf(r, w, key)
    ensures SegsOf([p + r[0]] + r[1..], v, key)
  {
    SameClash(v, w, key, c);
    LongerSegs(r, p);
  }

  lemma LongerSegs(r: seq<string>, p: string)
    requires |r| > 1 && Slashed(r[0])
    ensures var s := [p + r[0]] + r[1..];
      |s| == |r| && s[|s| - 1] == r[|r| - 1] && Slashed(s[0]) && forall i :: 0 < i < |s| ==> s[i] == r[i]
  {
  }

  /** A character that is not a quote, in front of a value with a quote, makes no difference to what it clashes with. */
  lemma SameClash(v: string, w: string, key: string, c: char)
    requires IsName(key) && Kept(v) == (if Dropped(c) then "" else [c]) + Kept(w) && c != '"' && '"' in v && '"' in w
    ensures Clashes(v, key) == Clashes(w, key)
  {
    KeptQuote(w);
    KeptQuote(v);
    assert NoQuote(key);
    if !Dropped(c) {
      ClashesCons(c, Kept(w), key);
    } else {
      assert Kept(v) == Kept(w);
    }
  }

  /** A value without a quote is one piece. */
  lemma SegsOne(v: string, key: string, s: seq<string>)
    requires IsName(key) && '"' !in v && s == [Escaped(v)]
    ensures SegsOf(s, v, key)
  {
    KeptQuote(v);
    forall i | 0 <= i < |key| ensures 'a' <= key[i] <= 'z' {
      assert key[i] in key;
    }
    EscapedLetters(v, key);
    NoQuoteInEnd(Kept(v), "\"" + key);
  }

  lemma NoQuoteInEnd(s: string, t: string)
    ensures NoQuote(s) && '"' in t ==> !EndsWith(s, t)
  {
    if EndsWith(s, t) && '"' in t {
      var i :| 0 <= i < |t| && t[i] == '"';
      assert s[|s| - |t| + i] == s[|s| - |t|..][i] == '"';
    }
  }

  lemma {:induction false} EscapedSegs(v: string, key: string)
    requires IsName(key)
    ensures SegsOf(Split(Escaped(v)), v, key)
  {
    if v == "" {
      SegsOne(v, key, [""]);
    } else {
      var c, w := v[0], v[1..];
      var e := Escaped(w);
      assert v == [c] + w;
      EscapedSegs(w, key);
      EscapeShape(c);
      if c == '"' {
        assert Escaped(v) == "\\" + "\"" + e;
        SplitQuote("\\", e);
        SegsQuote(v, w, key, Split(e));
      } else {
        SplitPrefix(EscapeChar(c), e);
        if '"' in w {
          SegsLonger(v, w, key, c, EscapeChar(c), Split(e));
        } else {
          JoinSplit(Escaped(v));
          SegsOne(v, key, Split(Escaped(v)));
        }
      }
    }
  }

  lemma KeyOrNot(x: string, z: string, key: string)
    requires NoQuote(x) && IsName(key)
    ensures key + "\"" <= x + "\"" + z <==> x == key
  {
    var s, q := x + "\"" + z, key + "\"";
    assert s[|x|] == '"' && q[|key|] == '"';
    assert |x| < |key| ==> key[|x|] in key && q[|x|] != '"';
    assert |key| < |x| ==> s[|key|] == x[|key|] && x[|key|] in x && s[|key|] != '"';
    if q <= s {
      assert q[|key|] == s[|key|];
      assert x == s[..|x|] && key == q[..|key|];
    }
    if x == key {
      assert q == s[..|q|];
    }
  }

  lemma DropBoth<T>(x: seq<T>, y: seq<T>, z: seq<T>, n: nat)
    requires n == |x| + |y|
    ensures (x + y + z)[n..] == z
  {
  }

  /** parse_field passes the pieces of a value that are not the key. */
  lemma {:induction false} PassSegs(read: string -> string, segs: seq<string>, z: string, key: string)
    requires |segs| > 0 && IsName(key) && forall i :: 0 <= i < |segs| ==> NoQuote(segs[i])
    requires forall i :: 0 <= i < |segs| - 1 ==> segs[i] != key
    ensures BehindQuote(read, Join(segs) + "\"" + z, key) == if segs[|segs| - 1] == key then read(z) else BehindQuote(read, z, key)
  {
    var x := segs[0];
    if |segs| == 1 {
      KeyOrNot(x, z, key);
      PassToQuote(read, x, z, key);
      DropBoth(x, "\"", z, |x| + 1);
    } else {
      var t := Join(segs[1..]) + "\"" + z;
      assert Join(segs) + "\"" + z == x + "\"" + t;
      KeyOrNot(x, t, key);
      PassToQuote(read, x, t, key);
      PassSegs(read, segs[1..], z, key);
    }
  }

  lemma Regroup5<T>(a: seq<T>, b: seq<T>, c: seq<T>, d: seq<T>, e: seq<T>)
    ensures a + ((b + c + d) + e) == a + b + (c + d + e)
  {
  }

  /** What parse_field finds in text without a quote, an escaped value, and more text. */
  lemma PassEscaped(read: string -> string, x: string, v: string, z: string, key: string)
    requires NoQuote(x) && IsName(key)
    ensures ReadFirst(read, x + (JsonEscape(v) + z), key) == if Clashes(v, key) then read(z) else BehindQuote(read, z, key)
  {
    var segs := Split(Escaped(v));
    EscapedSegs(v, key);
    JoinSplit(Escaped(v));
    SlashedIsNoName(segs, key);
    Regroup5(x, "\"", Escaped(v), "\"", z);
    PassToQuote(read, x, Join(segs) + "\"" + z, key);
    PassSegs(read, segs, z, key);
  }

  lemma FoundIsRead(s: string, key: string)
    ensures (exists k: nat :: OccursAt(s, Quoted(key), k)) <==> ReadFirst((rest: string) => "found", s, key) != ""
  {
    FindIsFirst(s, Quoted(key), 0);
  }

  /** An escaped value holds the quoted key just when the value clashes with the key. */
  lemma EscapedHoldsKey(v: string, key: string)
    requires IsName(key)
    ensures (exists k: nat :: OccursAt(JsonEscape(v), Quoted(key), k)) <==> Clashes(v, key)
  {
    var read := (rest: string) => "found";
    PassEscaped(read, "", v, "", key);
    assert "" + (JsonEscape(v) + "") == JsonEscape(v);
    NoKey(read, "", key);
    FoundIsRead(JsonEscape(v), key);
  }

  lemma SlashedIsNoName(segs: seq<string>, key: string)
    requires IsName(key) && forall i :: 0 <= i < |segs| - 1 ==> Slashed(segs[i])
    ensures forall i :: 0 <= i < |segs| - 1 ==> segs[i] != key
  {
    forall i | 0 <= i < |segs| - 1 ensures segs[i] != key {
      assert segs[i][|segs[i]| - 1] in segs[i];
    }
  }

  // The round trip of a value.

  lemma {:induction false} UnescapedEscaped(v: string, z: string)
    ensures Unescaped(Escaped(v) + "\"" + z) == Kept(v)
  {
    if v == "" {
      assert Escaped(v) + "\"" + z == "\"" + z;
    } else {
      UnescapedEscaped(v[1..], z);
      UnescapeStep(v[0], Escaped(v[1..]) + "\"" + z);
      assert Escaped(v) + "\"" + z == EscapeChar(v[0]) + (Escaped(v[1..]) + "\"" + z);
    }
  }

  lemma UnescapeStep(c: char, s: string)
    ensures Unescaped(EscapeChar(c) + s) == (if Dropped(c) then "" else [c]) + Unescaped(s)
  {
    var t := EscapeChar(c) + s;
    if Dropped(c) {
      assert t == s;
    } else if |EscapeChar(c)| == 2 {
      assert t[2..] == s && t[0] == '\\' && t[1] == EscapeChar(c)[1];
    } else {
      assert t[1..] == s && t[0] == c;
    }
  }

  lemma SkipSeparator(w: string)
    requires w != "" && !IsBlank(w[0])
    ensures SkipBlanks(": " + w) == w
  {
    assert (": " + w)[1..] == " " + w && (" " + w)[1..] == w;
    assert SkipBlanks(w) == w;
  }

  lemma ValueOfString(v: string, z: string)
    ensures ValueAt(": " + (JsonEscape(v) + z)) == Kept(v)
  {
    var s := ": " + (JsonEscape(v) + z);
    SkipSeparator(JsonEscape(v) + z);
    assert (JsonEscape(v) + z)[1..] == Escaped(v) + "\"" + z;
    UnescapedEscaped(v, z);
  }

  predicate Digits(d: string) {
    forall i :: 0 <= i < |d| ==> '0' <= d[i] <= '9'
  }

  lemma {:induction false} RawDigits(d: string, z: string)
    requires Digits(d) && z != "" && EndsRaw(z[0])
    ensures Raw(d + z) == d
  {
    if d == "" {
      assert d + z == z;
    } else {
      assert (d + z)[1..] == d[1..] + z && d == [d[0]] + d[1..];
      RawDigits(d[1..], z);
    }
  }

  lemma ValueOfDigits(d: string, z: string)
    requires d != "" && Digits(d) && z != "" && EndsRaw(z[0])
    ensures ValueAt(": " + (d + z)) == d
  {
    var s := ": " + (d + z);
    assert (d + z)[0] == d[0];
    SkipSeparator(d + z);
    RawDigits(d, z);
  }

  // Records.

  datatype Value = Str(s: string) | Num(digits: string)

  datatype Field = Field(name: string, value: Value) {
    predicate Ok() {
      IsName(name) && (value.Num? ==> value.digits != "" && Digits(value.digits))
    }
  }

  function Print(v: Value): string {
    match v case Str(s) => JsonEscape(s) case Num(digits) => digits
  }

  /** What the value comes back as. */
  function Returned(v: Value): string {
    match v case Str(s) => Kept(s) case Num(digits) => digits
  }

  function Separator(last: bool): string {
    if last then "\n" else ",\n"
  }

  /** One line of a record. */
  function Line(f: Field, last: bool): string {
    "  " + "\"" + f.name + "\"" + ": " + Print(f.value) + Separator(last)
  }

  function Lines(fields: seq<Field>): string {
    if fields == [] then "}\n" else Line(fields[0], |fields| == 1) + Lines(fields[1..])
  }

  /** The text of a record. */
  function Body(fields: seq<Field>): string {
    "{\n" + Lines(fields)
  }

  /** What parse_field yields for a key: its value, unless a value before it is taken for the key. */
  function Lookup(fields: seq<Field>, key: string): string {
    if fields == [] then ""
    else if fields[0].name == key then Returned(fields[0].value)
    else if fields[0].value.Str? && Clashes(fields[0].value.s, key) then ""
    else Lookup(fields[1..], key)
  }

  lemma NotKeyStart(y: string, key: string)
    requires IsName(key) && (y == "" || !('a' <= y[0] <= 'z'))
    ensures !(key + "\"" <= y)
  {
    assert (key + "\"")[0] == key[0] && key[0] in key;
  }

  /** The rest of a record behind a value: text without a key up to the next line. */
  lemma BehindValue(read: string -> string, y: string, key: string)
    requires IsName(key) && y != "" && !('a' <= y[0] <= 'z')
    ensures BehindQuote(read, y, key) == ReadFirst(read, y, key)
  {
    NotKeyStart(y, key);
  }

  lemma PassString(read: string -> string, v: string, z: string, key: string)
    requires IsName(key) && z != "" && !('a' <= z[0] <= 'z')
    ensures ReadFirst(read, ": " + (JsonEscape(v) + z), key) == if Clashes(v, key) then read(z) else ReadFirst(read, z, key)
  {
    PassEscaped(read, ": ", v, z, key);
    BehindValue(read, z, key);
  }

  lemma PassName(read: string -> string, x: string, name: string, u: string, key: string)
    requires NoQuote(x) && IsName(name) && IsName(key) && u != "" && !('a' <= u[0] <= 'z')
    ensures ReadFirst(read, x + "\"" + (name + "\"" + u), key) == if name == key then read(u) else ReadFirst(read, u, key)
  {
    var t := name + "\"" + u;
    PassToQuote(read, x, t, key);
    assert NoQuote(name);
    KeyOrNot(name, u, key);
    PassToQuote(read, name, u, key);
    BehindValue(read, u, key);
    assert t[|name| + 1..] == u;
  }

  /** Text without a quote in front makes no difference. */
  lemma PassPlain(read: string -> string, x: string, z: string, key: string)
    requires NoQuote(x)
    ensures ReadFirst(read, x + z, key) == ReadFirst(read, z, key)
  {
    SkipToQuote(x, z, Quoted(key));
    ParsedSuffix(read, x, z, key);
  }

  lemma DigitsNoQuote(d: string)
    requires Digits(d)
    ensures NoQuote(": " + d)
  {
  }

  lemma PassText(v: string, z: string, key: string)
    requires IsName(key) && z != "" && EndsRaw(z[0])
    ensures ValueAt(": " + (JsonEscape(v) + z)) == Kept(v)
    ensures ReadFirst(ValueAt, ": " + (JsonEscape(v) + z), key) == if Clashes(v, key) then "" else ReadFirst(ValueAt, z, key)
  {
    ValueOfString(v, z);
    NoValue(z);
    PassString(ValueAt, v, z, key);
  }

  lemma NoValue(z: string)
    requires z != "" && EndsRaw(z[0])
    ensures ValueAt(z) == ""
  {
  }

  lemma PassNumber(d: string, z: string, key: string)
    requires IsName(key) && d != "" && Digits(d) && z != "" && EndsRaw(z[0])
    ensures ValueAt(": " + (d + z)) == d
    ensures ReadFirst(ValueAt, ": " + (d + z), key) == ReadFirst(ValueAt, z, key)
  {
    ValueOfDigits(d, z);
    DigitsNoQuote(d);
    assert ": " + (d + z) == (": " + d) + z;
    PassPlain(ValueAt, ": " + d, z, key);
  }

  lemma PassValue(v: Value, z: string, key: string)
    requires IsName(key) && (v.Num? ==> v.digits != "" && Digits(v.digits)) && z != "" && EndsRaw(z[0])
    ensures ValueAt(": " + (Print(v) + z)) == Returned(v)
    ensures ReadFirst(ValueAt, ": " + (Print(v) + z), key) == if v.Str? && Clashes(v.s, key) then "" else ReadFirst(ValueAt, z, key)
  {
    match v
    case Str(s) => PassText(s, z, key);
    case Num(d) => PassNumber(d, z, key);
  }

  /** parse_field at one line of a record, `z` being what comes behind the value. */
  lemma PassField(f: Field, z: string, key: string)
    requires IsName(key) && f.Ok() && z != "" && EndsRaw(z[0])
    ensures ReadFirst(ValueAt, "  " + "\"" + (f.name + "\"" + (": " + (Print(f.value) + z))), key)
         == if f.name == key then Returned(f.value)
            else if f.value.Str? && Clashes(f.value.s, key) then ""
            else ReadFirst(ValueAt, z, key)
  {
    var u := ": " + (Print(f.value) + z);
    PassName(ValueAt, "  ", f.name, u, key);
    PassValue(f.value, z, key);
  }

  lemma LineIs(f: Field, last: bool, z: string)
    ensures Line(f, last) + z == "  " + "\"" + (f.name + "\"" + (": " + (Print(f.value) + (Separator(last) + z))))
  {
    Regroup("  ", "\"", f.name, "\"", ": ", Print(f.value), Separator(last), z);
  }

  lemma Regroup(a: string, b: string, c: string, d: string, e: string, f: string, g: string, h: string)
    ensures (a + b + c + d + e + f + g) + h == a + b + (c + d + (e + (f + (g + h))))
  {
  }

  lemma {:induction false} LookupLines(fields: seq<Field>, key: string)
    requires IsName(key) && forall f :: f in fields ==> f.Ok()
    ensures ReadFirst(ValueAt, Lines(fields), key) == Lookup(fields, key)
  {
    if fields == [] {
      NoKey(ValueAt, "}\n", key);
    } else {
      var sep, rest := Separator(|fields| == 1), Lines(fields[1..]);
      LineIs(fields[0], |fields| == 1, rest);
      PassField(fields[0], sep + rest, key);
      PassPlain(ValueAt, sep, rest, key);
      LookupLines(fields[1..], key);
    }
  }

  /** parse_field on a whole record. */
  lemma ParsedBody(fields: seq<Field>, key: string)
    requires IsName(key) && forall f :: f in fields ==> f.Ok()
    ensures Parsed(Body(fields), key) == Lookup(fields, key)
  {
    PassPlain(ValueAt, "{\n", Lines(fields), key);
    LookupLines(fields, key);
  }

  /** A value before field `i` is taken for its key. */
  predicate Hidden(fields: seq<Field>, i: nat)
    requires i < |fields|
  {
    exists j :: 0 <= j < i && HidesKey(fields[j], fields[i].name)
  }

  predicate HidesKey(f: Field, key: string) {
    f.value.Str? && Clashes(f.value.s, key)
  }

  lemma {:induction false} LookupAt(fields: seq<Field>, i: nat)
    requires i < |fields| && forall j :: 0 <= j < i ==> fields[j].name != fields[i].name
    ensures Lookup(fields, fields[i].name) == if Hidden(fields, i) then "" else Returned(fields[i].value)
  {
    if i > 0 {
      var rest := fields[1..];
      if HidesKey(fields[0], fields[i].name) {
      } else {
        forall j | 0 <= j < i - 1 ensures rest[j] == fields[j + 1] {
        }
        assert Hidden(fields, i) <==> Hidden(rest, i - 1) by {
          if Hidden(fields, i) {
            var j :| 0 <= j < i && HidesKey(fields[j], fields[i].name);
            assert HidesKey(rest[j - 1], rest[i - 1].name);
          }
          if Hidden(rest, i - 1) {
            var j :| 0 <= j < i - 1 && HidesKey(rest[j], rest[i - 1].name);
            assert HidesKey(fields[j + 1], fields[i].name);
          }
        }
        LookupAt(rest, i - 1);
      }
    }
  }

  /** A field of a record comes back as it went in, without its control bytes, just when no value before it is taken
      for its key or it would come back empty anyway. */
  lemma FieldRoundTrip(fields: seq<Field>, i: nat)
    requires i < |fields| && (forall f :: f in fields ==> f.Ok()) && forall j :: 0 <= j < i ==> fields[j].name != fields[i].name
    ensures Parsed(Body(fields), fields[i].name) == Returned(fields[i].value)
       <==> !Hidden(fields, i) || Returned(fields[i].value) == ""
  {
    assert fields[i] in fields;
    ParsedBody(fields, fields[i].name);
    LookupAt(fields, i);
  }

  /** The fields of a session. */
  function SessionFields(pipe: string, pid: string, user: string, started: string, cwd: string, params: string): seq<Field> {
    [Field("pipe", Str(pipe)), Field("pid", Num(pid)), Field("user", Str(user)),
     Field("started", Num(started)), Field("cwd", Str(cwd)), Field("params", Str(params))]
  }

  lemma LinesCons(f: Field, rest: seq<Field>)
    ensures Lines([f] + rest) == Line(f, rest == []) + Lines(rest)
  {
    assert ([f] + rest)[1..] == rest;
  }

  lemma BodyIs(f: seq<Field>)
    requires |f| == 6
    ensures Body(f) == "{\n" + Line(f[0], false) + Line(f[1], false) + Line(f[2], false) + Line(f[3], false) + Line(f[4], false) + Line(f[5], true) + "}\n"
  {
    LinesCons(f[5], []);
    assert [f[5]] + [] == f[5..] && [f[4]] + f[5..] == f[4..] && [f[3]] + f[4..] == f[3..];
    assert [f[2]] + f[3..] == f[2..] && [f[1]] + f[2..] == f[1..] && [f[0]] + f[1..] == f;
    LinesCons(f[4], f[5..]);
    LinesCons(f[3], f[4..]);
    LinesCons(f[2], f[3..]);
    LinesCons(f[1], f[2..]);
    LinesCons(f[0], f[1..]);
    Regroup8("{\n", Line(f[0], false), Line(f[1], false), Line(f[2], false), Line(f[3], false), Line(f[4], false), Line(f[5], true), "}\n");
  }

  lemma Regroup8(a: string, b: string, c: string, d: string, e: string, f: string, g: string, h: string)
    ensures a + (b + (c + (d + (e + (f + (g + h)))))) == a + b + c + d + e + f + g + h
  {
  }

  /** One of the lines `write` appends. */
  method AppendLine(body: string, name: string, value: string, end: string, ghost f: Field, ghost last: bool) returns (r: string)
    requires f.name == name && Print(f.value) == value && end == Separator(last)
    ensures r == body + Line(f, last)
  {
    r := body + ("  " + "\"" + name + "\"" + ": " + value + end);
  }

  /** Whether field `i` is hidden depends on the strings before it. */
  lemma HiddenIs(f: seq<Field>, i: nat, key: string)
    requires |f| == 6 && i < 6 && f[i].name == key && f[0].value.Str? && f[1].value.Num? && f[2].value.Str? && f[3].value.Num? && f[4].value.Str?
    ensures Hidden(f, i) <==>
      (0 < i && Clashes(f[0].value.s, key)) || (2 < i && Clashes(f[2].value.s, key)) || (4 < i && Clashes(f[4].value.s, key))
  {
    if Hidden(f, i) {
      HiddenBy(f, i, key);
    }
    if 0 < i && Clashes(f[0].value.s, key) {
      assert HidesKey(f[0], key);
    }
    if 2 < i && Clashes(f[2].value.s, key) {
      assert HidesKey(f[2], key);
    }
    if 4 < i && Clashes(f[4].value.s, key) {
      assert HidesKey(f[4], key);
    }
  }

  lemma HiddenBy(f: seq<Field>, i: nat, key: string)
    requires |f| == 6 && i < 6 && f[i].name == key && f[0].value.Str? && f[1].value.Num? && f[2].value.Str? && f[3].value.Num? && f[4].value.Str?
    requires Hidden(f, i)
    ensures (0 < i && Clashes(f[0].value.s, key)) || (2 < i && Clashes(f[2].value.s, key)) || (4 < i && Clashes(f[4].value.s, key))
  {
    var j :| 0 <= j < i && HidesKey(f[j], key);
    assert j == 0 || j == 2 || j == 4;
  }

  lemma FieldOf(pipe: string, pid: string, user: string, started: string, cwd: string, params: string, i: nat, key: string)
    requires pid != "" && Digits(pid) && started != "" && Digits(started) && i < 6
    requires key == SessionFields(pipe, pid, user, started, cwd, params)[i].name
    ensures var f := SessionFields(pipe, pid, user, started, cwd, params);
      Parsed(Body(f), key) == if (0 < i && Clashes(pipe, key)) || (2 < i && Clashes(user, key)) || (4 < i && Clashes(cwd, key)) then ""
                              else Returned(f[i].value)
  {
    SessionNames(pipe, pid, user, started, cwd, params);
    FieldAt(SessionFields(pipe, pid, user, started, cwd, params), i, key);
  }

  lemma FieldAt(f: seq<Field>, i: nat, key: string)
    requires |f| == 6 && i < 6 && f[i].name == key && f[0].value.Str? && f[1].value.Num? && f[2].value.Str? && f[3].value.Num? && f[4].value.Str?
    requires (forall x :: x in f ==> x.Ok()) && forall j :: 0 <= j < i ==> f[j].name != f[i].name
    ensures Parsed(Body(f), key)
         == if (0 < i && Clashes(f[0].value.s, key)) || (2 < i && Clashes(f[2].value.s, key)) || (4 < i && Clashes(f[4].value.s, key)) then ""
            else Returned(f[i].value)
  {
    assert f[i] in f;
    ParsedBody(f, key);
    LookupAt(f, i);
    HiddenIs(f, i, key);
  }

  /** The body that `write` prints, and what parse_field yields for each of its keys. */
  method WriteBody(pipe: string, pid: string, user: string, started: string, cwd: string, params: string) returns (body: string)
    ensures body == Body(SessionFields(pipe, pid, user, started, cwd, params))
    ensures body == "{\n" + ("  \"pipe\": " + JsonEscape(pipe) + ",\n") + ("  \"pid\": " + pid + ",\n") + ("  \"user\": " + JsonEscape(user) + ",\n")
                    + ("  \"started\": " + started + ",\n") + ("  \"cwd\": " + JsonEscape(cwd) + ",\n") + ("  \"params\": " + JsonEscape(params) + "\n")
                    + "}\n"
    ensures pid != "" && Digits(pid) && started != "" && Digits(started) ==>
      && Parsed(body, "pipe") == Kept(pipe)
      && Parsed(body, "pid") == (if Clashes(pipe, "pid") then "" else pid)
      && Parsed(body, "user") == (if Clashes(pipe, "user") then "" else Kept(user))
      && Parsed(body, "started") == (if Clashes(pipe, "started") || Clashes(user, "started") then "" else started)
      && Parsed(body, "cwd") == (if Clashes(pipe, "cwd") || Clashes(user, "cwd") then "" else Kept(cwd))
      && Parsed(body, "params") == (if Clashes(pipe, "params") || Clashes(user, "params") || Clashes(cwd, "params") then "" else Kept(params))
  {
    body := PrintBody(pipe, pid, user, started, cwd, params);
    BodyText(pipe, pid, user, started, cwd, params);
    if pid != "" && Digits(pid) && started != "" && Digits(started) {
      SessionKeys(pipe, pid, user, started, cwd, params);
    }
  }

  lemma SessionKeys(pipe: string, pid: string, user: string, started: string, cwd: string, params: string)
    requires pid != "" && Digits(pid) && started != "" && Digits(started)
    ensures var body := Body(SessionFields(pipe, pid, user, started, cwd, params));
      && Parsed(body, "pipe") == Kept(pipe)
      && Parsed(body, "pid") == (if Clashes(pipe, "pid") then "" else pid)
      && Parsed(body, "user") == (if Clashes(pipe, "user") then "" else Kept(user))
      && Parsed(body, "started") == (if Clashes(pipe, "started") || Clashes(user, "started") then "" else started)
      && Parsed(body, "cwd") == (if Clashes(pipe, "cwd") || Clashes(user, "cwd") then "" else Kept(cwd))
      && Parsed(body, "params") == (if Clashes(pipe, "params") || Clashes(user, "params") || Clashes(cwd, "params") then "" else Kept(params))
  {
    FieldOf(pipe, pid, user, started, cwd, params, 0, "pipe");
    FieldOf(pipe, pid, user, started, cwd, params, 1, "pid");
    FieldOf(pipe, pid, user, started, cwd, params, 2, "user");
    FieldOf(pipe, pid, user, started, cwd, params, 3, "started");
    FieldOf(pipe, pid, user, started, cwd, params, 4, "cwd");
    FieldOf(pipe, pid, user, started, cwd, params, 5, "params");
  }

  lemma BodyText(pipe: string, pid: string, user: string, started: string, cwd: string, params: string)
    ensures Body(SessionFields(pipe, pid, user, started, cwd, params))
         == "{\n" + ("  \"pipe\": " + JsonEscape(pipe) + ",\n") + ("  \"pid\": " + pid + ",\n") + ("  \"user\": " + JsonEscape(user) + ",\n")
            + ("  \"started\": " + started + ",\n") + ("  \"cwd\": " + JsonEscape(cwd) + ",\n") + ("  \"params\": " + JsonEscape(params) + "\n")
            + "}\n"
  {
    var f := SessionFields(pipe, pid, user, started, cwd, params);
    BodyIs(f);
    Starts();
    LineText(f[0], "  \"pipe\": ");
    LineText(f[1], "  \"pid\": ");
    LineText(f[2], "  \"user\": ");
    LineText(f[3], "  \"started\": ");
    LineText(f[4], "  \"cwd\": ");
    LineText(f[5], "  \"params\": ");
  }

  lemma Starts()
    ensures "  \"pipe\": " == "  \"" + "pipe" + "\": " && "  \"pid\": " == "  \"" + "pid" + "\": " && "  \"user\": " == "  \"" + "user" + "\": "
    ensures "  \"started\": " == "  \"" + "started" + "\": " && "  \"cwd\": " == "  \"" + "cwd" + "\": "
    ensures "  \"params\": " == "  \"" + "params" + "\": "
  {
  }

  lemma LineText(f: Field, start: string)
    requires start == "  \"" + f.name + "\": "
    ensures Line(f, false) == start + Print(f.value) + ",\n" && Line(f, true) == start + Print(f.value) + "\n"
  {
    assert start == "  " + "\"" + f.name + "\"" + ": ";
  }

  /** Its lines, one after the other. */
  method PrintBody(pipe: string, pid: string, user: string, started: string, cwd: string, params: string) returns (body: string)
    ensures body == Body(SessionFields(pipe, pid, user, started, cwd, params))
  {
    ghost var f := SessionFields(pipe, pid, user, started, cwd, params);
    BodyIs(f);
    body := "{\n";
    var value := Escape(pipe);
    body := AppendLine(body, "pipe", value, ",\n", f[0], false);
    body := AppendLine(body, "pid", pid, ",\n", f[1], false);
    value := Escape(user);
    body := AppendLine(body, "user", value, ",\n", f[2], false);
    body := AppendLine(body, "started", started, ",\n", f[3], false);
    value := Escape(cwd);
    body := AppendLine(body, "cwd", value, ",\n", f[4], false);
    value := Escape(params);
    body := AppendLine(body, "params", value, "\n", f[5], true);
    body := body + "}\n";
  }

  lemma SessionNames(pipe: string, pid: string, user: string, started: string, cwd: string, params: string)
    ensures var f := SessionFields(pipe, pid, user, started, cwd, params); forall i, j :: 0 <= j < i < 6 ==> f[i].name != f[j].name
  {
    assert |"pipe"| == |"user"| == 4 && |"pid"| == |"cwd"| == 3 && |"started"| == 7 && |"params"| == 6;
    assert "pipe"[0] != "user"[0] && "pid"[0] != "cwd"[0];
  }

  /** So it is with each field of a session. */
  lemma SessionRoundTrip(pipe: string, pid: string, user: string, started: string, cwd: string, params: string, i: nat)
    requires pid != "" && Digits(pid) && started != "" && Digits(started) && i < 6
    ensures var f := SessionFields(pipe, pid, user, started, cwd, params);
      Parsed(Body(f), f[i].name) == Returned(f[i].value) <==> !Hidden(f, i) || Returned(f[i].value) == ""
  {
    SessionNames(pipe, pid, user, started, cwd, params);
    FieldRoundTrip(SessionFields(pipe, pid, user, started, cwd, params), i);
  }

  /** A user called `cwd` hides the working directory. */
  lemma UserHidesCwd(pipe: string, pid: string, started: string, dir: string, params: string)
    requires pid != "" && Digits(pid) && started != "" && Digits(started) && Kept(dir) != ""
    ensures var f := SessionFields(pipe, pid, "cwd", started, dir, params); Parsed(Body(f), f[4].name) != Returned(f[4].value) == Kept(dir)
  {
    var f := SessionFields(pipe, pid, "cwd", started, dir, params);
    KeptLetters("cwd");
    assert f[2].value == Str("cwd") && f[4].name == "cwd" && HidesKey(f[2], f[4].name);
    SessionRoundTrip(pipe, pid, "cwd", started, dir, params, 4);
  }

  lemma {:induction false} KeptLetters(s: string)
    requires Letters(s)
    ensures Kept(s) == s
  {
    if s != "" {
      KeptLetters(s[1..]);
      assert s == [s[0]] + s[1..];
    }
  }
}
