/** The order of the windows of the hall in vtm.hpp, bottom first: what its operations do to it, and what is painted. */
module WindowOrder {
  import opened Wrappers

  /** go::prev: the window in front goes to the back of the stack, and the one behind it comes to the front. */
  function Prev<W>(s: seq<W>): seq<W> {
    if s == [] then [] else [s[|s| - 1]] + s[..|s| - 1]
  }

  /** go::next */
  function Next<W>(s: seq<W>): seq<W> {
    if s == [] then [] else s[1..] + [s[0]]
  }

  function Without<W>(s: seq<W>, i: nat): seq<W>
    requires i < |s|
  {
    s[..i] + s[i + 1..]
  }

  /** Expose: window `i` comes to the front. */
  function Expose<W>(s: seq<W>, i: nat): seq<W>
    requires i < |s|
  {
    Without(s, i) + [s[i]]
  }

  /** The first place from `j` on where a window overlaps `w`, or the end. */
  function Blocked<W>(overlap: (W, W) -> bool, s: seq<W>, w: W, j: nat): (r: nat)
    requires j <= |s|
    ensures j <= r <= |s| && (forall k :: j <= k < r ==> !overlap(w, s[k])) && (r < |s| ==> overlap(w, s[r]))
    decreases |s| - j
  {
    if j < |s| && !overlap(w, s[j]) then Blocked(overlap, s, w, j + 1) else j
  }

  /** Bubble: window `i` moves up past every window it does not overlap, as far as the first one that it does. */
  function Bubble<W>(overlap: (W, W) -> bool, s: seq<W>, i: nat): seq<W>
    requires i < |s|
  {
    var r := Blocked(overlap, s, s[i], i + 1);
    s[..i] + s[i + 1..r] + [s[i]] + s[r..]
  }

  /** It goes up past windows it does not overlap only, and stops under one that it does or at the top. */
  lemma BubbleIs<W>(overlap: (W, W) -> bool, s: seq<W>, i: nat)
    requires i < |s|
    ensures exists r :: i < r <= |s| && Bubble(overlap, s, i) == s[..i] + s[i + 1..r] + [s[i]] + s[r..]
                        && (forall k :: i < k < r ==> !overlap(s[i], s[k])) && (r < |s| ==> overlap(s[i], s[r]))
  {
    var r := Blocked(overlap, s, s[i], i + 1);
    assert i < r <= |s| && Bubble(overlap, s, i) == s[..i] + s[i + 1..r] + [s[i]] + s[r..];
  }

  lemma NextPrev<W>(s: seq<W>)
    ensures Next(Prev(s)) == s && Prev(Next(s)) == s
  {
    if s != [] {
      var p, n := Prev(s), Next(s);
      assert p[1..] == s[..|s| - 1] && n[..|n| - 1] == s[1..];
      forall i | 0 <= i < |s| ensures Next(p)[i] == s[i] && Prev(n)[i] == s[i] {
      }
    }
  }

  datatype Op = OpExpose(i: nat) | OpBubble(i: nat) | OpNext | OpPrev

  function Step<W>(overlap: (W, W) -> bool, s: seq<W>, op: Op): seq<W> {
    match op
    case OpExpose(i) => if i < |s| then Expose(s, i) else s
    case OpBubble(i) => if i < |s| then Bubble(overlap, s, i) else s
    case OpNext => Next(s)
    case OpPrev => Prev(s)
  }

  function Run<W>(overlap: (W, W) -> bool, s: seq<W>, ops: seq<Op>): seq<W> {
    if ops == [] then s else Step(overlap, Run(overlap, s, ops[..|ops| - 1]), ops[|ops| - 1])
  }

  lemma Cut<W>(s: seq<W>, i: nat, r: nat)
    requires i < r <= |s|
    ensures s == s[..i] + [s[i]] + s[i + 1..r] + s[r..]
  {
    assert s == s[..r] + s[r..] && s[..r] == s[..i] + s[i..r] && s[i..r] == [s[i]] + s[i + 1..r];
  }

  lemma SwapPermutes<W>(a: seq<W>, b: seq<W>, c: seq<W>, d: seq<W>)
    ensures multiset(a + b + c + d) == multiset(a + c + b + d)
  {
  }

  lemma ExposePermutes<W>(s: seq<W>, i: nat)
    requires i < |s|
    ensures multiset(Expose(s, i)) == multiset(s)
  {
    assert s == s[..i] + ([s[i]] + s[i + 1..]);
  }

  lemma BubblePermutes<W>(overlap: (W, W) -> bool, s: seq<W>, i: nat)
    requires i < |s|
    ensures multiset(Bubble(overlap, s, i)) == multiset(s)
  {
    var r := Blocked(overlap, s, s[i], i + 1);
    Cut(s, i, r);
    SwapPermutes(s[..i], [s[i]], s[i + 1..r], s[r..]);
  }

  lemma RotatePermutes<W>(s: seq<W>)
    ensures multiset(Next(s)) == multiset(s) && multiset(Prev(s)) == multiset(s)
  {
    if s != [] {
      assert s == [s[0]] + s[1..];
      assert s == s[..|s| - 1] + [s[|s| - 1]];
    }
  }

  lemma StepPermutes<W>(overlap: (W, W) -> bool, s: seq<W>, op: Op)
    ensures multiset(Step(overlap, s, op)) == multiset(s)
  {
    match op
    case OpExpose(i) =>
      if i < |s| {
        ExposePermutes(s, i);
      }
    case OpBubble(i) =>
      if i < |s| {
        BubblePermutes(overlap, s, i);
      }
    case OpNext => RotatePermutes(s);
    case OpPrev => RotatePermutes(s);
  }

  /** Over any run the stack holds the same windows, each as often as before. */
  lemma {:induction false} RunPermutes<W>(overlap: (W, W) -> bool, s: seq<W>, ops: seq<Op>)
    ensures multiset(Run(overlap, s, ops)) == multiset(s)
  {
    if ops != [] {
      RunPermutes(overlap, s, ops[..|ops| - 1]);
      StepPermutes(overlap, Run(overlap, s, ops[..|ops| - 1]), ops[|ops| - 1]);
    }
  }

  // What is painted.

  function Filter<W>(p: W -> bool, s: seq<W>): seq<W> {
    if s == [] then [] else Filter(p, s[..|s| - 1]) + if p(s[|s| - 1]) then [s[|s| - 1]] else []
  }

  lemma {:induction false} FilterConcat<W>(p: W -> bool, s: seq<W>, t: seq<W>)
    ensures Filter(p, s + t) == Filter(p, s) + Filter(p, t)
  {
    if t == [] {
      assert s + t == s;
    } else {
      assert (s + t)[..|s + t| - 1] == s + t[..|t| - 1];
      FilterConcat(p, s, t[..|t| - 1]);
    }
  }

  lemma {:induction false} FilterNone<W>(p: W -> bool, s: seq<W>)
    requires forall k :: 0 <= k < |s| ==> !p(s[k])
    ensures Filter(p, s) == []
  {
    if s != [] {
      FilterNone(p, s[..|s| - 1]);
    }
  }

  lemma {:induction false} FilterFilter<W>(p: W -> bool, q: W -> bool, s: seq<W>)
    ensures Filter(p, Filter(q, s)) == Filter(q, Filter(p, s))
  {
    if s != [] {
      var init, last := s[..|s| - 1], [s[|s| - 1]];
      FilterFilter(p, q, init);
      FilterOne(p, s[|s| - 1]);
      FilterOne(q, s[|s| - 1]);
      FilterConcat(p, Filter(q, init), Filter(q, last));
      FilterConcat(q, Filter(p, init), Filter(p, last));
    }
  }

  lemma FilterOne<W>(p: W -> bool, w: W)
    ensures Filter(p, [w]) == (if p(w) then [w] else []) && Filter(p, []) == []
  {
    assert [w][..0] == [];
  }

  /** The order of painting: the layers of the z-order one after the other, each in the order of the stack. */
  function Painted<W>(layer: W -> nat, s: seq<W>): seq<W> {
    Filter(w => layer(w) == 0, s) + Filter(w => layer(w) == 1, s) + Filter(w => layer(w) == 2, s)
  }

  lemma PaintedFilter<W>(layer: W -> nat, p: W -> bool, s: seq<W>)
    ensures Filter(p, Painted(layer, s)) == Painted(layer, Filter(p, s))
  {
    var p0, p1, p2 := (w: W) => layer(w) == 0, (w: W) => layer(w) == 1, (w: W) => layer(w) == 2;
    FilterConcat(p, Filter(p0, s) + Filter(p1, s), Filter(p2, s));
    FilterConcat(p, Filter(p0, s), Filter(p1, s));
    FilterFilter(p, p0, s);
    FilterFilter(p, p1, s);
    FilterFilter(p, p2, s);
  }

  /** The window seen at a point: of those that cover it, the one painted last. */
  function TopAt<W>(layer: W -> nat, covers: W -> bool, s: seq<W>): Option<W> {
    var t := Filter(covers, Painted(layer, s));
    if t == [] then None else Some(t[|t| - 1])
  }

  lemma FilterFour<W>(p: W -> bool, a: seq<W>, b: seq<W>, c: seq<W>, d: seq<W>)
    ensures Filter(p, a + b + c + d) == Filter(p, a) + Filter(p, b) + Filter(p, c) + Filter(p, d)
  {
    FilterConcat(p, a + b + c, d);
    FilterConcat(p, a + b, c);
    FilterConcat(p, a, b);
  }

  lemma FilterSwap<W>(p: W -> bool, a: seq<W>, b: seq<W>, c: seq<W>, d: seq<W>)
    requires Filter(p, b) == [] || Filter(p, c) == []
    ensures Filter(p, a + b + c + d) == Filter(p, a + c + b + d)
  {
    FilterFour(p, a, b, c, d);
    FilterFour(p, a, c, b, d);
  }

  /** None of the windows that `s[i]` passes covers a point with it. */
  lemma PassedApart<W>(overlap: (W, W) -> bool, covers: W -> bool, s: seq<W>, i: nat, r: nat)
    requires i < |s| && r == Blocked(overlap, s, s[i], i + 1)
    requires forall v: W, w: W :: v in s && w in s && covers(v) && covers(w) ==> overlap(v, w)
    ensures Filter(covers, [s[i]]) == [] || Filter(covers, s[i + 1..r]) == []
  {
    FilterOne(covers, s[i]);
    var b := s[i + 1..r];
    if covers(s[i]) {
      forall k | 0 <= k < |b| ensures !covers(b[k]) {
        assert b[k] == s[i + 1 + k];
      }
      FilterNone(covers, b);
    }
  }

  /** Among the windows that cover a point, bubble changes nothing. */
  lemma BubbleAtPoint<W>(overlap: (W, W) -> bool, covers: W -> bool, s: seq<W>, i: nat)
    requires i < |s|
    requires forall v: W, w: W :: v in s && w in s && covers(v) && covers(w) ==> overlap(v, w)
    ensures Filter(covers, Bubble(overlap, s, i)) == Filter(covers, s)
  {
    var r := Blocked(overlap, s, s[i], i + 1);
    PassedApart(overlap, covers, s, i, r);
    FilterSwap(covers, s[..i], [s[i]], s[i + 1..r], s[r..]);
    Cut(s, i, r);
  }

  /** Bubble never changes which window is seen at any point. */
  lemma BubbleKeepsTop<W>(overlap: (W, W) -> bool, layer: W -> nat, covers: W -> bool, s: seq<W>, i: nat)
    requires i < |s|
    requires forall v: W, w: W :: v in s && w in s && covers(v) && covers(w) ==> overlap(v, w)
    ensures TopAt(layer, covers, Bubble(overlap, s, i)) == TopAt(layer, covers, s)
  {
    BubbleAtPoint(overlap, covers, s, i);
    PaintedFilter(layer, covers, s);
    PaintedFilter(layer, covers, Bubble(overlap, s, i));
  }

  lemma {:induction false} FilterAll<W>(p: W -> bool, s: seq<W>)
    ensures forall w :: w in Filter(p, s) ==> p(w) && w in s
  {
    if s != [] {
      FilterAll(p, s[..|s| - 1]);
    }
  }

  /** Expose shows the window wherever it is, except under windows of a higher layer. */
  lemma ExposeShows<W>(layer: W -> nat, covers: W -> bool, s: seq<W>, i: nat)
    requires i < |s| && covers(s[i]) && layer(s[i]) < 3
    requires forall w :: w in s && covers(w) ==> layer(w) <= layer(s[i])
    ensures TopAt(layer, covers, Expose(s, i)) == Some(s[i])
  {
    var e, w := Expose(s, i), s[i];
    PaintedFilter(layer, covers, e);
    var f := Filter(covers, e);
    assert e[..|e| - 1] == Without(s, i) && f == Filter(covers, Without(s, i)) + [w];
    FilterAll(covers, Without(s, i));
    assert forall v :: v in f ==> v in s && covers(v);
    LastPainted(layer, f);
  }

  /** If the front window of a stack is in the highest layer there is, it is painted last. */
  lemma LastPainted<W>(layer: W -> nat, f: seq<W>)
    requires f != [] && layer(f[|f| - 1]) < 3 && forall v :: v in f ==> layer(v) <= layer(f[|f| - 1])
    ensures Painted(layer, f) != [] && Painted(layer, f)[|Painted(layer, f)| - 1] == f[|f| - 1]
  {
    var p1, p2 := (w: W) => layer(w) == 1, (w: W) => layer(w) == 2;
    if layer(f[|f| - 1]) < 2 {
      FilterNone(p2, f);
    }
    if layer(f[|f| - 1]) < 1 {
      FilterNone(p1, f);
    }
  }

  // The search for the next window to focus when one is minimized.

  function PrevN<W>(s: seq<W>, k: nat): seq<W> {
    if k == 0 then s else Prev(PrevN(s, k - 1))
  }

  lemma {:induction false} PrevNIs<W>(s: seq<W>, k: nat)
    requires k <= |s|
    ensures PrevN(s, k) == s[|s| - k..] + s[..|s| - k]
  {
    if k > 0 {
      PrevNIs(s, k - 1);
      var n := |s|;
      var r := PrevN(s, k - 1);
      assert r[|r| - 1] == s[n - k] && r[..|r| - 1] == s[n - k + 1..] + s[..n - k];
    }
  }

  /** As many rotations as there are windows are none. */
  lemma FullTurn<W>(s: seq<W>)
    ensures PrevN(s, |s|) == s
  {
    PrevNIs(s, |s|);
  }

  lemma {:induction false} PrevNPermutes<W>(s: seq<W>, k: nat)
    ensures multiset(PrevN(s, k)) == multiset(s)
  {
    if k > 0 {
      PrevNPermutes(s, k - 1);
      StepPermutes((v: W, w: W) => false, PrevN(s, k - 1), OpPrev);
    }
  }

  /** The front window is the minimized one or a good one. */
  predicate Halts<W(==)>(r: seq<W>, w: W, good: W -> bool) {
    r != [] && (r[|r| - 1] == w || good(r[|r| - 1]))
  }

  /** The loop stops after `k` rotations. */
  predicate Stops<W(==)>(s: seq<W>, w: W, good: W -> bool, k: nat) {
    Halts(PrevN(s, k), w, good)
  }

  /** The search ends, and within one turn, just when the stack holds the window itself or a good one. */
  lemma SearchEnds<W>(s: seq<W>, w: W, good: W -> bool)
    ensures (exists v :: v in s && (v == w || good(v))) <==> (exists k: nat :: k > 0 && Stops(s, w, good, k))
    ensures (exists v :: v in s && (v == w || good(v))) ==> (exists k: nat :: 0 < k <= |s| && Stops(s, w, good, k))
  {
    if v :| v in s && (v == w || good(v)) {
      var i :| 0 <= i < |s| && s[i] == v;
      var k := if i == |s| - 1 then |s| else |s| - 1 - i;
      PrevNIs(s, k);
      assert Stops(s, w, good, k);
    }
    if k: nat :| k > 0 && Stops(s, w, good, k) {
      PrevNPermutes(s, k);
      var r := PrevN(s, k);
      var v := r[|r| - 1];
      assert v in multiset(r);
      assert v in s;
    }
  }

  /** The number of rotations after which it ends. */
  lemma TurnsNeeded<W>(s: seq<W>, w: W, good: W -> bool) returns (turns: nat)
    requires exists v :: v in s && (v == w || good(v))
    ensures 0 < turns <= |s| && Stops(s, w, good, turns)
  {
    SearchEnds(s, w, good);
    turns :| 0 < turns <= |s| && Stops(s, w, good, turns);
  }

  lemma {:induction false} PrevNLength<W>(s: seq<W>, k: nat)
    ensures |PrevN(s, k)| == |s|
  {
    if k > 0 {
      PrevNLength(s, k - 1);
    }
  }
}
