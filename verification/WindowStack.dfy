/** The window list of the hall in vtm.hpp: a linked list of windows, each of which keeps an iterator to its own node. */
module WindowStack {
  import opened WindowOrder

  datatype Rect = Rect(x: int, y: int, w: int, h: int)

  predicate Contains(r: Rect, x: int, y: int) {
    r.x <= x < r.x + r.w && r.y <= y < r.y + r.h
  }

  function Clamp(v: int, lo: int, hi: int): int {
    if v < lo then lo else if hi < v then hi else v
  }

  function Min(a: int, b: int): int {
    if a < b then a else b
  }

  function Max(a: int, b: int): int {
    if a < b then b else a
  }

  /** rect::trim: both corners of `r` moved into `a`, whose size may be negative. */
  function Trim(a: Rect, r: Rect): Rect {
    var left, right := Min(a.x, a.x + a.w), Max(a.x, a.x + a.w);
    var top, bottom := Min(a.y, a.y + a.h), Max(a.y, a.y + a.h);
    var x, y := Clamp(r.x, left, right), Clamp(r.y, top, bottom);
    Rect(x, y, Clamp(r.x + r.w, left, right) - x, Clamp(r.y + r.h, top, bottom) - y)
  }

  /** Whether rect::trim leaves anything. */
  predicate Overlap(a: Rect, b: Rect) {
    var t := Trim(a, b);
    t.w != 0 && t.h != 0
  }

  /** For rectangles without a negative size, that is whether they share a point, and what trim leaves is what they share. */
  lemma OverlapShares(a: Rect, b: Rect)
    requires a.w >= 0 && a.h >= 0 && b.w >= 0 && b.h >= 0
    ensures Overlap(a, b) <==> exists x, y :: Contains(a, x, y) && Contains(b, x, y)
    ensures forall x, y :: Contains(Trim(a, b), x, y) <==> Contains(a, x, y) && Contains(b, x, y)
  {
    var t := Trim(a, b);
    if Overlap(a, b) {
      assert Contains(t, t.x, t.y) && Contains(a, t.x, t.y) && Contains(b, t.x, t.y);
    }
  }

  /** A node of the list. A std::list iterator is a node, and the end of the list is null. */
  class Node {
    const item: Window

    constructor (item: Window)
      ensures this.item == item
    {
      this.item := item;
    }
  }

  class Window {
    var holder: Node?
    var region: Rect
    var hidden: bool
  }

  function Items(s: seq<Node>): (r: seq<Window>)
    ensures |r| == |s| && forall i :: 0 <= i < |s| ==> r[i] == s[i].item
  {
    seq(|s|, i requires 0 <= i < |s| => s[i].item)
  }

  /** The place of a node in the list. */
  function Place(s: seq<Node>, n: Node): (i: nat)
    requires n in s
    ensures i < |s| && s[i] == n
  {
    if s[0] == n then 0 else 1 + Place(s[1..], n)
  }

  /** The node behind another one: an iterator moved on. */
  function After(s: seq<Node>, n: Node): Node?
    requires n in s
  {
    var i := Place(s, n);
    if i + 1 < |s| then s[i + 1] else null
  }

  function Erased(s: seq<Node>, n: Node): seq<Node>
    requires n in s
  {
    Without(s, Place(s, n))
  }

  function InsertedBefore(s: seq<Node>, at: Node?, n: Node): seq<Node>
    requires at != null ==> at in s
  {
    if at == null then s + [n] else
      var i := Place(s, at);
      s[..i] + [n] + s[i..]
  }

  function ItemSet(s: seq<Node>): set<Window> {
    set n | n in s :: n.item
  }

  lemma SameItems(s: seq<Node>, t: seq<Node>)
    requires multiset(Items(s)) == multiset(Items(t))
    ensures ItemSet(s) == ItemSet(t)
  {
    ItemSetIs(s);
    ItemSetIs(t);
    forall w ensures w in Items(s) <==> w in Items(t) {
      assert w in Items(s) <==> w in multiset(Items(s));
      assert w in Items(t) <==> w in multiset(Items(t));
    }
  }

  lemma ItemSetIs(s: seq<Node>)
    ensures forall w :: w in ItemSet(s) <==> w in Items(s)
  {
    forall w | w in ItemSet(s) ensures w in Items(s) {
      var i :| 0 <= i < |s| && s[i].item == w;
      assert Items(s)[i] == w;
    }
    forall w | w in Items(s) ensures w in ItemSet(s) {
      var i :| 0 <= i < |s| && Items(s)[i] == w;
      assert s[i] in s;
    }
  }

  predicate Distinct(s: seq<Node>) {
    forall i, j :: 0 <= i < j < |s| ==> s[i] != s[j]
  }

  lemma PlaceIs(s: seq<Node>, i: nat)
    requires i < |s| && Distinct(s)
    ensures Place(s, s[i]) == i
  {
  }

  class Hall {
    var subset: seq<Node>

    ghost function Windows(): set<Window>
      reads this
    {
      ItemSet(subset)
    }

    /** No node occurs twice, and every window in the list holds its own node. */
    ghost predicate Valid()
      reads this, Windows()
    {
      Distinct(subset) && forall i :: 0 <= i < |subset| ==> subset[i].item.holder == subset[i]
    }

    /** go::next: the window it reports is the new front one. */
    method GoNext(next0: Window?) returns (next: Window?)
      requires Valid()
      modifies this, Windows()`holder
      ensures Valid() && Items(subset) == Next(old(Items(subset))) && Windows() == old(Windows())
      ensures next == if subset == [] then next0 else subset[|subset| - 1].item
      ensures old(subset) != [] ==> Items(subset) == old(Items(subset))[1..] + [old(Items(subset))[0]]
    {
      next := next0;
      if subset != [] {
        var n := new Node(subset[0].item);
        subset := subset + [n];
        subset[|subset| - 1].item.holder := n;
        subset := subset[1..];
        next := subset[|subset| - 1].item;
        assert Items(subset) == Next(Items(old(subset)));
        RotatePermutes(Items(old(subset)));
        SameItems(subset, old(subset));
      }
    }

    /** go::prev: the window it reports is the new front one. */
    method GoPrev(prev0: Window?) returns (prev: Window?)
      requires Valid()
      modifies this, Windows()`holder
      ensures Valid() && Items(subset) == Prev(old(Items(subset))) && Windows() == old(Windows())
      ensures prev == if subset == [] then prev0 else subset[|subset| - 1].item
      ensures old(subset) != [] ==> Items(subset) == [old(Items(subset))[|old(subset)| - 1]] + old(Items(subset))[..|old(subset)| - 1]
    {
      prev := prev0;
      if subset != [] {
        ghost var was := subset;
        var n := new Node(subset[|subset| - 1].item);
        RotatedBack(was, n);
        OtherItems(was, |was| - 1, was[|was| - 1]);
        subset := [n] + subset;
        subset[0].item.holder := n;
        subset := subset[..|subset| - 1];
        prev := subset[|subset| - 1].item;
        forall k | 0 <= k < |subset| ensures subset[k].item.holder == subset[k] {
          if k > 0 {
            assert subset[k] == was[k - 1] && was[k - 1].item != n.item;
          }
        }
        RotatePermutes(Items(was));
        SameItems(subset, was);
      }
    }

    /** The window holds a node of the list. */
    ghost predicate Has(w: Window)
      reads this, w
    {
      w.holder != null && w.holder in subset && w.holder.item == w
    }

    /** push_back, erase, and the holder moved to the new node. */
    method MoveToFront(w: Window)
      requires Valid() && Has(w)
      modifies this, w`holder
      ensures Valid() && Has(w)
      ensures Items(subset) == Expose(old(Items(subset)), old(Place(subset, w.holder)))
    {
      ghost var was, i := subset, Place(subset, w.holder);
      var n := new Node(w);
      subset := subset + [n];
      ErasedFirst(was, n, w.holder);
      subset := Erased(subset, w.holder);
      MovedToFront(was, i, n);
      OtherItems(was, i, w.holder);
      w.holder := subset[|subset| - 1];
      forall k | 0 <= k < |subset| - 1 ensures subset[k].item.holder == subset[k] {
        var j := if k < i then k else k + 1;
        assert subset[k] == was[j] && was[j].item != w;
      }
    }

    /** The expose handler of a window: to the front of the list, and visible again unless it was there already. */
    method ExposeWindow(w: Window)
      requires Valid() && Has(w)
      modifies this, w`holder, w`hidden
      ensures Valid() && Has(w) && Windows() == old(Windows())
      ensures Items(subset) == Expose(old(Items(subset)), old(Place(subset, w.holder)))
      ensures var s, i := old(Items(subset)), old(Place(subset, w.holder)); Items(subset) == s[..i] + s[i + 1..] + [s[i]]
      ensures w.hidden == (old(w.hidden) && old(Place(subset, w.holder)) == |subset| - 1)
    {
      ghost var was, i := subset, Place(subset, w.holder);
      PlaceIs(subset, |subset| - 1);
      if w.holder != subset[|subset| - 1] {
        MoveAndShow(w);
      } else {
        ExposeFront(Items(was));
      }
    }

    method MoveAndShow(w: Window)
      requires Valid() && Has(w)
      modifies this, w`holder, w`hidden
      ensures Valid() && Has(w) && Windows() == old(Windows()) && |subset| == old(|subset|) && !w.hidden
      ensures Items(subset) == Expose(old(Items(subset)), old(Place(subset, w.holder)))
    {
      ghost var was, i := subset, Place(subset, w.holder);
      MoveToFront(w);
      ExposePermutes(Items(was), i);
      SameItems(subset, was);
      if w.hidden {
        w.hidden := false;
      }
    }

    /** `overlap` is what trim finds for the windows of the list. */
    ghost predicate Agrees(overlap: (Window, Window) -> bool)
      reads this, Windows()
    {
      forall v, w :: v in Windows() && w in Windows() ==> overlap(v, w) == Overlap(v.region, w.region)
    }

    /** The part of the bubble handler after its two tests: erase, walk on, and insert again. */
    method MovePast(w: Window, next0: Node, ghost i: nat, ghost overlap: (Window, Window) -> bool)
      requires Valid() && Has(w) && Agrees(overlap) && i + 1 < |subset| && subset[i] == w.holder && subset[i + 1] == next0
      requires !overlap(w, next0.item)
      modifies this, w`holder
      ensures Valid() && Has(w) && Items(subset) == Bubble(overlap, old(Items(subset)), i)
    {
      ghost var was := subset;
      PlaceIs(was, i);
      ShiftedNodes(was, i);
      OtherItems(was, i, w.holder);
      subset := Erased(subset, w.holder);
      var list := subset;
      ghost var hit := (v: Window) => overlap(w, v);
      forall k | 0 <= k < |list| ensures hit(list[k].item) == Overlap(w.region, list[k].item.region) {
        InWindows(was, i);
        InWindows(was, if k < i then k else k + 1);
      }
      var next, j := Walk(list, w.region, next0, i, hit);
      var n := new Node(w);
      subset := InsertedBefore(list, next, n);
      if j < |list| {
        PlaceIs(list, j);
      }
      assert subset == Moved(was, i, j, n);
      MovedNodes(was, i, j, n);
      MovedItems(overlap, was, i, j, n);
      w.holder := n;
      forall k | 0 <= k < |subset| ensures subset[k].item.holder == subset[k] {
        if k != j {
          assert subset[k] == was[Origin(i, j, k)] && was[Origin(i, j, k)].item != w;
        }
      }
    }

    /** The loop of the bubble handler: from a node on, past every window that the area does not overlap. */
    method Walk(list: seq<Node>, area: Rect, first: Node, ghost at: nat, ghost hit: Window -> bool) returns (next: Node?, ghost j: nat)
      requires Distinct(list) && at < |list| && list[at] == first
      requires forall k :: 0 <= k < |list| ==> hit(list[k].item) == Overlap(area, list[k].item.region)
      ensures at < j <= |list| && next == (if j < |list| then list[j] else null)
      ensures (forall k :: at < k < j ==> !hit(list[k].item)) && (j < |list| ==> hit(list[j].item))
    {
      j := at;
      PlaceIs(list, j);
      next := After(list, first);
      j := j + 1;
      while next != null && !Overlap(area, next.item.region)
        invariant at < j <= |list| && next == (if j < |list| then list[j] else null)
        invariant forall k :: at < k < j ==> !hit(list[k].item)
        decreases |list| - j
      {
        PlaceIs(list, j);
        next := After(list, next);
        j := j + 1;
      }
    }

    lemma InWindows(s: seq<Node>, k: nat)
      requires k < |s|
      ensures s[k].item in ItemSet(s)
    {
    }

    /** The bubble handler of a window. */
    method BubbleWindow(w: Window, ghost overlap: (Window, Window) -> bool)
      requires Valid() && Has(w) && Agrees(overlap)
      modifies this, w`holder
      ensures Valid() && Has(w) && Windows() == old(Windows())
      ensures Items(subset) == Bubble(overlap, old(Items(subset)), old(Place(subset, w.holder)))
      ensures var s, i := old(Items(subset)), old(Place(subset, w.holder));
        exists r :: i < r <= |s| && Items(subset) == s[..i] + s[i + 1..r] + [s[i]] + s[r..]
                    && (forall k :: i < k < r ==> !overlap(s[i], s[k])) && (r < |s| ==> overlap(s[i], s[r]))
    {
      ghost var was, i := Items(subset), Place(subset, w.holder);
      BubbleSteps(w, overlap);
      BubbleIs(overlap, was, i);
    }

    /** Its two tests, and what follows. */
    method BubbleSteps(w: Window, ghost overlap: (Window, Window) -> bool)
      requires Valid() && Has(w) && Agrees(overlap)
      modifies this, w`holder
      ensures Valid() && Has(w) && Windows() == old(Windows())
      ensures Items(subset) == Bubble(overlap, old(Items(subset)), old(Place(subset, w.holder)))
    {
      ghost var was, i := subset, Place(subset, w.holder);
      var next := After(subset, w.holder);
      InWindows(was, i);
      if next != null {
        InWindows(was, i + 1);
      }
      if next != null && !Overlap(w.region, next.item.region) {
        MovePast(w, next, i, overlap);
      } else {
        BubbleStays(overlap, Items(was), i);
      }
      BubblePermutes(overlap, Items(was), i);
      SameItems(subset, was);
    }

    method ExposeAt(i: nat, ghost overlap: (Window, Window) -> bool)
      requires Valid() && Agrees(overlap)
      modifies this, Windows()`holder, Windows()`hidden
      ensures Valid() && Agrees(overlap) && Windows() == old(Windows())
      ensures Items(subset) == Step(overlap, old(Items(subset)), OpExpose(i))
    {
      if i < |subset| {
        InWindows(subset, i);
        PlaceIs(subset, i);
        ExposeWindow(subset[i].item);
      }
    }

    method BubbleAt(i: nat, ghost overlap: (Window, Window) -> bool)
      requires Valid() && Agrees(overlap)
      modifies this, Windows()`holder
      ensures Valid() && Agrees(overlap) && Windows() == old(Windows())
      ensures Items(subset) == Step(overlap, old(Items(subset)), OpBubble(i))
    {
      if i < |subset| {
        InWindows(subset, i);
        PlaceIs(subset, i);
        BubbleWindow(subset[i].item, overlap);
      }
    }

    /** One operation on the list, on the window at a place or on the whole list. */
    method Perform(op: Op, ghost overlap: (Window, Window) -> bool)
      requires Valid() && Agrees(overlap)
      modifies this, Windows()`holder, Windows()`hidden
      ensures Valid() && Agrees(overlap) && Windows() == old(Windows())
      ensures Items(subset) == Step(overlap, old(Items(subset)), op)
    {
      match op
      case OpExpose(i) => ExposeAt(i, overlap);
      case OpBubble(i) => BubbleAt(i, overlap);
      case OpNext =>
        var next := GoNext(null);
      case OpPrev =>
        var prev := GoPrev(null);
    }

    /** Over any run of them every window keeps a holder of its own, and the order of the windows is that of the stack. */
    method PerformAll(ops: seq<Op>, ghost overlap: (Window, Window) -> bool)
      requires Valid() && Agrees(overlap)
      modifies this, Windows()`holder, Windows()`hidden
      ensures Valid() && Agrees(overlap) && Windows() == old(Windows())
      ensures Items(subset) == Run(overlap, old(Items(subset)), ops)
    {
      ghost var s := Items(subset);
      var n := 0;
      while n < |ops|
        invariant n <= |ops| && Valid() && Agrees(overlap) && Windows() == old(Windows())
        invariant Items(subset) == Run(overlap, s, ops[..n])
      {
        assert ops[..n + 1][..n] == ops[..n];
        Perform(ops[n], overlap);
        n := n + 1;
      }
      assert ops[..n] == ops;
    }

    /** `good` is what the search looks for: a window that is visible and has its centre in the viewport. */
    ghost predicate Sees(good: Window -> bool, inView: Rect -> bool)
      reads this, Windows()
    {
      forall v :: v in Windows() ==> good(v) == (!v.hidden && inView(v.region))
    }

    /** The window at the end of the list is the front one. */
    ghost predicate InFront(w: Window)
      reads this
    {
      subset != [] && w == subset[|subset| - 1].item
    }

    /** A window that holds a node of the list is in the list, so that the search for the next focus ends. */
    lemma HasItem(w: Window)
      requires Has(w)
      ensures w in Items(subset)
    {
      assert Items(subset)[Place(subset, w.holder)] == w;
    }

    /** The loop of the minimize handler: rotate until the front window is the minimized one or a good one. Either must be
        in the list, as the minimized window is; then there are no more rotations than windows. */
    method FindNextFocus(w: Window, inView: Rect -> bool, ghost good: Window -> bool) returns (prev: Window?, ghost k: nat)
      requires Valid() && Sees(good, inView) && exists v :: v in Items(subset) && (v == w || good(v))
      modifies this, Windows()`holder
      ensures Valid() && Windows() == old(Windows()) && Items(subset) == PrevN(old(Items(subset)), k) && 0 < k <= |subset| == old(|subset|)
      ensures prev != null && (prev == w || good(prev)) && InFront(prev)
      ensures Stops(old(Items(subset)), w, good, k) && forall m :: 0 < m < k ==> !Stops(old(Items(subset)), w, good, m)
    {
      ghost var s := Items(subset);
      ghost var turns := TurnsNeeded(s, w, good);
      ghost var stops := (m: nat) => Stops(s, w, good, m);
      prev, k := RotateUntil(w, inView, good, turns, (m: nat) => PrevN(s, m), stops);
      PrevNLength(s, k);
      FirstStop(s, w, good, stops, k);
    }

    lemma FirstStop(s: seq<Window>, w: Window, good: Window -> bool, stops: nat -> bool, k: nat)
      requires (forall m: nat :: stops(m) == Stops(s, w, good, m)) && stops(k) && forall m :: 0 < m < k ==> !stops(m)
      ensures Stops(s, w, good, k) && forall m :: 0 < m < k ==> !Stops(s, w, good, m)
    {
      forall m | 0 < m < k ensures !Stops(s, w, good, m) {
        assert !stops(m);
      }
    }

    /** The loop itself, for any description of the orders it goes through and of where it stops. */
    method RotateUntil(w: Window, inView: Rect -> bool, ghost good: Window -> bool, ghost turns: nat,
                       ghost order: nat -> seq<Window>, ghost stops: nat -> bool) returns (prev: Window?, ghost k: nat)
      requires Valid() && Sees(good, inView) && subset != [] && turns > 0 && stops(turns) && order(0) == Items(subset)
      requires forall m: nat, n: nat {:trigger order(m), order(n)} :: n == m + 1 ==> order(n) == Prev(order(m))
      requires forall m: nat :: stops(m) == Halts(order(m), w, good)
      modifies this, Windows()`holder
      ensures Valid() && Windows() == old(Windows()) && Items(subset) == order(k) && 0 < k <= turns
      ensures prev != null && (prev == w || good(prev)) && InFront(prev)
      ensures stops(k) && forall m :: 0 < m < k ==> !stops(m)
    {
      prev, k := null, 0;
      var more := true;
      while more
        invariant Valid() && Windows() == old(Windows()) && Sees(good, inView) && Items(subset) == order(k) && subset != []
        invariant k <= turns && forall m :: 0 < m < k ==> !stops(m)
        invariant more ==> k == 0 || !stops(k)
        invariant !more ==> 0 < k && prev != null && stops(k) && InFront(prev) && (prev == w || good(prev))
        decreases turns - k, more
      {
        OneMore(stops, k, turns);
        prev, more := Turn(w, prev, inView, good);
        k := k + 1;
        assert stops(k) == !more;
      }
    }

    lemma OneMore(stops: nat -> bool, k: nat, turns: nat)
      requires k <= turns && turns > 0 && stops(turns) && (k == 0 || !stops(k)) && forall m :: 0 < m < k ==> !stops(m)
      ensures k < turns && forall m :: 0 < m < k + 1 ==> !stops(m)
    {
    }

    /** The body of that loop and its test. */
    method Turn(w: Window, prev0: Window?, inView: Rect -> bool, ghost good: Window -> bool) returns (prev: Window?, more: bool)
      requires Valid() && Sees(good, inView) && subset != []
      modifies this, Windows()`holder
      ensures Valid() && Windows() == old(Windows()) && Sees(good, inView) && Items(subset) == Prev(old(Items(subset)))
      ensures more == !Halts(Items(subset), w, good) && prev != null && InFront(prev)
      ensures !more ==> prev == w || good(prev)
    {
      prev := GoPrev(prev0);
      FrontInWindows();
      var isHidden := if prev != null then prev.hidden else true;
      more := prev != w && (isHidden || !inView(prev.region));
    }

    lemma FrontInWindows()
      ensures subset != [] ==> subset[|subset| - 1].item in Windows()
    {
    }

    /** Different nodes are for different windows. */
    lemma OtherItems(s: seq<Node>, i: nat, n: Node)
      requires Distinct(s) && i < |s| && s[i] == n
      requires forall k :: 0 <= k < |s| ==> s[k].item.holder == s[k]
      ensures forall k :: 0 <= k < |s| && k != i ==> s[k].item != n.item
    {
    }
  }

  lemma BlockedIs<W>(overlap: (W, W) -> bool, s: seq<W>, w: W, j: nat, r: nat)
    requires j <= r <= |s| && (forall k :: j <= k < r ==> !overlap(w, s[k])) && (r < |s| ==> overlap(w, s[r]))
    ensures Blocked(overlap, s, w, j) == r
  {
  }

  lemma BubbleStays<W>(overlap: (W, W) -> bool, s: seq<W>, i: nat)
    requires i < |s| && (i + 1 < |s| ==> overlap(s[i], s[i + 1]))
    ensures Bubble(overlap, s, i) == s
  {
    BlockedIs(overlap, s, s[i], i + 1, i + 1);
  }

  lemma ShiftedNodes(s: seq<Node>, i: nat)
    requires i < |s| && Distinct(s)
    ensures var l := Without(s, i); Distinct(l) && |l| == |s| - 1 && forall k :: 0 <= k < |l| ==> l[k] == if k < i then s[k] else s[k + 1]
  {
  }

  /** Where the node at place `k` came from. */
  function Origin(i: nat, j: nat, k: int): int {
    var m := if k < j then k else k - 1;
    if m < i then m else m + 1
  }

  /** The nodes of the list once the one at `i` is out and `n` is before place `j` of the rest. */
  function Moved(s: seq<Node>, i: nat, j: nat, n: Node): seq<Node>
    requires i < |s| && j < |s|
  {
    Without(s, i)[..j] + [n] + Without(s, i)[j..]
  }

  lemma MovedNodes(s: seq<Node>, i: nat, j: nat, n: Node)
    requires Distinct(s) && i < |s| && n !in s && j < |s|
    ensures var t := Moved(s, i, j, n);
      Distinct(t) && |t| == |s| && t[j] == n && forall k :: 0 <= k < |s| && k != j ==> t[k] == s[Origin(i, j, k)] && Origin(i, j, k) != i
  {
    ShiftedNodes(s, i);
  }

  lemma ItemsConcat(s: seq<Node>, t: seq<Node>)
    ensures Items(s + t) == Items(s) + Items(t)
  {
  }

  lemma ItemsSlice(s: seq<Node>, i: nat, j: nat)
    requires i <= j <= |s|
    ensures Items(s[i..j]) == Items(s)[i..j]
  {
  }

  lemma WithoutSlices<T>(s: seq<T>, i: nat, j: nat)
    requires i <= j < |s|
    ensures Without(s, i)[..j] == s[0..i] + s[i + 1..j + 1] && Without(s, i)[j..] == s[j + 1..|s|]
  {
  }

  /** The windows of the list, in the four parts of a bubble. */
  lemma MovedParts(s: seq<Node>, i: nat, j: nat, n: Node)
    requires i <= j < |s| && n.item == s[i].item
    ensures var t := Items(s); Items(Moved(s, i, j, n)) == t[..i] + t[i + 1..j + 1] + [t[i]] + t[j + 1..]
  {
    WithoutSlices(s, i, j);
    var a, b, c, d := s[0..i], s[i + 1..j + 1], [n], s[j + 1..|s|];
    ItemsConcat(a + b + c, d);
    ItemsConcat(a + b, c);
    ItemsConcat(a, b);
    ItemsSlice(s, 0, i);
    ItemsSlice(s, i + 1, j + 1);
    ItemsSlice(s, j + 1, |s|);
    assert Items(c) == [s[i].item];
  }

  lemma MovedItems(overlap: (Window, Window) -> bool, s: seq<Node>, i: nat, j: nat, n: Node)
    requires Distinct(s) && i < |s| && n.item == s[i].item && i <= j < |s|
    requires var l := Without(s, i); (forall k :: i <= k < j ==> !overlap(n.item, l[k].item)) && (j < |l| ==> overlap(n.item, l[j].item))
    ensures Items(Moved(s, i, j, n)) == Bubble(overlap, Items(s), i)
  {
    MovedParts(s, i, j, n);
    BlockedAt(overlap, s, i, j, n.item);
  }

  lemma BlockedAt(overlap: (Window, Window) -> bool, s: seq<Node>, i: nat, j: nat, w: Window)
    requires Distinct(s) && i <= j < |s|
    requires var l := Without(s, i); (forall k :: i <= k < j ==> !overlap(w, l[k].item)) && (j < |l| ==> overlap(w, l[j].item))
    ensures Blocked(overlap, Items(s), w, i + 1) == j + 1
  {
    var l := Without(s, i);
    ShiftedNodes(s, i);
    forall k | i + 1 <= k < j + 1 ensures !overlap(w, Items(s)[k]) {
      assert l[k - 1] == s[k];
    }
    BlockedIs(overlap, Items(s), w, i + 1, j + 1);
  }

  lemma RotatedBack(s: seq<Node>, n: Node)
    requires s != [] && Distinct(s) && n !in s && n.item == s[|s| - 1].item
    ensures var t := ([n] + s)[..|s|];
      Distinct(t) && Items(t) == Prev(Items(s)) && t[0] == n && forall k :: 0 < k < |t| ==> t[k] == s[k - 1]
  {
  }

  lemma ExposeFront<W>(s: seq<W>)
    requires s != []
    ensures Expose(s, |s| - 1) == s
  {
  }

  /** push_back and then erase. */
  lemma ErasedFirst(s: seq<Node>, n: Node, old': Node)
    requires old' in s
    ensures old' in s + [n] && Erased(s + [n], old') == Without(s, Place(s, old')) + [n]
  {
    PlaceOfFirst(s, [n], old');
  }

  lemma MovedToFront(s: seq<Node>, i: nat, n: Node)
    requires Distinct(s) && i < |s| && n !in s && n.item == s[i].item
    ensures var t := Without(s, i) + [n]; Distinct(t) && Items(t) == Expose(Items(s), i)
    ensures var t := Without(s, i) + [n]; forall k :: 0 <= k < |t| - 1 ==> t[k] == if k < i then s[k] else s[k + 1]
  {
  }

  lemma {:induction false} PlaceOfFirst(s: seq<Node>, t: seq<Node>, n: Node)
    requires n in s
    ensures n in s + t && Place(s + t, n) == Place(s, n)
  {
    if s[0] != n {
      assert (s + t)[1..] == s[1..] + t;
      PlaceOfFirst(s[1..], t, n);
    }
  }

  /** No point of the screen shows another window after a bubble, whatever is hidden and whatever the layers are. */
  lemma BubbleUnseen<W>(region: W -> Rect, shown: W -> bool, layer: W -> nat, s: seq<W>, i: nat, x: int, y: int)
    requires i < |s|
    ensures var overlap := (v: W, w: W) => Overlap(region(v), region(w));
            var covers := (w: W) => shown(w) && Contains(region(w), x, y);
            TopAt(layer, covers, Bubble(overlap, s, i)) == TopAt(layer, covers, s)
  {
    var overlap := (v: W, w: W) => Overlap(region(v), region(w));
    var covers := (w: W) => shown(w) && Contains(region(w), x, y);
    BubbleKeepsTop(overlap, layer, covers, s, i);
  }
}
