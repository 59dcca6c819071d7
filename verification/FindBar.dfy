/** The query editor of the find bar of term.hpp: a byte string with a caret counted in codepoints, and the list of
    characters it stands for. */
module FindBar {
  import opened Utf8
  import L = FindLayout

  const UP: int := -1
  const DOWN: int := 1

  /** What the user sees: a list of characters, and a caret between them. */
  datatype Editor<T> = Editor(text: seq<T>, caret: nat, scroll: nat, dir: int) {
    predicate Ok() {
      caret <= |text| && (dir == UP || dir == DOWN)
    }
  }

  function Insert<T>(ed: Editor<T>, t: seq<T>): (r: Editor<T>)
    requires ed.Ok()
    ensures r.Ok()
  {
    ed.(text := ed.text[..ed.caret] + t + ed.text[ed.caret..], caret := ed.caret + |t|)
  }

  /** The characters from `a` to `b` gone; the caret stays with the characters around it. */
  function Erase<T>(ed: Editor<T>, a: nat, b: nat): (r: Editor<T>)
    requires a <= b <= |ed.text|
    ensures ed.Ok() ==> r.Ok()
  {
    ed.(text := ed.text[..a] + ed.text[b..],
        caret := if ed.caret >= b then ed.caret - (b - a) else if ed.caret > a then a else ed.caret)
  }

  /** The characters gone that are in the range from `a` to `b`, which may reach beyond the text or be reversed. */
  function Erased<T>(ed: Editor<T>, a: int, b: int): (r: Editor<T>)
  {
    var first, last := if a < 0 then 0 else a, if b > |ed.text| then |ed.text| else b;
    if first < last then Erase(ed, first, last) else ed
  }

  lemma ErasedWithin<T>(ed: Editor<T>, a: nat, b: nat)
    requires a <= b <= |ed.text|
    ensures Erased(ed, a, b) == Erase(ed, a, b)
  {
    assert ed.text[..a] + ed.text[a..] == ed.text;
  }

  /** The start of the longest run before `cp` of characters with the property. */
  function SkipBack<T>(p: T -> bool, text: seq<T>, cp: nat): (r: nat)
    requires cp <= |text|
    ensures r <= cp && (forall i :: r <= i < cp ==> p(text[i])) && (r > 0 ==> !p(text[r - 1]))
  {
    if cp > 0 && p(text[cp - 1]) then SkipBack(p, text, cp - 1) else cp
  }

  /** The end of the longest run from `cp` on. */
  function SkipForward<T>(p: T -> bool, text: seq<T>, cp: nat): (r: nat)
    requires cp <= |text|
    ensures cp <= r <= |text| && (forall i :: cp <= i < r ==> p(text[i])) && (r < |text| ==> !p(text[r]))
    decreases |text| - cp
  {
    if cp < |text| && p(text[cp]) then SkipForward(p, text, cp + 1) else cp
  }

  function Not<T>(p: T -> bool): T -> bool {
    c => !p(c)
  }

  /** Back over white space, and then over the word before it. */
  function PrevWord<T>(space: T -> bool, text: seq<T>, cp: nat): (r: nat)
    requires cp <= |text|
    ensures r <= cp
  {
    SkipBack(Not(space), text, SkipBack(space, text, cp))
  }

  function NextWord<T>(space: T -> bool, text: seq<T>, cp: nat): (r: nat)
    requires cp <= |text|
    ensures cp <= r <= |text|
  {
    SkipForward(Not(space), text, SkipForward(space, text, cp))
  }

  /** The characters whose first byte is a space or a tab. */
  function SpaceOf<T>(enc: T -> seq<Octet>): T -> bool {
    c => First(enc(c)) == 0x20 || First(enc(c)) == 0x09
  }

  /** White space is a character that is a space or a tab. */
  lemma SpaceIs(c: Scalar)
    ensures SpaceOf(EncodeScalar)(c) <==> c == 32 || c == 9
  {
    assert First(EncodeScalar(c)) == if c < 0x80 then c else EncodeScalar(c)[0];
    var enc: Scalar -> seq<Octet> := EncodeScalar;
    assert enc(c) == EncodeScalar(c);
  }

  datatype Key = Esc | Backspace | Delete | A | B | D | E | F | H | K | N | P | U | W | Y
               | Left | Right | Home | End | Enter | ArrowUp | ArrowDown | Tab | Other

  /** What a key press does. */
  datatype Action = CloseBar | KillWordBack | DeleteBack | KillWordForward | DeleteForward | ToStart | ToEnd | ToLeft | ToRight
                  | KillToEnd | KillToStart | ToPrevWord | ToNextWord | Fire(dir: int) | Toggle | Yank | Typed | Ignored

  /** The chain of tests of the key handler; `typed` is whether the key comes with text. */
  function Binding(k: Key, ctrl: bool, alt: bool, shift: bool, typed: bool, dir: int): (r: Action)
    ensures dir != 0 && r.Fire? ==> r.dir != 0
  {
    if k == Esc then CloseBar
    else if k == Backspace then (if alt then KillWordBack else DeleteBack)
    else if k == Delete then (if alt then KillWordForward else DeleteForward)
    else if ctrl && !alt && k == A then ToStart
    else if ctrl && !alt && k == E then ToEnd
    else if ctrl && !alt && k == B then ToLeft
    else if ctrl && !alt && k == F then ToRight
    else if ctrl && !alt && k == D then DeleteForward
    else if ctrl && !alt && k == H then DeleteBack
    else if ctrl && !alt && k == K then KillToEnd
    else if ctrl && !alt && k == U then KillToStart
    else if ctrl && !alt && k == W then KillWordBack
    else if alt && !ctrl && k == B then ToPrevWord
    else if alt && !ctrl && k == F then ToNextWord
    else if alt && !ctrl && k == D then KillWordForward
    else if k == Left then ToLeft
    else if k == Right then ToRight
    else if k == Home then ToStart
    else if k == End then ToEnd
    else if k == Enter then Fire(if shift then -dir else dir)
    else if k == ArrowUp then Fire(UP)
    else if k == ArrowDown then Fire(DOWN)
    else if ctrl && !alt && k == P then Fire(UP)
    else if ctrl && !alt && k == N then Fire(DOWN)
    else if !ctrl && !alt && !shift && k == Tab then Toggle
    else if ctrl && !alt && k == Y then Yank
    else if !ctrl && !alt && typed then Typed
    else Ignored
  }

  /** The action on the list of characters. */
  function Apply<T>(enc: T -> seq<Octet>, ed: Editor<T>, act: Action, cluster: seq<T>, clipboard: seq<T>): (r: Editor<T>)
    requires ed.Ok()
    ensures r.Ok()
  {
    var n, c, space := |ed.text|, ed.caret, SpaceOf(enc);
    match act
    case KillWordBack => Erase(ed, PrevWord(space, ed.text, c), c)
    case DeleteBack => if c > 0 then Erase(ed, c - 1, c) else ed
    case KillWordForward => Erase(ed, c, NextWord(space, ed.text, c))
    case DeleteForward => if c < n then Erase(ed, c, c + 1) else ed
    case ToStart => ed.(caret := 0)
    case ToEnd => ed.(caret := n)
    case ToLeft => if c > 0 then ed.(caret := c - 1) else ed
    case ToRight => if c < n then ed.(caret := c + 1) else ed
    case KillToEnd => Erase(ed, c, n)
    case KillToStart => Erase(ed, 0, c)
    case ToPrevWord => ed.(caret := PrevWord(space, ed.text, c))
    case ToNextWord => ed.(caret := NextWord(space, ed.text, c))
    case Toggle => ed.(dir := if ed.dir == UP then DOWN else UP)
    case Yank => Insert(ed, Kept(enc, clipboard))
    case Typed => if cluster != [] && !IsControl(enc, cluster[0]) then Insert(ed, cluster) else ed
    case _ => ed
  }

  /** A search request to the terminal. */
  datatype Request<T> = Request(query: seq<T>, dir: int)

  /** The requests a key press sends: one for a direction it asks for, otherwise one if the text has changed. */
  ghost function Requests<T>(ed: Editor<T>, after: Editor<T>, act: Action): seq<Request<T>> {
    if act.Fire? then [Request(after.text, act.dir)]
    else if act.Toggle? || after.text != ed.text then [Request(after.text, after.dir)]
    else []
  }

  /** Only the actions that insert look at the texts. */
  lemma PlainApply<T>(enc: T -> seq<Octet>, ed: Editor<T>, act: Action, cs: seq<T>, board: seq<T>)
    requires ed.Ok()
    ensures !act.Yank? && !act.Typed? ==> Apply(enc, ed, act, cs, board) == Apply(enc, ed, act, [], [])
    ensures !act.Yank? && !act.Typed? && !IsDelete(act) ==> Apply(enc, ed, act, cs, board).text == ed.text
  {
  }

  // What erasing and inserting are, and what every key is bound to.

  /** The characters outside the range stay in their order, and the caret stays with the character before or behind it. */
  lemma EraseIs<T>(ed: Editor<T>, a: nat, b: nat)
    requires ed.Ok() && a <= b <= |ed.text|
    ensures var r := Erase(ed, a, b);
      && |r.text| == |ed.text| - (b - a) && (forall i :: 0 <= i < a ==> r.text[i] == ed.text[i])
      && (forall i :: b <= i < |ed.text| ==> r.text[i - (b - a)] == ed.text[i])
      && (ed.caret <= a ==> r.caret == ed.caret) && (a <= ed.caret <= b ==> r.caret == a) && (b <= ed.caret ==> r.caret == ed.caret - (b - a))
      && r.scroll == ed.scroll && r.dir == ed.dir
  {
  }

  /** The text is put in before the character at the caret, which goes behind it. */
  lemma InsertIs<T>(ed: Editor<T>, t: seq<T>)
    requires ed.Ok()
    ensures var r := Insert(ed, t);
      && |r.text| == |ed.text| + |t| && (forall i :: 0 <= i < ed.caret ==> r.text[i] == ed.text[i])
      && (forall i :: 0 <= i < |t| ==> r.text[ed.caret + i] == t[i])
      && (forall i :: ed.caret <= i < |ed.text| ==> r.text[i + |t|] == ed.text[i])
      && r.caret == ed.caret + |t| && r.scroll == ed.scroll && r.dir == ed.dir
  {
  }

  /** The action of every key. */
  lemma BoundMoves(k: Key, ctrl: bool, alt: bool, shift: bool, typed: bool, dir: int)
    ensures var act := Binding(k, ctrl, alt, shift, typed, dir);
      && (k == Home || (ctrl && !alt && k == A) ==> act == ToStart) && (k == End || (ctrl && !alt && k == E) ==> act == ToEnd)
      && (k == Left || (ctrl && !alt && k == B) ==> act == ToLeft) && (k == Right || (ctrl && !alt && k == F) ==> act == ToRight)
      && (!ctrl && alt && k == B ==> act == ToPrevWord) && (!ctrl && alt && k == F ==> act == ToNextWord) && (k == Esc <==> act == CloseBar)
      && (k == Enter ==> act == Fire(if shift then -dir else dir)) && (k == ArrowUp || (ctrl && !alt && k == P) ==> act == Fire(-1))
      && (k == ArrowDown || (ctrl && !alt && k == N) ==> act == Fire(1)) && (k == Tab && !ctrl && !alt && !shift ==> act == Toggle)
  {
  }

  lemma BoundEdits(k: Key, ctrl: bool, alt: bool, shift: bool, typed: bool, dir: int)
    ensures var act := Binding(k, ctrl, alt, shift, typed, dir);
      && ((k == Backspace && !alt) || (ctrl && !alt && k == H) ==> act == DeleteBack)
      && ((k == Delete && !alt) || (ctrl && !alt && k == D) ==> act == DeleteForward)
      && ((k == Backspace && alt) || (ctrl && !alt && k == W) ==> act == KillWordBack)
      && ((k == Delete && alt) || (!ctrl && alt && k == D) ==> act == KillWordForward)
      && (ctrl && !alt && k == K ==> act == KillToEnd) && (ctrl && !alt && k == U ==> act == KillToStart)
  {
  }

  lemma BoundRest(k: Key, ctrl: bool, alt: bool, shift: bool, typed: bool, dir: int)
    requires k in {A, B, D, E, F, H, K, N, P, U, W, Y, Other, Tab}
    ensures var act := Binding(k, ctrl, alt, shift, typed, dir);
      && (ctrl && !alt && k == Y ==> act == Yank) && (!ctrl && !alt && typed && (k == Tab ==> shift) ==> act == Typed)
      && ((ctrl && alt) || (ctrl && k in {Other, Tab}) || (alt && k !in {B, D, F}) || (!ctrl && !alt && !typed && (k == Tab ==> shift)) ==> act == Ignored)
  {
  }

  /** What a key press makes of the editor, and what it sends. */
  ghost function Pressed<T>(enc: T -> seq<Octet>, ed: Editor<T>, k: Key, ctrl: bool, alt: bool, shift: bool, cs: seq<T>, board: seq<T>)
    : (r: (Editor<T>, seq<Request<T>>))
    requires ed.Ok()
  {
    var act := Binding(k, ctrl, alt, shift, cs != [], ed.dir);
    var after := Apply(enc, ed, act, cs, board);
    (after, Requests(ed, after, act))
  }

  /** What the keys that move the caret make of the editor. */
  ghost predicate KeyMoves<T>(enc: T -> seq<Octet>, ed: Editor<T>, k: Key, ctrl: bool, alt: bool, after: Editor<T>)
    requires ed.Ok()
  {
    && (k == Home || (ctrl && !alt && k == A) ==> after == ed.(caret := 0))
    && (k == End || (ctrl && !alt && k == E) ==> after == ed.(caret := |ed.text|))
    && (k == Left || (ctrl && !alt && k == B) ==> after == ed.(caret := if ed.caret > 0 then ed.caret - 1 else 0))
    && (k == Right || (ctrl && !alt && k == F) ==> after == ed.(caret := if ed.caret < |ed.text| then ed.caret + 1 else |ed.text|))
    && (!ctrl && alt && k == B ==> after == ed.(caret := PrevWord(SpaceOf(enc), ed.text, ed.caret)))
    && (!ctrl && alt && k == F ==> after == ed.(caret := NextWord(SpaceOf(enc), ed.text, ed.caret)))
  }

  lemma MoveKeys<T>(enc: T -> seq<Octet>, ed: Editor<T>, k: Key, ctrl: bool, alt: bool, shift: bool, cs: seq<T>, board: seq<T>, after: Editor<T>, sent: seq<Request<T>>)
    requires ed.Ok() && (after, sent) == Pressed(enc, ed, k, ctrl, alt, shift, cs, board)
    ensures KeyMoves(enc, ed, k, ctrl, alt, after)
  {
    BoundMoves(k, ctrl, alt, shift, cs != [], ed.dir);
  }

  /** What the keys that erase do. */
  ghost predicate KeyErases<T>(enc: T -> seq<Octet>, ed: Editor<T>, k: Key, ctrl: bool, alt: bool, after: Editor<T>)
    requires ed.Ok()
  {
    && ((k == Backspace && !alt) || (ctrl && !alt && k == H) ==> after == if ed.caret == 0 then ed else Erase(ed, ed.caret - 1, ed.caret))
    && ((k.Delete? && !alt) || (ctrl && !alt && k == D) ==> after == if ed.caret == |ed.text| then ed else Erase(ed, ed.caret, ed.caret + 1))
    && (ctrl && !alt && k == K ==> after == Erase(ed, ed.caret, |ed.text|))
    && (ctrl && !alt && k == U ==> after == Erase(ed, 0, ed.caret))
    && ((k == Backspace && alt) || (ctrl && !alt && k == W) ==> after == Erase(ed, PrevWord(SpaceOf(enc), ed.text, ed.caret), ed.caret))
    && ((k.Delete? && alt) || (!ctrl && alt && k == D) ==> after == Erase(ed, ed.caret, NextWord(SpaceOf(enc), ed.text, ed.caret)))
  }

  lemma EraseKeys<T>(enc: T -> seq<Octet>, ed: Editor<T>, k: Key, ctrl: bool, alt: bool, shift: bool, cs: seq<T>, board: seq<T>, after: Editor<T>, sent: seq<Request<T>>)
    requires ed.Ok() && (after, sent) == Pressed(enc, ed, k, ctrl, alt, shift, cs, board)
    ensures KeyErases(enc, ed, k, ctrl, alt, after)
  {
    BoundEdits(k, ctrl, alt, shift, cs != [], ed.dir);
  }

  /** What the keys that insert do: the clipboard without its control characters, or what has been typed, unless it begins with one. */
  ghost predicate KeyInserts<T>(enc: T -> seq<Octet>, ed: Editor<T>, k: Key, ctrl: bool, alt: bool, shift: bool, cs: seq<T>, board: seq<T>, after: Editor<T>)
    requires ed.Ok()
  {
    && (ctrl && !alt && k == Y ==> after == Insert(ed, Kept(enc, board)))
    && (!ctrl && !alt && cs != [] && (k in {A, B, D, E, F, H, K, N, P, U, W, Y, Other} || (k == Tab && shift)) ==>
       after == if First(enc(cs[0])) >= 0x20 && First(enc(cs[0])) != 0x7f then Insert(ed, cs) else ed)
  }

  lemma InsertKeys<T>(enc: T -> seq<Octet>, ed: Editor<T>, k: Key, ctrl: bool, alt: bool, shift: bool, cs: seq<T>, board: seq<T>, after: Editor<T>, sent: seq<Request<T>>)
    requires ed.Ok() && (after, sent) == Pressed(enc, ed, k, ctrl, alt, shift, cs, board)
    ensures KeyInserts(enc, ed, k, ctrl, alt, shift, cs, board, after)
  {
    if k in {A, B, D, E, F, H, K, N, P, U, W, Y, Other, Tab} {
      BoundRest(k, ctrl, alt, shift, cs != [], ed.dir);
    }
  }

  /** The keys that search, the one that turns the direction, and those that do nothing. */
  ghost predicate KeySearches<T>(ed: Editor<T>, k: Key, ctrl: bool, alt: bool, shift: bool, cs: seq<T>, after: Editor<T>, sent: seq<Request<T>>) {
    && (k == Enter ==> after == ed && sent == [Request(ed.text, if shift then -ed.dir else ed.dir)])
    && (k == ArrowUp || (ctrl && !alt && k == P) ==> after == ed && sent == [Request(ed.text, -1)])
    && (k == ArrowDown || (ctrl && !alt && k == N) ==> after == ed && sent == [Request(ed.text, 1)])
    && (k == Tab && !ctrl && !alt && !shift ==> after == ed.(dir := -ed.dir) && sent == [Request(ed.text, -ed.dir)])
    && (k == Esc ==> after == ed)
    && (k in {A, B, D, E, F, H, K, N, P, U, W, Y, Other, Tab} &&
       ((ctrl && alt) || (ctrl && k in {Other, Tab}) || (alt && k !in {B, D, F}) || (!ctrl && !alt && cs == [] && (k == Tab ==> shift)))
       ==> after == ed)
  }

  lemma SearchKeys<T>(enc: T -> seq<Octet>, ed: Editor<T>, k: Key, ctrl: bool, alt: bool, shift: bool, cs: seq<T>, board: seq<T>, after: Editor<T>, sent: seq<Request<T>>)
    requires ed.Ok() && (after, sent) == Pressed(enc, ed, k, ctrl, alt, shift, cs, board)
    ensures KeySearches(ed, k, ctrl, alt, shift, cs, after, sent)
  {
    BoundMoves(k, ctrl, alt, shift, cs != [], ed.dir);
    if k in {A, B, D, E, F, H, K, N, P, U, W, Y, Other, Tab} {
      BoundRest(k, ctrl, alt, shift, cs != [], ed.dir);
    }
  }

  /** What the keys that are not for searching send: the text, if it is another one. */
  ghost predicate KeyReports<T>(ed: Editor<T>, k: Key, ctrl: bool, alt: bool, shift: bool, after: Editor<T>, sent: seq<Request<T>>) {
    k !in {Enter, ArrowUp, ArrowDown} && !(ctrl && !alt && k in {P, N}) && !(k == Tab && !ctrl && !alt && !shift) ==>
       sent == if after.text != ed.text then [Request(after.text, ed.dir)] else []
  }

  lemma OtherSends<T>(enc: T -> seq<Octet>, ed: Editor<T>, k: Key, ctrl: bool, alt: bool, shift: bool, cs: seq<T>, board: seq<T>, after: Editor<T>, sent: seq<Request<T>>)
    requires ed.Ok() && (after, sent) == Pressed(enc, ed, k, ctrl, alt, shift, cs, board)
    ensures KeyReports(ed, k, ctrl, alt, shift, after, sent)
  {
    BoundMoves(k, ctrl, alt, shift, cs != [], ed.dir);
  }

  /** The cells for text: the clear button takes three when it is there. */
  function EffectiveWidth<T>(ed: Editor<T>, l: L.Layout): int {
    if ed.text != [] && l.clearFits then l.inputW - L.BTN_WIDTH else l.inputW
  }

  function ZoneAt<T>(ed: Editor<T>, outerW: int, mx: int, my: int): L.Zone {
    var layout := L.LayoutOf(outerW);
    if my != 1 || layout.None? then L.Nowhere
    else L.ClickZone(layout.value, ed.text != [] && layout.value.clearFits, mx)
  }

  /** A click on the list of characters. */
  function Clicked<T>(ed: Editor<T>, outerW: int, mx: int, my: int): (r: Editor<T>)
    requires ed.Ok()
    ensures r.Ok()
  {
    match ZoneAt(ed, outerW, mx, my)
    case Up => ed.(dir := UP)
    case Down => ed.(dir := DOWN)
    case Clear => Editor([], 0, 0, ed.dir)
    case Input =>
      var l := L.LayoutOf(outerW).value;
      var rel := mx - l.inputX0;
      var cell := if rel >= EffectiveWidth(ed, l) then EffectiveWidth(ed, l) - 1 else rel;
      L.PartsTileTheBar(outerW, mx);
      ed.(caret := if ed.scroll + cell > |ed.text| then |ed.text| else ed.scroll + cell)
    case _ => ed
  }

  function ClickRequests<T>(ed: Editor<T>, after: Editor<T>, outerW: int, mx: int, my: int): seq<Request<T>>
  {
    var z := ZoneAt(ed, outerW, mx, my);
    if z == L.Up || z == L.Down || z == L.Clear then [Request(after.text, after.dir)] else []
  }

  /** What a click does, by its column: the close button, the arrows, the clear button at the end of the input, and the input. */
  lemma ClickParts<T>(ed: Editor<T>, outerW: int, mx: int)
    requires ed.Ok() && outerW >= 10
    ensures var r := Clicked(ed, outerW, mx, 1); var sent := ClickRequests(ed, r, outerW, mx, 1); var close := ZoneAt(ed, outerW, mx, 1) == L.Close;
            var last := outerW - if outerW >= 30 then 22 else if outerW >= 24 then 16 else 5;
            var clear := outerW >= 13 && ed.text != [];
      && (close <==> outerW - 4 <= mx <= outerW - 2) && (close ==> r == ed && sent == [])
      && (outerW >= 30 && outerW - 10 <= mx <= outerW - 8 ==> r == ed.(dir := -1) && sent == [Request(ed.text, -1)])
      && (outerW >= 30 && outerW - 7 <= mx <= outerW - 5 ==> r == ed.(dir := 1) && sent == [Request(ed.text, 1)])
      && (clear && last - 2 <= mx <= last ==> r == Editor([], 0, 0, ed.dir) && sent == [Request([], ed.dir)])
      && (2 <= mx <= last && !(clear && mx >= last - 2) ==>
            r == ed.(caret := if ed.scroll + mx - 2 > |ed.text| then |ed.text| else ed.scroll + mx - 2) && sent == [])
      && (mx < 2 || (last < mx && !(outerW >= 30 && outerW - 10 <= mx <= outerW - 5)) ==> r == ed && sent == [])
  {
    L.LayoutIs(outerW);
    L.PartsTileTheBar(outerW, mx);
  }

  /** A click that is not on the middle row, or on a bar that is too narrow, does nothing. */
  lemma ClickBeside<T>(ed: Editor<T>, outerW: int, mx: int, my: int)
    requires ed.Ok() && (my != 1 || outerW < 10)
    ensures var r := Clicked(ed, outerW, mx, my); r == ed && ClickRequests(ed, r, outerW, mx, my) == [] && ZoneAt(ed, outerW, mx, my) != L.Close
  {
  }

  /** Drawing the bar scrolls as little as brings the caret into the cells for text. */
  function Rendered<T>(ed: Editor<T>, outerW: int): (r: Editor<T>)
    requires ed.Ok()
    ensures r.Ok()
  {
    var layout := L.LayoutOf(outerW);
    if layout.None? then ed else
      var w := EffectiveWidth(ed, layout.value);
      L.PartsTileTheBar(outerW, 0);
      ed.(scroll := ScrollFor(ed.caret, ed.scroll, w))
  }

  function ScrollFor(caret: nat, scroll: nat, w: int): nat
    requires w > 0
  {
    if scroll > caret then caret else if caret - scroll >= w then caret - w + 1 else scroll
  }

  /** Afterwards the caret is in the window of `w` cells, which has not moved if it was, and otherwise has it in the nearest cell. */
  lemma ScrollIs(caret: nat, scroll: nat, w: int)
    requires w > 0
    ensures var r := ScrollFor(caret, scroll, w);
      && r <= caret < r + w && (scroll <= caret < scroll + w ==> r == scroll)
      && (caret < scroll ==> r == caret) && (scroll + w <= caret ==> r == caret - w + 1)
  {
  }

  /** The characters from the scroll position on that fit. */
  function VisibleText<T>(ed: Editor<T>, outerW: int): seq<T> {
    var layout := L.LayoutOf(outerW);
    if layout.None? then [] else FromScroll(ed.text, ed.scroll, EffectiveWidth(ed, layout.value))
  }

  function FromScroll<T>(text: seq<T>, scroll: nat, w: int): seq<T> {
    var a := Clamp(scroll, |text|);
    text[a..a + Clamp(w, |text| - a)]
  }

  lemma VisibleIs<T>(text: seq<T>, scroll: nat, w: int)
    requires w > 0
    ensures var r := FromScroll(text, scroll, w);
      && |r| == (if |text| <= scroll then 0 else if |text| - scroll < w then |text| - scroll else w)
      && forall i :: 0 <= i < |r| ==> r[i] == text[scroll + i]
  {
  }

  /** Drawing, in numbers: how many cells there are, that the caret is in one of them and the text has moved as little as that takes,
      and which characters are drawn. */
  lemma RenderedIn<T>(ed: Editor<T>, outerW: int)
    requires ed.Ok() && outerW >= 10
    ensures var r := Rendered(ed, outerW); var seen := VisibleText(r, outerW);
            var cells := outerW - (if outerW >= 30 then 23 else if outerW >= 24 then 17 else 6) - if outerW >= 13 && ed.text != [] then 3 else 0;
      && r == ed.(scroll := r.scroll) && r.scroll <= r.caret < r.scroll + cells
      && (ed.scroll <= ed.caret < ed.scroll + cells ==> r.scroll == ed.scroll) && (ed.caret < ed.scroll ==> r.scroll == ed.caret)
      && (ed.scroll + cells <= ed.caret ==> r.scroll == ed.caret - cells + 1)
      && |seen| == (if |ed.text| - r.scroll < cells then |ed.text| - r.scroll else cells)
      && forall i :: 0 <= i < |seen| ==> seen[i] == ed.text[r.scroll + i]
  {
    L.LayoutIs(outerW);
    var w := EffectiveWidth(ed, L.LayoutOf(outerW).value);
    RenderedIs(ed, outerW, w);
    ScrollIs(ed.caret, ed.scroll, w);
    VisibleIs(ed.text, ScrollFor(ed.caret, ed.scroll, w), w);
  }

  lemma RenderedIs<T>(ed: Editor<T>, outerW: int, w: int)
    requires ed.Ok() && L.LayoutOf(outerW).Some? && w == EffectiveWidth(ed, L.LayoutOf(outerW).value)
    ensures w > 0 && Rendered(ed, outerW) == ed.(scroll := ScrollFor(ed.caret, ed.scroll, w))
    ensures VisibleText(Rendered(ed, outerW), outerW) == FromScroll(ed.text, ScrollFor(ed.caret, ed.scroll, w), w)
  {
    L.PartsTileTheBar(outerW, 0);
  }

  /** The column where the caret is drawn. */
  function CaretColumn<T>(ed: Editor<T>, l: L.Layout): int {
    l.inputX0 + (ed.caret - ed.scroll)
  }

  /** Once drawn, the caret is inside the cells for text, and a click on its cell leaves everything as it is. */
  lemma ClickOnCaret<T>(ed: Editor<T>, outerW: int)
    requires ed.Ok() && outerW >= L.MIN_BAR_COLS
    ensures var (r, l) := (Rendered(ed, outerW), L.LayoutOf(outerW).value);
            0 <= CaretColumn(r, l) - l.inputX0 < EffectiveWidth(r, l) && Clicked(r, outerW, CaretColumn(r, l), 1) == r
  {
    L.PartsTileTheBar(outerW, CaretColumn(Rendered(ed, outerW), L.LayoutOf(outerW).value));
  }

  /** A click on the cell of a visible character puts the caret before that character, and drawing does not move it away. */
  lemma ClickOnCharacter<T>(ed: Editor<T>, outerW: int, i: nat)
    requires ed.Ok() && outerW >= L.MIN_BAR_COLS && ed == Rendered(ed, outerW) && i < |VisibleText(ed, outerW)|
    ensures var r := Clicked(ed, outerW, L.LayoutOf(outerW).value.inputX0 + i, 1);
            r.caret < |r.text| && r.text[r.caret] == VisibleText(ed, outerW)[i] && r == ed.(caret := ed.scroll + i) == Rendered(r, outerW)
  {
    L.PartsTileTheBar(outerW, L.LayoutOf(outerW).value.inputX0 + i);
  }

  lemma EncodeInsert<T>(enc: T -> seq<Octet>, text: seq<T>, k: nat, t: seq<T>)
    requires k <= |text|
    ensures Offset(enc, text, k) <= |Encode(enc, text)|
    ensures Encode(enc, text)[..Offset(enc, text, k)] + Encode(enc, t) + Encode(enc, text)[Offset(enc, text, k)..]
         == Encode(enc, text[..k] + t + text[k..])
  {
    OffsetSplits(enc, text, k);
    EncodeConcat(enc, text[..k], t);
    EncodeConcat(enc, text[..k] + t, text[k..]);
  }

  lemma EncodeErase<T>(enc: T -> seq<Octet>, text: seq<T>, a: nat, b: nat)
    requires a <= b <= |text|
    ensures Offset(enc, text, a) <= Offset(enc, text, b) <= |Encode(enc, text)|
    ensures Encode(enc, text)[..Offset(enc, text, a)] + Encode(enc, text)[Offset(enc, text, b)..] == Encode(enc, text[..a] + text[b..])
  {
    OffsetSplits(enc, text, a);
    OffsetSplits(enc, text, b);
    EncodeSlice(enc, text, a, b);
    EncodeConcat(enc, text[..a], text[b..]);
  }

  predicate IsDelete(act: Action) {
    act in {KillWordBack, DeleteBack, KillWordForward, DeleteForward, KillToEnd, KillToStart}
  }

  /** The requests that are sent carry the bytes of the requests on characters. */
  ghost predicate AreEncoded<T>(enc: T -> seq<Octet>, sent: seq<Request<Octet>>, meant: seq<Request<T>>) {
    |sent| == |meant| && forall i :: 0 <= i < |sent| ==> sent[i] == Request(Encode(enc, meant[i].query), meant[i].dir)
  }

  /** The corrections render_bar makes to the caret and the scroll position. `edge` is whether the last one, for the right
      edge, has been made: it never is. */
  method BoundScroll(caretCp: int, scrollCp: int, total: nat, width: int) returns (caret: int, scroll: int, ghost edge: bool)
    requires width > 0
    ensures caret == Clamp(caretCp, total) && scroll == ScrollFor(caret, if scrollCp < 0 then 0 else scrollCp, width) && !edge
  {
    caret, scroll, edge := caretCp, scrollCp, false;
    if caret < 0 { caret := 0; }
    if caret > total { caret := total; }
    if scroll < 0 { scroll := 0; }
    if scroll > caret { scroll := caret; }
    if caret - scroll >= width {
      scroll := caret - width + 1;
    }
    if caret == total && total - scroll >= width {
      edge := true;
      scroll := total - width + 1;
      if scroll < 0 { scroll := 0; }
    }
  }

  /** The requests at the end of the key handler. */
  method Send<T>(query: seq<Octet>, dir: int, act: Action, queryChanged: bool, ghost enc: T -> seq<Octet>, ghost ed: Editor<T>, ghost after: Editor<T>)
    returns (requests: seq<Request<Octet>>)
    requires query == Encode(enc, after.text) && dir == after.dir && (act.Fire? ==> act.dir != 0 && !queryChanged) && (act.Toggle? ==> !queryChanged)
    requires queryChanged == (after.text != ed.text)
    ensures AreEncoded(enc, requests, Requests(ed, after, act))
  {
    var fire := if act.Fire? then act.dir else 0;
    requests := if act.Toggle? then [Request(query, dir)] else [];
    if queryChanged && fire == 0 {
      requests := requests + [Request(query, dir)];
    }
    if fire != 0 {
      requests := requests + [Request(query, fire)];
    }
  }

  /** The editor of a bar that has just been made: empty, and searching downwards. */
  function Fresh<T>(): (r: Editor<T>)
    ensures r.Ok()
  {
    Editor([], 0, 0, DOWN)
  }

  /** find_state. */
  class FindState {
    var query: seq<Octet>
    var caretCp: int
    var scrollCp: int
    var dir: int

    constructor ()
      ensures query == [] && caretCp == 0 && scrollCp == 0 && dir == DOWN
    {
      query, caretCp, scrollCp, dir := [], 0, 0, DOWN;
    }

    /** The fields are those of the editor, with the text encoded. */
    ghost predicate Shows<T(!new)>(enc: T -> seq<Octet>, ed: Editor<T>)
      reads this
    {
      IsEncoding(enc) && ed.Ok() && query == Encode(enc, ed.text) && caretCp == ed.caret && scrollCp == ed.scroll && dir == ed.dir
    }

    /** Bytes go into the query at the caret, and the caret moves behind them. */
    method InsertBytes<T(!new)>(buf: seq<Octet>, ghost enc: T -> seq<Octet>, ghost ed: Editor<T>, ghost t: seq<T>)
      requires Shows(enc, ed) && buf == Encode(enc, t)
      modifies this
      ensures Shows(enc, Insert(ed, t))
    {
      var pos := ByteOfCp(query, caretCp, enc, ed.text);
      EncodeInsert(enc, ed.text, ed.caret, t);
      query := query[..pos] + buf + query[pos..];
      var n := CpLen(buf, enc, t);
      caretCp := caretCp + n;
    }

    /** erase_cp_range: a range is cut to the text, and nothing is erased if it is empty then, or reversed. */
    method EraseCpRange<T(!new)>(fromCp: int, toCp: int, total: nat, ghost enc: T -> seq<Octet>, ghost ed: Editor<T>) returns (queryChanged: bool)
      requires Shows(enc, ed) && total == |ed.text|
      modifies this
      ensures Shows(enc, Erased(ed, fromCp, toCp)) && queryChanged == (Erased(ed, fromCp, toCp).text != ed.text)
    {
      var first, last := fromCp, toCp;
      if first < 0 { first := 0; }
      if last > total { last := total; }
      queryChanged := first < last;
      if first >= last {
        return;
      }
      var a := ByteOfCp(query, first, enc, ed.text);
      var b := ByteOfCp(query, last, enc, ed.text);
      EncodeErase(enc, ed.text, first, last);
      query := query[..a] + query[b..];
      if caretCp > last {
        caretCp := caretCp - (last - first);
      } else if caretCp > first {
        caretCp := first;
      }
    }

    /** The same for a range of the text. */
    method EraseWithin<T(!new)>(fromCp: nat, toCp: nat, total: nat, ghost enc: T -> seq<Octet>, ghost ed: Editor<T>) returns (queryChanged: bool)
      requires Shows(enc, ed) && fromCp <= toCp <= total == |ed.text|
      modifies this
      ensures Shows(enc, Erase(ed, fromCp, toCp)) && queryChanged == (Erase(ed, fromCp, toCp).text != ed.text)
    {
      ErasedWithin(ed, fromCp, toCp);
      queryChanged := EraseCpRange(fromCp, toCp, total, enc, ed);
    }

    /** is_ws_cp, of a codepoint of the query. */
    method IsSpaceAt<T(!new)>(cp: nat, ghost enc: T -> seq<Octet>, ghost ed: Editor<T>) returns (r: bool)
      requires Shows(enc, ed) && cp < |ed.text|
      ensures r == SpaceOf(enc)(ed.text[cp])
    {
      var i := ByteOfCp(query, cp, enc, ed.text);
      CharacterAt(enc, ed.text, cp);
      assert query[i] == query[i..Offset(enc, ed.text, cp + 1)][0];
      r := query[i] == 0x20 || query[i] == 0x09;
    }

    /** One of the two loops of prev_word_cp. */
    method ScanBack<T(!new)>(cp0: nat, want: bool, ghost enc: T -> seq<Octet>, ghost ed: Editor<T>) returns (cp: nat)
      requires Shows(enc, ed) && cp0 <= |ed.text|
      ensures cp == SkipBack(if want then SpaceOf(enc) else Not(SpaceOf(enc)), ed.text, cp0)
    {
      cp := cp0;
      ghost var p := if want then SpaceOf(enc) else Not(SpaceOf(enc));
      while cp > 0
        invariant cp <= cp0 && SkipBack(p, ed.text, cp0) == SkipBack(p, ed.text, cp)
      {
        var ws := IsSpaceAt(cp - 1, enc, ed);
        if ws != want {
          break;
        }
        cp := cp - 1;
      }
    }

    /** One of the two loops of next_word_cp. */
    method ScanForward<T(!new)>(cp0: nat, total: nat, want: bool, ghost enc: T -> seq<Octet>, ghost ed: Editor<T>) returns (cp: nat)
      requires Shows(enc, ed) && cp0 <= total == |ed.text|
      ensures cp == SkipForward(if want then SpaceOf(enc) else Not(SpaceOf(enc)), ed.text, cp0)
    {
      cp := cp0;
      ghost var p := if want then SpaceOf(enc) else Not(SpaceOf(enc));
      while cp < total
        invariant cp0 <= cp <= total && SkipForward(p, ed.text, cp0) == SkipForward(p, ed.text, cp)
      {
        var ws := IsSpaceAt(cp, enc, ed);
        if ws != want {
          break;
        }
        cp := cp + 1;
      }
    }

    method PrevWordCp<T(!new)>(cp: nat, ghost enc: T -> seq<Octet>, ghost ed: Editor<T>) returns (r: nat)
      requires Shows(enc, ed) && cp <= |ed.text|
      ensures r == PrevWord(SpaceOf(enc), ed.text, cp)
    {
      r := ScanBack(cp, true, enc, ed);
      r := ScanBack(r, false, enc, ed);
    }

    method NextWordCp<T(!new)>(cp: nat, total: nat, ghost enc: T -> seq<Octet>, ghost ed: Editor<T>) returns (r: nat)
      requires Shows(enc, ed) && cp <= total == |ed.text|
      ensures r == NextWord(SpaceOf(enc), ed.text, cp)
    {
      r := ScanForward(cp, total, true, enc, ed);
      r := ScanForward(r, total, false, enc, ed);
    }

    /** Backspace, and the other erasures of one codepoint. */
    method EraseOne<T(!new)>(cp: nat, ghost enc: T -> seq<Octet>, ghost ed: Editor<T>)
      requires Shows(enc, ed) && cp < |ed.text|
      modifies `query
      ensures query == Encode(enc, ed.text[..cp] + ed.text[cp + 1..])
    {
      var a := ByteOfCp(query, cp, enc, ed.text);
      var b := ByteOfCp(query, cp + 1, enc, ed.text);
      EncodeErase(enc, ed.text, cp, cp + 1);
      query := query[..a] + query[b..];
    }

    method BackspaceKey<T(!new)>(c: nat, ghost enc: T -> seq<Octet>, ghost ed: Editor<T>) returns (queryChanged: bool)
      requires Shows(enc, ed) && c == caretCp
      modifies this
      ensures var after := if c > 0 then Erase(ed, c - 1, c) else ed; Shows(enc, after) && queryChanged == (after.text != ed.text)
    {
      queryChanged := false;
      if c > 0 {
        EraseOne(c - 1, enc, ed);
        caretCp := c - 1;
        queryChanged := true;
      }
    }

    method DeleteKey<T(!new)>(c: nat, total: nat, ghost enc: T -> seq<Octet>, ghost ed: Editor<T>) returns (queryChanged: bool)
      requires Shows(enc, ed) && c == caretCp && total == |ed.text|
      modifies this
      ensures var after := if c < total then Erase(ed, c, c + 1) else ed; Shows(enc, after) && queryChanged == (after.text != ed.text)
    {
      queryChanged := false;
      if c < total {
        EraseOne(c, enc, ed);
        queryChanged := true;
      }
    }

    /** Pasted text, without its control characters. */
    method InsertFiltered<T(!new)>(src: seq<Octet>, ghost enc: T -> seq<Octet>, ghost ed: Editor<T>, ghost cs: seq<T>) returns (queryChanged: bool)
      requires Shows(enc, ed) && src == Encode(enc, cs)
      modifies this
      ensures Shows(enc, Insert(ed, Kept(enc, cs))) && queryChanged == (Insert(ed, Kept(enc, cs)).text != ed.text)
    {
      var buf := Filter(src, enc, cs);
      EncodeNonEmpty(enc, Kept(enc, cs));
      assert ed.text[..ed.caret] + [] + ed.text[ed.caret..] == ed.text;
      if buf != [] {
        InsertBytes(buf, enc, ed, Kept(enc, cs));
      }
      queryChanged := buf != [];
    }

    /** A typed cluster: it goes in whole, if it does not begin with a control character. */
    method InsertCluster<T(!new)>(cluster: seq<Octet>, ghost enc: T -> seq<Octet>, ghost ed: Editor<T>, ghost cs: seq<T>) returns (queryChanged: bool)
      requires Shows(enc, ed) && cluster == Encode(enc, cs)
      modifies this
      ensures var after := if cs != [] && !IsControl(enc, cs[0]) then Insert(ed, cs) else ed;
              Shows(enc, after) && queryChanged == (after.text != ed.text)
    {
      queryChanged := false;
      EncodeNonEmpty(enc, cs);
      if cluster != [] {
        EncodeCons(enc, cs);
        assert IsSequence(enc(cs[0]));
        var first := cluster[0];
        if first >= 0x20 && first != 0x7f {
          InsertBytes(cluster, enc, ed, cs);
          queryChanged := true;
        }
      }
    }

    /** The keys that erase. */
    method Delete<T(!new)>(act: Action, total: nat, ghost enc: T -> seq<Octet>, ghost ed: Editor<T>) returns (queryChanged: bool)
      requires Shows(enc, ed) && total == |ed.text| && IsDelete(act)
      modifies this
      ensures var after := Apply(enc, ed, act, [], []); Shows(enc, after) && queryChanged == (after.text != ed.text)
    {
      if act == KillWordBack || act == DeleteBack {
        queryChanged := DeleteBefore(act, total, enc, ed);
      } else {
        queryChanged := DeleteOther(act, total, enc, ed);
      }
    }

    method DeleteBefore<T(!new)>(act: Action, total: nat, ghost enc: T -> seq<Octet>, ghost ed: Editor<T>) returns (queryChanged: bool)
      requires Shows(enc, ed) && total == |ed.text| && (act == KillWordBack || act == DeleteBack)
      modifies this
      ensures var after := Apply(enc, ed, act, [], []); Shows(enc, after) && queryChanged == (after.text != ed.text)
    {
      var c: nat := caretCp;
      if act == KillWordBack {
        var w := PrevWordCp(c, enc, ed);
        queryChanged := EraseWithin(w, c, total, enc, ed);
      } else {
        queryChanged := BackspaceKey(c, enc, ed);
      }
    }

    method DeleteOther<T(!new)>(act: Action, total: nat, ghost enc: T -> seq<Octet>, ghost ed: Editor<T>) returns (queryChanged: bool)
      requires Shows(enc, ed) && total == |ed.text| && IsDelete(act) && act != KillWordBack && act != DeleteBack
      modifies this
      ensures var after := Apply(enc, ed, act, [], []); Shows(enc, after) && queryChanged == (after.text != ed.text)
    {
      var c: nat := caretCp;
      if act == KillWordForward {
        var w := NextWordCp(c, total, enc, ed);
        queryChanged := EraseWithin(c, w, total, enc, ed);
      } else if act == DeleteForward {
        queryChanged := DeleteKey(c, total, enc, ed);
      } else if act == KillToEnd {
        queryChanged := EraseWithin(c, total, total, enc, ed);
      } else {
        queryChanged := EraseWithin(0, c, total, enc, ed);
      }
    }

    /** The keys that move the caret or turn the direction. */
    method Move<T(!new)>(act: Action, total: nat, ghost enc: T -> seq<Octet>, ghost ed: Editor<T>)
      requires Shows(enc, ed) && total == |ed.text| && !IsDelete(act) && !act.Yank? && !act.Typed?
      modifies this
      ensures Shows(enc, Apply(enc, ed, act, [], []))
    {
      var c: nat := caretCp;
      match act
      case ToStart => caretCp := 0;
      case ToEnd => caretCp := total;
      case ToLeft =>
        if c > 0 {
          caretCp := c - 1;
        }
      case ToRight =>
        if c < total {
          caretCp := c + 1;
        }
      case ToPrevWord =>
        var w := PrevWordCp(c, enc, ed);
        caretCp := w;
      case ToNextWord =>
        var w := NextWordCp(c, total, enc, ed);
        caretCp := w;
      case Toggle => dir := if dir == UP then DOWN else UP;
      case _ =>
    }

    /** The body of the test of the key handler that leads to `act`. */
    method Perform<T(!new)>(act: Action, cluster: seq<Octet>, clipboard: seq<Octet>,
                            ghost enc: T -> seq<Octet>, ghost ed: Editor<T>, ghost cs: seq<T>, ghost board: seq<T>) returns (queryChanged: bool)
      requires Shows(enc, ed) && cluster == Encode(enc, cs) && clipboard == Encode(enc, board)
      modifies this
      ensures var after := Apply(enc, ed, act, cs, board); Shows(enc, after) && queryChanged == (after.text != ed.text)
    {
      queryChanged := false;
      PlainApply(enc, ed, act, cs, board);
      var total := CpLen(query, enc, ed.text);
      if IsDelete(act) {
        queryChanged := Delete(act, total, enc, ed);
      } else if act.Yank? {
        queryChanged := InsertFiltered(clipboard, enc, ed, board);
      } else if act.Typed? {
        queryChanged := InsertCluster(cluster, enc, ed, cs);
      } else {
        Move(act, total, enc, ed);
      }
    }

    /** The key handler, once the key has been looked up. */
    method React<T(!new)>(act: Action, cluster: seq<Octet>, clipboard: seq<Octet>,
                          ghost enc: T -> seq<Octet>, ghost ed: Editor<T>, ghost cs: seq<T>, ghost board: seq<T>)
      returns (requests: seq<Request<Octet>>, close: bool)
      requires Shows(enc, ed) && cluster == Encode(enc, cs) && clipboard == Encode(enc, board) && (act.Fire? ==> act.dir != 0)
      modifies this
      ensures var after := Apply(enc, ed, act, cs, board);
              Shows(enc, after) && AreEncoded(enc, requests, Requests(ed, after, act)) && close == act.CloseBar?
    {
      var queryChanged := Perform(act, cluster, clipboard, enc, ed, cs, board);
      ghost var after := Apply(enc, ed, act, cs, board);
      assert query == Encode(enc, after.text) && dir == after.dir;
      requests := Send(query, dir, act, queryChanged, enc, ed, after);
      close := act.CloseBar?;
    }

    /** The key handler, for a pressed key: what it sends, and whether it closes the bar. `after` and `sent` are what becomes of the
        editor and what is sent, in terms of characters. */
    method KeyPress<T(!new)>(k: Key, ctrl: bool, alt: bool, shift: bool, cluster: seq<Octet>, clipboard: seq<Octet>,
                             ghost enc: T -> seq<Octet>, ghost ed: Editor<T>, ghost cs: seq<T>, ghost board: seq<T>)
      returns (requests: seq<Request<Octet>>, close: bool, ghost after: Editor<T>, ghost sent: seq<Request<T>>)
      requires Shows(enc, ed) && cluster == Encode(enc, cs) && clipboard == Encode(enc, board)
      modifies this
      ensures Shows(enc, after) && AreEncoded(enc, requests, sent) && close == (k == Esc)
      ensures KeyMoves(enc, ed, k, ctrl, alt, after) && KeyErases(enc, ed, k, ctrl, alt, after) && KeyInserts(enc, ed, k, ctrl, alt, shift, cs, board, after)
      ensures KeySearches(ed, k, ctrl, alt, shift, cs, after, sent) && KeyReports(ed, k, ctrl, alt, shift, after, sent)
    {
      requests, close, after, sent := HandleKey(k, ctrl, alt, shift, cluster, clipboard, enc, ed, cs, board);
      MoveKeys(enc, ed, k, ctrl, alt, shift, cs, board, after, sent);
      EraseKeys(enc, ed, k, ctrl, alt, shift, cs, board, after, sent);
      InsertKeys(enc, ed, k, ctrl, alt, shift, cs, board, after, sent);
      SearchKeys(enc, ed, k, ctrl, alt, shift, cs, board, after, sent);
      OtherSends(enc, ed, k, ctrl, alt, shift, cs, board, after, sent);
    }

    /** The action a key stands for, and what it does. */
    method HandleKey<T(!new)>(k: Key, ctrl: bool, alt: bool, shift: bool, cluster: seq<Octet>, clipboard: seq<Octet>,
                              ghost enc: T -> seq<Octet>, ghost ed: Editor<T>, ghost cs: seq<T>, ghost board: seq<T>)
      returns (requests: seq<Request<Octet>>, close: bool, ghost after: Editor<T>, ghost sent: seq<Request<T>>)
      requires Shows(enc, ed) && cluster == Encode(enc, cs) && clipboard == Encode(enc, board)
      modifies this
      ensures (after, sent) == Pressed(enc, ed, k, ctrl, alt, shift, cs, board)
      ensures Shows(enc, after) && AreEncoded(enc, requests, sent) && close == (k == Esc)
    {
      EncodeNonEmpty(enc, cs);
      ghost var p := Pressed(enc, ed, k, ctrl, alt, shift, cs, board);
      after, sent := p.0, p.1;
      BoundMoves(k, ctrl, alt, shift, cs != [], ed.dir);
      var act := Binding(k, ctrl, alt, shift, cluster != [], dir);
      requests, close := React(act, cluster, clipboard, enc, ed, cs, board);
    }

    /** The key handler, for a paste. */
    method KeyPaste<T(!new)>(src: seq<Octet>, ghost enc: T -> seq<Octet>, ghost ed: Editor<T>, ghost cs: seq<T>) returns (requests: seq<Request<Octet>>)
      requires Shows(enc, ed) && src == Encode(enc, cs)
      modifies this
      ensures var after := Insert(ed, Kept(enc, cs));
              Shows(enc, after) && AreEncoded(enc, requests, Requests(ed, after, Yank))
    {
      var queryChanged := InsertFiltered(src, enc, ed, cs);
      requests := if queryChanged then [Request(query, dir)] else [];
    }

    /** The click handler. */
    method LeftClick<T(!new)>(mx: int, my: int, outerW: int, ghost enc: T -> seq<Octet>, ghost ed: Editor<T>)
      returns (requests: seq<Request<Octet>>, close: bool)
      requires Shows(enc, ed)
      modifies this
      ensures var after := Clicked(ed, outerW, mx, my);
              Shows(enc, after) && AreEncoded(enc, requests, ClickRequests(ed, after, outerW, mx, my))
      ensures close == (ZoneAt(ed, outerW, mx, my) == L.Close)
    {
      requests, close := [], false;
      EncodeNonEmpty(enc, ed.text);
      var layout := L.LayoutOf(outerW);
      if my != 1 || layout.None? {
        return;
      }
      requests, close := ClickBar(layout.value, mx, outerW, enc, ed);
    }

    /** A click on the middle row of a bar with a layout. */
    method ClickBar<T(!new)>(l: L.Layout, mx: int, ghost outerW: int, ghost enc: T -> seq<Octet>, ghost ed: Editor<T>)
      returns (requests: seq<Request<Octet>>, close: bool)
      requires Shows(enc, ed) && L.LayoutOf(outerW).Some? && l == L.LayoutOf(outerW).value
      modifies this
      ensures var after := Clicked(ed, outerW, mx, 1);
              Shows(enc, after) && AreEncoded(enc, requests, ClickRequests(ed, after, outerW, mx, 1))
      ensures close == (ZoneAt(ed, outerW, mx, 1) == L.Close)
    {
      requests, close := [], false;
      EncodeNonEmpty(enc, ed.text);
      var clearVisible := query != [] && l.clearFits;
      if mx >= l.btnXX - 1 && mx <= l.btnXX + 1 {
        close := true;
      } else if l.showDir && mx >= l.btnUpX - 1 && mx <= l.btnUpX + 1 {
        dir := UP;
        requests := [Request(query, UP)];
      } else if l.showDir && mx >= l.btnDnX - 1 && mx <= l.btnDnX + 1 {
        dir := DOWN;
        requests := [Request(query, DOWN)];
      } else if clearVisible && mx >= l.btnClearX - 1 && mx <= l.btnClearX + 1 {
        query, caretCp, scrollCp := [], 0, 0;
        requests := [Request(query, dir)];
      } else if mx >= l.inputX0 && mx <= l.inputX1 {
        L.PartsTileTheBar(outerW, mx);
        PlaceCaret(mx - l.inputX0, if clearVisible then l.inputW - L.BTN_WIDTH else l.inputW, enc, ed);
      }
    }

    /** A click on the input field, `rel0` cells from its start. */
    method PlaceCaret<T(!new)>(rel0: int, effInputW: int, ghost enc: T -> seq<Octet>, ghost ed: Editor<T>)
      requires Shows(enc, ed) && rel0 >= 0 && effInputW > 0
      modifies this
      ensures var cell := if rel0 >= effInputW then effInputW - 1 else rel0;
              Shows(enc, ed.(caret := if ed.scroll + cell > |ed.text| then |ed.text| else ed.scroll + cell))
    {
      var total := CpLen(query, enc, ed.text);
      var rel := rel0;
      if rel >= effInputW {
        rel := effInputW - 1;
      }
      var newCp := scrollCp + rel;
      if newCp > total {
        newCp := total;
      }
      caretCp := newCp;
    }

    /** What render_bar does to the caret and the scroll position, and the text it draws. */
    method Render<T(!new)>(outerW: int, ghost enc: T -> seq<Octet>, ghost ed: Editor<T>) returns (visible: seq<Octet>)
      requires Shows(enc, ed)
      modifies this
      ensures Shows(enc, Rendered(ed, outerW)) && visible == Encode(enc, VisibleText(Rendered(ed, outerW), outerW))
    {
      visible := [];
      EncodeNonEmpty(enc, ed.text);
      var layout := L.LayoutOf(outerW);
      if layout.None? {
        return;
      }
      var l := layout.value;
      var effInputW := if query != [] && l.clearFits then l.inputW - L.BTN_WIDTH else l.inputW;
      RenderedIs(ed, outerW, effInputW);
      visible := RenderText(effInputW, enc, ed);
    }

    /** The part of render_bar for the text, given the number of its cells. */
    method RenderText<T(!new)>(effInputW: int, ghost enc: T -> seq<Octet>, ghost ed: Editor<T>) returns (visible: seq<Octet>)
      requires Shows(enc, ed) && effInputW > 0
      modifies this
      ensures var scroll := ScrollFor(ed.caret, ed.scroll, effInputW);
              Shows(enc, ed.(scroll := scroll)) && visible == Encode(enc, FromScroll(ed.text, scroll, effInputW))
    {
      var total := CpLen(query, enc, ed.text);
      ghost var edge;
      caretCp, scrollCp, edge := BoundScroll(caretCp, scrollCp, total, effInputW);
      visible := SliceCp(query, scrollCp, effInputW, enc, ed.text);
    }
  }

  /** Any event of the bar; the texts are lists of characters, or their bytes. */
  datatype Event<T> = KeyPressed(k: Key, ctrl: bool, alt: bool, shift: bool, cluster: seq<T>, clipboard: seq<T>)
                    | Pasted(text: seq<T>) | MouseClick(mx: int, my: int, outerW: int) | Painted(outerW: int)

  function Step<T>(enc: T -> seq<Octet>, ed: Editor<T>, e: Event<T>): (r: Editor<T>)
    requires ed.Ok()
    ensures r.Ok()
  {
    match e
    case KeyPressed(k, ctrl, alt, shift, cluster, clipboard) =>
      Apply(enc, ed, Binding(k, ctrl, alt, shift, cluster != [], ed.dir), cluster, clipboard)
    case Pasted(text) => Insert(ed, Kept(enc, text))
    case MouseClick(mx, my, outerW) => Clicked(ed, outerW, mx, my)
    case Painted(outerW) => Rendered(ed, outerW)
  }

  /** The editor after a run of events. */
  function Run<T>(enc: T -> seq<Octet>, ed: Editor<T>, events: seq<Event<T>>): (r: Editor<T>)
    requires ed.Ok()
    ensures r.Ok()
  {
    if events == [] then ed else Step(enc, Run(enc, ed, events[..|events| - 1]), events[|events| - 1])
  }

  ghost predicate EventEncoded<T>(enc: T -> seq<Octet>, b: Event<Octet>, e: Event<T>) {
    match e
    case KeyPressed(k, ctrl, alt, shift, cluster, clipboard) =>
      b == KeyPressed(k, ctrl, alt, shift, Encode(enc, cluster), Encode(enc, clipboard))
    case Pasted(text) => b == Pasted(Encode(enc, text))
    case MouseClick(mx, my, outerW) => b == MouseClick(mx, my, outerW)
    case Painted(outerW) => b == Painted(outerW)
  }

  /** The next event of a run keeps the bytes the encoding of the characters the user sees. */
  method Handle<T(!new)>(st: FindState, b: Event<Octet>, ghost enc: T -> seq<Octet>, ghost first: Editor<T>, ghost events: seq<Event<T>>)
    requires events != [] && first.Ok() && EventEncoded(enc, b, events[|events| - 1])
    requires st.Shows(enc, Run(enc, first, events[..|events| - 1]))
    modifies st
    ensures st.Shows(enc, Run(enc, first, events))
  {
    ghost var ed, e := Run(enc, first, events[..|events| - 1]), events[|events| - 1];
    match b
    case KeyPressed(k, ctrl, alt, shift, cluster, clipboard) =>
      EncodeNonEmpty(enc, e.cluster);
      var _, _, _, _ := st.HandleKey(k, ctrl, alt, shift, cluster, clipboard, enc, ed, e.cluster, e.clipboard);
    case Pasted(text) =>
      var _ := st.KeyPaste(text, enc, ed, e.text);
    case MouseClick(mx, my, outerW) =>
      var _, _ := st.LeftClick(mx, my, outerW, enc, ed);
    case Painted(outerW) =>
      var _ := st.Render(outerW, enc, ed);
  }

  /** From a bar that has just been made, over every run of events, the bytes are the encoding of the characters the user
      sees, with the caret between two of them. */
  method HandleAll<T(!new)>(bs: seq<Event<Octet>>, ghost enc: T -> seq<Octet>, ghost events: seq<Event<T>>) returns (st: FindState)
    requires IsEncoding(enc) && |bs| == |events| && forall i :: 0 <= i < |bs| ==> EventEncoded(enc, bs[i], events[i])
    ensures fresh(st) && st.Shows(enc, Run(enc, Fresh(), events))
  {
    st := new FindState();
    var n := 0;
    while n < |bs|
      invariant 0 <= n <= |bs| && fresh(st) && st.Shows(enc, Run(enc, Fresh(), events[..n]))
    {
      HandleNext(st, bs[n], enc, events, n);
      n := n + 1;
    }
    assert n == |events| && events[..n] == events;
  }

  method HandleNext<T(!new)>(st: FindState, b: Event<Octet>, ghost enc: T -> seq<Octet>, ghost events: seq<Event<T>>, ghost n: nat)
    requires n < |events| && EventEncoded(enc, b, events[n]) && st.Shows(enc, Run(enc, Fresh(), events[..n]))
    modifies st
    ensures st.Shows(enc, Run(enc, Fresh(), events[..n + 1]))
  {
    assert events[..n + 1][..n] == events[..n];
    Handle(st, b, enc, Fresh(), events[..n + 1]);
  }

  function Backspaces<T>(enc: T -> seq<Octet>, ed: Editor<T>, n: nat): (r: Editor<T>)
    requires ed.Ok()
    ensures r.Ok()
    decreases n
  {
    if n == 0 then ed else Backspaces(enc, Apply(enc, ed, DeleteBack, [], []), n - 1)
  }

  /** Typing text and as many backspaces as it has characters, however many bytes those take, leaves the query as it was. */
  lemma {:induction false} BackspacesUndo<T>(enc: T -> seq<Octet>, ed: Editor<T>, t: seq<T>)
    requires ed.Ok()
    ensures Backspaces(enc, Insert(ed, t), |t|) == ed
  {
    if t == [] {
      assert ed.text[..ed.caret] + [] + ed.text[ed.caret..] == ed.text;
    } else {
      var init, a := t[..|t| - 1], Insert(ed, t);
      var c := a.caret;
      assert a.text[..c - 1] == ed.text[..ed.caret] + init && a.text[c..] == ed.text[ed.caret..];
      assert Apply(enc, a, DeleteBack, [], []) == Insert(ed, init);
      BackspacesUndo(enc, ed, init);
    }
  }

  /** A kill backward erases the white space before the caret and the whole word before that. */
  lemma PrevWordIs<T>(space: T -> bool, text: seq<T>, cp: nat) returns (m: nat)
    requires cp <= |text|
    ensures var a := PrevWord(space, text, cp);
      && a <= m <= cp && (a < m || a == 0) && (a > 0 ==> space(text[a - 1]))
      && (forall i :: m <= i < cp ==> space(text[i])) && (forall i :: a <= i < m ==> !space(text[i]))
  {
    m := SkipBack(space, text, cp);
    var p, a := Not(space), SkipBack(Not(space), text, m);
    assert forall i :: a <= i < m ==> p(text[i]);
    assert a > 0 ==> !p(text[a - 1]);
  }

  /** The bytes determine what the user sees. */
  lemma SameBytesSameText(a: Editor<Scalar>, b: Editor<Scalar>)
    requires Encode(EncodeScalar, a.text) == Encode(EncodeScalar, b.text)
    ensures a.text == b.text
  {
    Utf8IsEncoding();
    Utf8IsInjective();
    EncodeInjective(EncodeScalar, a.text, b.text);
  }
}
