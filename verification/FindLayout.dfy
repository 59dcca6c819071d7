/** The layout of the find bar of term.hpp, and what a column of it belongs to. */
module FindLayout {
  import opened Wrappers

  const MIN_BAR_COLS := 10
  const MIN_INPUT_W := 4
  const BTN_WIDTH := 3
  const COUNTER_CELLS := 11
  const INPUT_PAD_L := 1

  /** bar_layout; the columns of parts that are not shown are 0. */
  datatype Layout = Layout(showDir: bool, showCounter: bool, clearFits: bool, inputX0: int, inputX1: int, inputW: int,
                           countX0: int, countX1: int, countTextX0: int, btnUpX: int, btnDnX: int, btnXX: int, btnClearX: int)

  /** layout_of: None where the source says that the layout is not valid. */
  function LayoutOf(outerW: int): Option<Layout> {
    if outerW < MIN_BAR_COLS then None else
      var avail := outerW - 6;
      var r0 := avail - MIN_INPUT_W;
      var r1 := if r0 >= BTN_WIDTH then r0 - BTN_WIDTH else r0;
      var base := if r0 >= BTN_WIDTH then MIN_INPUT_W + BTN_WIDTH else MIN_INPUT_W;
      var showCounter := r1 >= COUNTER_CELLS;
      var r2 := if showCounter then r1 - COUNTER_CELLS else r1;
      var showDir := showCounter && r2 >= 2 * BTN_WIDTH;
      var r3 := if showDir then r2 - 2 * BTN_WIDTH else r2;
      var inputW := base + r3;
      var x0 := 1 + INPUT_PAD_L;
      var x1 := x0 + inputW - 1;
      var count := if showCounter then x1 + 1 else 0;
      var x := outerW - 3;
      Some(Layout(showDir, showCounter, inputW >= MIN_INPUT_W + BTN_WIDTH, x0, x1, inputW,
                  count, if showCounter then count + COUNTER_CELLS - 1 else 0, if showCounter then count + 1 else 0,
                  if showDir then x - 2 * BTN_WIDTH else 0, if showDir then x - BTN_WIDTH else 0, x, x1 - 1))
  }

  /** The three cells of the button with this centre. */
  predicate OnButton(centre: int, mx: int) {
    centre - 1 <= mx <= centre + 1
  }

  predicate InInput(l: Layout, mx: int) {
    l.inputX0 <= mx <= l.inputX1
  }

  predicate InCounter(l: Layout, mx: int) {
    l.showCounter && l.countX0 <= mx <= l.countX1
  }

  datatype Zone = Nowhere | Input | Up | Down | Close | Clear

  /** The order of the tests of the click handler. */
  function ClickZone(l: Layout, clearVisible: bool, mx: int): Zone {
    if OnButton(l.btnXX, mx) then Close
    else if l.showDir && OnButton(l.btnUpX, mx) then Up
    else if l.showDir && OnButton(l.btnDnX, mx) then Down
    else if clearVisible && OnButton(l.btnClearX, mx) then Clear
    else if InInput(l, mx) then Input
    else Nowhere
  }

  /** The order of the tests of the hover handler. */
  function HoverZone(l: Layout, clearVisible: bool, mx: int): Zone {
    if OnButton(l.btnXX, mx) then Close
    else if l.showDir && OnButton(l.btnDnX, mx) then Down
    else if l.showDir && OnButton(l.btnUpX, mx) then Up
    else if clearVisible && OnButton(l.btnClearX, mx) then Clear
    else if InInput(l, mx) then Input
    else Nowhere
  }

  /** The parts the column belongs to. */
  function Parts(l: Layout, mx: int): nat {
    (if InInput(l, mx) then 1 else 0) + (if InCounter(l, mx) then 1 else 0) + (if OnButton(l.btnXX, mx) then 1 else 0)
    + (if l.showDir && OnButton(l.btnUpX, mx) then 1 else 0) + (if l.showDir && OnButton(l.btnDnX, mx) then 1 else 0)
  }

  /** Between the left pad and the right border every column belongs to exactly one part, and no other column to any;
      parts are dropped in the order of their importance, and the input is never too narrow. */
  lemma PartsTileTheBar(outerW: int, mx: int)
    requires outerW >= MIN_BAR_COLS
    ensures var l := LayoutOf(outerW).value;
      && Parts(l, mx) == (if 2 <= mx <= outerW - 2 then 1 else 0)
      && (l.showDir ==> l.showCounter) && (l.showCounter ==> l.clearFits)
      && l.inputW >= MIN_INPUT_W && (l.clearFits ==> l.inputW - BTN_WIDTH >= MIN_INPUT_W)
      && (l.clearFits ==> forall x :: OnButton(l.btnClearX, x) ==> InInput(l, x))
  {
  }

  /** The columns, in numbers: which widths show what, and where it is. */
  lemma LayoutIs(outerW: int)
    requires outerW >= 10
    ensures var l := LayoutOf(outerW).value;
      && (l.clearFits <==> outerW >= 13) && (l.showCounter <==> outerW >= 24) && (l.showDir <==> outerW >= 30)
      && l.inputX0 == 2 && l.inputX1 == outerW - (if outerW >= 30 then 22 else if outerW >= 24 then 16 else 5)
      && l.inputW == l.inputX1 - 1 && l.btnClearX == l.inputX1 - 1 && l.btnXX == outerW - 3
      && (outerW >= 24 ==> l.countX0 == l.inputX1 + 1 && l.countTextX0 == l.inputX1 + 2 && l.countX1 == l.inputX1 + 11)
      && (outerW >= 30 ==> l.btnUpX == outerW - 9 && l.btnDnX == outerW - 6)
  {
  }

  /** A wider bar shows whatever a narrower one does. */
  lemma WiderShowsMore(v: int, w: int)
    requires MIN_BAR_COLS <= v <= w
    ensures var (l, k) := (LayoutOf(v).value, LayoutOf(w).value);
      (l.showDir ==> k.showDir) && (l.showCounter ==> k.showCounter) && (l.clearFits ==> k.clearFits)
  {
  }

  /** The two handlers agree about every column, although they test in different orders. */
  lemma HoverIsClick(outerW: int, clearVisible: bool, mx: int)
    requires outerW >= MIN_BAR_COLS
    ensures var l := LayoutOf(outerW).value; HoverZone(l, clearVisible, mx) == ClickZone(l, clearVisible, mx)
  {
  }
}
