/** The result table of the page (`displayResults` and the spreadsheet-like
    selection in `script.js`): items are rendered as rows of four editable
    cells, a click or a drag selects a rectangle of cells, and the selection or
    the whole table is copied as tab-separated text. */
module TableView {
  import opened Options
  import opened Text
  import opened Json

  /** Every rendered row has this many cells: name, quantity, unit, note. */
  const Columns := 4

  /** The header line `getAllTableText` writes before the rows. */
  const HeaderLine := "物品名称\t数量\t单位\t备注"

  /** A cell by its `data-row` and `data-col` attributes. */
  datatype Cell = Cell(row: nat, col: nat)

  // ---------------------------------------------------------------- rendering

  /** `String(v)` where an array element is turned into text: arrays are
      joined with commas, and `null` inside an array becomes empty. */
  function JsString(v: Json): string
    decreases v
  {
    match v
    case JNull => ""
    case JBool(b) => if b then "true" else "false"
    case JNum(lexeme) => lexeme
    case JStr(t) => t
    case JArr(es) => Join(seq(|es|, i requires 0 <= i < |es| => JsString(es[i])), ",")
    case JObj(_) => "[object Object]"
  }

  /** `item[k]` for a non-null item; `None` is `undefined`. Strings are indexed
      by character, objects by the property named by the index's digits. */
  function Element(item: Json, k: nat): Option<Json>
  {
    match item
    case JArr(es) => if k < |es| then Some(es[k]) else None
    case JStr(t) => if k < |t| then Some(JStr([t[k]])) else None
    case JObj(ms) => Lookup(ms, NatToString(k))
    case _ => None
  }

  /** `td.textContent = item[k] || ''`. */
  function CellText(v: Option<Json>): string
  {
    if v.Some? && Truthy(v.value) then JsString(v.value) else ""
  }

  /** The four cells the inner `for` loop creates for one item. */
  function RenderRow(item: Json): (row: seq<string>)
    ensures |row| == Columns
  {
    seq(Columns, k requires 0 <= k < Columns => CellText(Element(item, k)))
  }

  /** The index of the first `null` item, or `|items|` when there is none. */
  function FirstNull(items: seq<Json>): (k: nat)
    ensures k <= |items|
    ensures k < |items| ==> items[k].JNull?
    ensures forall i :: 0 <= i < k ==> !items[i].JNull?
  {
    if |items| == 0 then 0
    else if items[0].JNull? then 0
    else 1 + FirstNull(items[1..])
  }

  /** What `displayResults` leaves in the table body: the rows of the items
      before the first `null` one, and whether reading `null[0]` threw. */
  datatype Rendering = Rendering(rows: seq<seq<string>>, threw: bool)

  function Render(items: seq<Json>): Rendering
  {
    var k := FirstNull(items);
    Rendering(seq(k, i requires 0 <= i < k => RenderRow(items[i])), k < |items|)
  }

  // ---------------------------------------------------------------- the rectangle

  function Min(a: nat, b: nat): nat { if a <= b then a else b }
  function Max(a: nat, b: nat): nat { if a <= b then b else a }

  /** Row and column both lie between those of the start and the end cell. */
  predicate InRectangle(a: Cell, b: Cell, c: Cell)
  {
    Min(a.row, b.row) <= c.row <= Max(a.row, b.row)
    && Min(a.col, b.col) <= c.col <= Max(a.col, b.col)
  }

  /** `querySelectorAll('td')` over a body of `n` rendered rows: row by row,
      left to right. */
  function TableCells(n: nat): seq<Cell>
  {
    seq(Columns * n, i requires 0 <= i < Columns * n => Cell(i / Columns, i % Columns))
  }

  /** The cells of `cells` inside the rectangle, in their order. */
  function Within(a: Cell, b: Cell, cells: seq<Cell>): seq<Cell>
  {
    if |cells| == 0 then []
    else Within(a, b, cells[..|cells| - 1]) + (if InRectangle(a, b, Last(cells)) then [Last(cells)] else [])
  }

  predicate Distinct(cells: seq<Cell>)
  {
    forall i, j :: 0 <= i < j < |cells| ==> cells[i] != cells[j]
  }

  // ---------------------------------------------------------------- the page's table and selection

  /** The rendered table body together with the module-level selection state
      `isSelecting`, `selectionStart` and `selectedCells`; the selected cells
      are kept in the order a `Set` iterates them, the order of insertion. */
  class Sheet {
    var rows: seq<seq<string>>
    var isSelecting: bool
    var start: Option<Cell>
    var selected: seq<Cell>

    /** Each row has its four cells, and no cell is selected twice. */
    predicate Valid()
      reads this
    {
      (forall r :: 0 <= r < |rows| ==> |rows[r]| == Columns) && Distinct(selected)
    }

    constructor()
      ensures Valid()
      ensures rows == [] && !isSelecting && start == None && selected == []
    {
      rows := [];
      isSelecting := false;
      start := None;
      selected := [];
    }

    /** `displayResults(items)`: empties the body and appends one row per
        item; a `null` item throws, leaving the rows built before it. The
        selection state is left as it was. */
    method Display(items: seq<Json>) returns (threw: bool)
      requires Valid()
      modifies this
      ensures Valid()
      ensures rows == Render(items).rows && threw == Render(items).threw
      ensures isSelecting == old(isSelecting) && start == old(start) && selected == old(selected)
    {
      var body: seq<seq<string>> := [];
      var i := 0;
      while i < |items|
        invariant 0 <= i <= |items|
        invariant forall k :: 0 <= k < i ==> !items[k].JNull?
        invariant body == seq(i, k requires 0 <= k < i => RenderRow(items[k]))
      {
        if items[i].JNull? {
          rows := body;
          threw := true;
          return;
        }
        body := body + [RenderRow(items[i])];
        i := i + 1;
      }
      rows := body;
      threw := false;
    }

    /** `handleCellMouseDown`: a single click (`detail` 1) starts a new
        selection holding exactly the clicked cell; any other click count,
        a double click among them, leaves the selection state alone. */
    method MouseDown(detail: int, at: Cell)
      requires Valid()
      modifies this
      ensures Valid()
      ensures detail == 1 ==> isSelecting && start == Some(at) && selected == [at] && rows == old(rows)
      ensures detail != 1 ==> unchanged(this)
    {
      if detail == 1 {
        isSelecting := true;
        selected := [];
        start := Some(at);
        selected := selected + [at];
      }
    }

    /** `handleCellMouseOver`: while a drag is in progress the selection
        becomes the rendered cells of the rectangle spanned by the start cell
        and the hovered cell, in document order. */
    method MouseOver(at: Cell)
      requires Valid()
      modifies this
      ensures Valid()
      ensures !old(isSelecting) || old(start).None? ==> unchanged(this)
      ensures old(isSelecting) && old(start).Some? ==>
        selected == Within(old(start).value, at, TableCells(|rows|))
        && rows == old(rows) && isSelecting && start == old(start)
    {
      if !isSelecting || start.None? {
        return;
      }
      var from := start.value;
      var all := TableCells(|rows|);
      var cells: seq<Cell> := [];
      var i := 0;
      while i < |all|
        invariant 0 <= i <= |all|
        invariant cells == Within(from, at, all[..i])
      {
        assert all[..i + 1][..i] == all[..i];
        if InRectangle(from, at, all[i]) {
          cells := cells + [all[i]];
        }
        i := i + 1;
      }
      assert all[..i] == all;
      TableCellsMembers(|rows|);
      WithinDistinct(from, at, all);
      selected := cells;
    }

    /** `handleCellFocus`: entering a cell to edit it drops a non-empty
        selection and ends the drag; the start cell is kept. */
    method Focus()
      requires Valid()
      modifies this
      ensures Valid()
      ensures |old(selected)| > 0 ==>
        selected == [] && !isSelecting && rows == old(rows) && start == old(start)
      ensures |old(selected)| == 0 ==> unchanged(this)
    {
      if |selected| > 0 {
        selected := [];
        isSelecting := false;
      }
    }

    /** The document's `mouseup` listener ends the drag and nothing else. */
    method MouseUp()
      requires Valid()
      modifies this
      ensures Valid()
      ensures !isSelecting
      ensures rows == old(rows) && start == old(start) && selected == old(selected)
    {
      isSelecting := false;
    }

    /** `getSelectedCellsText()`. */
    function SelectedText(): string
      reads this
    {
      SelectionText(selected, rows)
    }

    /** `getAllTableText()`. */
    function AllText(): string
      reads this
    {
      TableText(rows)
    }
  }

  // ---------------------------------------------------------------- copying

  /** The text of a selected cell; a position the body no longer has reads as
      empty. */
  function Content(rows: seq<seq<string>>, c: Cell): string
  {
    if c.row < |rows| && c.col < |rows[c.row]| then rows[c.row][c.col] else ""
  }

  /** The members of `s` below `n`, in ascending order (the keys of the
      `rows` dictionary sorted numerically). */
  function Ascending(s: set<nat>, n: nat): (r: seq<nat>)
    ensures forall x :: x in r <==> x in s && x < n
    ensures forall i, j :: 0 <= i < j < |r| ==> r[i] < r[j]
    ensures forall i :: 0 <= i < |r| ==> r[i] < n
  {
    if n == 0 then [] else Ascending(s, n - 1) + (if n - 1 in s then [n - 1] else [])
  }

  /** A number above every row and column of the cells. */
  function Bound(cells: seq<Cell>): (b: nat)
    ensures forall c :: c in cells ==> c.row < b && c.col < b
  {
    if |cells| == 0 then 0
    else
      var rest := Bound(cells[1..]);
      var here := Max(cells[0].row, cells[0].col) + 1;
      assert forall c :: c in cells ==> c == cells[0] || c in cells[1..];
      Max(rest, here)
  }

  function RowsOf(cells: seq<Cell>): set<nat>
  {
    set c | c in cells :: c.row
  }

  function ColumnsOf(cells: seq<Cell>, r: nat): set<nat>
  {
    set c | c in cells && c.row == r :: c.col
  }

  /** One line of the copied selection: the row's selected cells, left to
      right, separated by tabs. */
  function RowLine(cells: seq<Cell>, rows: seq<seq<string>>, r: nat, b: nat): string
  {
    var cols := Ascending(ColumnsOf(cells, r), b);
    Join(seq(|cols|, i requires 0 <= i < |cols| => Content(rows, Cell(r, cols[i]))), "\t")
  }

  /** The lines of the copied selection, one per selected row below `b`, top
      to bottom. */
  function LinesBelow(cells: seq<Cell>, rows: seq<seq<string>>, b: nat): seq<string>
  {
    var rs := Ascending(RowsOf(cells), b);
    seq(|rs|, i requires 0 <= i < |rs| => RowLine(cells, rows, rs[i], b))
  }

  function SelectionLines(cells: seq<Cell>, rows: seq<seq<string>>): seq<string>
  {
    LinesBelow(cells, rows, Bound(cells))
  }

  function SelectionText(cells: seq<Cell>, rows: seq<seq<string>>): string
  {
    if |cells| == 0 then "" else Join(SelectionLines(cells, rows), "\n")
  }

  /** The line of one rendered row. */
  function RowText(row: seq<string>): string
  {
    Join(row, "\t")
  }

  /** The header line, then one line per rendered row. */
  function TableLines(rows: seq<seq<string>>): seq<string>
  {
    [HeaderLine] + seq(|rows|, i requires 0 <= i < |rows| => RowText(rows[i]))
  }

  function TableText(rows: seq<seq<string>>): string
  {
    Join(TableLines(rows), "\n")
  }

  // ---------------------------------------------------------------- properties of rendering

  /** Each rendered row has exactly four cells; cell `k` of an array item is
      its element `k` when that is present and truthy, and otherwise empty;
      elements past the fourth are dropped. */
  lemma RowPadding(item: Json, k: nat)
    requires item.JArr? && k < Columns
    ensures |RenderRow(item)| == Columns
    ensures RenderRow(item)[k] ==
      if k < |item.elems| && Truthy(item.elems[k]) then JsString(item.elems[k]) else ""
  {
  }

  /** `[[]]` renders as one row of four empty cells. */
  lemma EmptyRowPadded()
    ensures Render([JArr([])]) == Rendering([["", "", "", ""]], false)
  {
    var r := RenderRow(JArr([]));
    assert r == ["", "", "", ""];
  }

  /** The server's tables, arrays of string arrays, render string by string. */
  lemma StringTableRenders(items: seq<Json>, i: nat, k: nat)
    requires forall j :: 0 <= j < |items| ==>
      items[j].JArr? && forall e :: e in items[j].elems ==> e.JStr?
    requires i < |items| && k < Columns
    ensures !Render(items).threw && |Render(items).rows| == |items|
    ensures Render(items).rows[i][k] ==
      if k < |items[i].elems| then items[i].elems[k].str else ""
  {
    if k < |items[i].elems| {
      assert items[i].elems[k] in items[i].elems;
    }
  }

  /** Rendering stops exactly at the first `null` item. */
  lemma RenderStopsAtNull(items: seq<Json>)
    ensures Render(items).threw <==> exists i :: 0 <= i < |items| && items[i].JNull?
    ensures |Render(items).rows| <= |items|
    ensures forall i :: 0 <= i < |Render(items).rows| ==> Render(items).rows[i] == RenderRow(items[i])
  {
  }

  // ---------------------------------------------------------------- properties of the rectangle

  lemma {:induction false} WithinMembers(a: Cell, b: Cell, cells: seq<Cell>)
    ensures forall c :: c in Within(a, b, cells) <==> c in cells && InRectangle(a, b, c)
    decreases |cells|
  {
    if |cells| > 0 {
      var init := cells[..|cells| - 1];
      WithinMembers(a, b, init);
      assert cells == init + [Last(cells)];
    }
  }

  lemma {:induction false} WithinDistinct(a: Cell, b: Cell, cells: seq<Cell>)
    requires Distinct(cells)
    ensures Distinct(Within(a, b, cells))
    decreases |cells|
  {
    if |cells| > 0 {
      var init := cells[..|cells| - 1];
      WithinDistinct(a, b, init);
      WithinMembers(a, b, init);
      assert Last(cells) !in init;
    }
  }

  /** The rendered cells are exactly the positions inside the body, each once. */
  lemma TableCellsMembers(n: nat)
    ensures forall c :: c in TableCells(n) <==> c.row < n && c.col < Columns
    ensures Distinct(TableCells(n))
  {
    var all := TableCells(n);
    forall c: Cell | c.row < n && c.col < Columns
      ensures c in all
    {
      var i := Columns * c.row + c.col;
      assert i < Columns * n;
      assert all[i] == c;
    }
  }

  /** Dragging selects exactly the rendered cells of the rectangle, each once. */
  lemma DragSelection(a: Cell, b: Cell, n: nat)
    ensures forall c :: c in Within(a, b, TableCells(n)) <==>
      c.row < n && c.col < Columns && InRectangle(a, b, c)
    ensures Distinct(Within(a, b, TableCells(n)))
  {
    TableCellsMembers(n);
    WithinMembers(a, b, TableCells(n));
    WithinDistinct(a, b, TableCells(n));
  }

  /** Dragging from `a` to `b` selects what dragging from `b` to `a` does. */
  lemma {:induction false} RectangleSymmetric(a: Cell, b: Cell, cells: seq<Cell>)
    ensures Within(a, b, cells) == Within(b, a, cells)
    decreases |cells|
  {
    if |cells| > 0 {
      RectangleSymmetric(a, b, cells[..|cells| - 1]);
    }
  }

  /** Both corners of a drag within the table are selected. */
  lemma CornersSelected(a: Cell, b: Cell, n: nat)
    requires a.row < n && a.col < Columns && b.row < n && b.col < Columns
    ensures a in Within(a, b, TableCells(n)) && b in Within(a, b, TableCells(n))
  {
    DragSelection(a, b, n);
  }

  // ---------------------------------------------------------------- properties of copying

  /** Only the members of `s` matter to `Ascending`, once the bound is above
      all of them. */
  lemma {:induction false} AscendingBound(s: set<nat>, n: nat, m: nat)
    requires n <= m && forall x :: x in s ==> x < n
    ensures Ascending(s, n) == Ascending(s, m)
    decreases m - n
  {
    if n < m {
      AscendingBound(s, n, m - 1);
    }
  }

  /** Any bound above every selected row and column gives the same lines. */
  lemma LinesBound(cells: seq<Cell>, rows: seq<seq<string>>, b: nat, m: nat)
    requires b <= m && forall c :: c in cells ==> c.row < b && c.col < b
    ensures LinesBelow(cells, rows, b) == LinesBelow(cells, rows, m)
  {
    AscendingBound(RowsOf(cells), b, m);
    var rs := Ascending(RowsOf(cells), m);
    forall i | 0 <= i < |rs|
      ensures RowLine(cells, rows, rs[i], b) == RowLine(cells, rows, rs[i], m)
    {
      AscendingBound(ColumnsOf(cells, rs[i]), b, m);
    }
  }

  /** Two selections with the same cells have the same row and column keys. */
  lemma SameKeys(c1: seq<Cell>, c2: seq<Cell>)
    requires forall c :: c in c1 <==> c in c2
    ensures RowsOf(c1) == RowsOf(c2)
    ensures forall r :: ColumnsOf(c1, r) == ColumnsOf(c2, r)
  {
  }

  /** The copied selection depends on which cells are selected, not on the
      order they were added in. */
  lemma SelectionOrderIrrelevant(c1: seq<Cell>, c2: seq<Cell>, rows: seq<seq<string>>)
    requires forall c :: c in c1 <==> c in c2
    ensures SelectionText(c1, rows) == SelectionText(c2, rows)
  {
    if |c1| > 0 {
      assert c1[0] in c2;
    }
    if |c2| > 0 {
      assert c2[0] in c1;
    }
    if |c1| > 0 && |c2| > 0 {
      var m := Max(Bound(c1), Bound(c2));
      LinesBound(c1, rows, Bound(c1), m);
      LinesBound(c2, rows, Bound(c2), m);
      SameKeys(c1, c2);
      SameLines(c1, c2, rows, m);
    }
  }

  /** The lines depend on the cells only through their row and column keys. */
  lemma SameLines(c1: seq<Cell>, c2: seq<Cell>, rows: seq<seq<string>>, m: nat)
    requires RowsOf(c1) == RowsOf(c2)
    requires forall r :: ColumnsOf(c1, r) == ColumnsOf(c2, r)
    ensures LinesBelow(c1, rows, m) == LinesBelow(c2, rows, m)
  {
    var rs := Ascending(RowsOf(c1), m);
    forall i | 0 <= i < |rs|
      ensures RowLine(c1, rows, rs[i], m) == RowLine(c2, rows, rs[i], m)
    {
      assert ColumnsOf(c1, rs[i]) == ColumnsOf(c2, rs[i]);
    }
  }

  /** Copying an empty selection gives the empty string; otherwise there is
      one line per distinct selected row, rows in ascending order, and each
      line holds that row's selected cells in ascending column order. */
  lemma SelectionShape(cells: seq<Cell>, rows: seq<seq<string>>)
    ensures |cells| == 0 ==> SelectionText(cells, rows) == ""
    ensures var rs := Ascending(RowsOf(cells), Bound(cells));
      |SelectionLines(cells, rows)| == |RowsOf(cells)|
      && (forall r :: r in rs <==> exists c :: c in cells && c.row == r)
      && (forall i, j :: 0 <= i < j < |rs| ==> rs[i] < rs[j])
  {
    var b := Bound(cells);
    AscendingCount(RowsOf(cells), b);
    assert Below(RowsOf(cells), b) == RowsOf(cells);
  }

  function Below(s: set<nat>, n: nat): set<nat>
  {
    set x | x in s && x < n
  }

  lemma BelowStep(s: set<nat>, n: nat)
    requires n > 0
    ensures n - 1 in s ==> |Below(s, n)| == |Below(s, n - 1)| + 1
    ensures n - 1 !in s ==> |Below(s, n)| == |Below(s, n - 1)|
  {
    var before := Below(s, n - 1);
    assert n - 1 !in before;
    if n - 1 in s {
      assert Below(s, n) == before + {n - 1};
    } else {
      assert Below(s, n) == before;
    }
  }

  /** `Ascending` lists each member below the bound once. */
  lemma {:induction false} AscendingCount(s: set<nat>, n: nat)
    ensures |Ascending(s, n)| == |Below(s, n)|
    decreases n
  {
    if n > 0 {
      AscendingCount(s, n - 1);
      BelowStep(s, n);
    }
  }

  /** The numbers from `lo` up to but not including `hi`, as a set and in order. */
  function Range(lo: nat, hi: nat): seq<nat>
    requires lo <= hi
  {
    seq(hi - lo, i requires 0 <= i < hi - lo => lo + i)
  }

  function Span(lo: nat, hi: nat): (s: set<nat>)
    ensures forall x :: x in s <==> lo <= x < hi
  {
    if hi <= lo then {} else Span(lo, hi - 1) + {hi - 1}
  }

  predicate Increasing(r: seq<nat>)
  {
    forall i, j :: 0 <= i < j < |r| ==> r[i] < r[j]
  }

  /** Two increasing sequences with the same members are the same. */
  lemma {:induction false} IncreasingUnique(x: seq<nat>, y: seq<nat>)
    requires Increasing(x) && Increasing(y)
    requires forall v :: v in x <==> v in y
    ensures x == y
    decreases |x|
  {
    if |x| > 0 {
      assert x[0] in y;
    }
    if |y| > 0 {
      assert y[0] in x;
    }
    if |x| > 0 && |y| > 0 {
      assert x[0] == y[0];
      forall v | v in x[1..]
        ensures v in y[1..]
      {
        assert v in y && v != y[0];
      }
      forall v | v in y[1..]
        ensures v in x[1..]
      {
        assert v in x && v != x[0];
      }
      IncreasingUnique(x[1..], y[1..]);
      assert x == [x[0]] + x[1..] && y == [y[0]] + y[1..];
    }
  }

  /** Sorting an interval lists it from its low end. */
  lemma AscendingRange(lo: nat, hi: nat, b: nat)
    requires lo <= hi <= b
    ensures Ascending(Span(lo, hi), b) == Range(lo, hi)
  {
    var r := Range(lo, hi);
    forall v | lo <= v < hi
      ensures v in r
    {
      assert r[v - lo] == v;
    }
    IncreasingUnique(Ascending(Span(lo, hi), b), r);
  }

  /** A drag over the table selects the rows of the rectangle, and in each of
      them the columns of the rectangle. */
  lemma RectangleKeys(a: Cell, b: Cell, n: nat)
    requires a.row < n && a.col < Columns && b.row < n && b.col < Columns
    ensures var cells := Within(a, b, TableCells(n));
      var (r0, r1, c0, c1) := (Min(a.row, b.row), Max(a.row, b.row), Min(a.col, b.col), Max(a.col, b.col));
      RowsOf(cells) == Span(r0, r1 + 1)
      && forall r :: r0 <= r <= r1 ==> ColumnsOf(cells, r) == Span(c0, c1 + 1)
  {
    var cells := Within(a, b, TableCells(n));
    var (r0, r1, c0, c1) := (Min(a.row, b.row), Max(a.row, b.row), Min(a.col, b.col), Max(a.col, b.col));
    DragSelection(a, b, n);
    forall x: nat | r0 <= x <= r1
      ensures x in RowsOf(cells)
    {
      assert Cell(x, c0) in cells;
    }
    forall r: nat, x: nat | r0 <= r <= r1 && c0 <= x <= c1
      ensures x in ColumnsOf(cells, r)
    {
      assert Cell(r, x) in cells;
    }
  }

  /** The lines of rows `r0` to `r1`, each cut to columns `c0` to `c1`. */
  function Block(rows: seq<seq<string>>, r0: nat, r1: nat, c0: nat, c1: nat): seq<string>
    requires r0 <= r1 < |rows| && c0 <= c1 && forall r :: r0 <= r <= r1 ==> c1 < |rows[r]|
  {
    seq(r1 + 1 - r0, i requires 0 <= i < r1 + 1 - r0 => RowText(rows[r0 + i][c0..c1 + 1]))
  }

  /** Copying a dragged rectangle gives its rows from top to bottom, each as
      the tab-separated slice of the row between the two corner columns. */
  lemma CopyRectangle(a: Cell, b: Cell, rows: seq<seq<string>>)
    requires forall r :: 0 <= r < |rows| ==> |rows[r]| == Columns
    requires a.row < |rows| && a.col < Columns && b.row < |rows| && b.col < Columns
    ensures SelectionText(Within(a, b, TableCells(|rows|)), rows)
      == Join(Block(rows, Min(a.row, b.row), Max(a.row, b.row), Min(a.col, b.col), Max(a.col, b.col)), "\n")
  {
    var cells := Within(a, b, TableCells(|rows|));
    CornersSelected(a, b, |rows|);
    RectangleKeys(a, b, |rows|);
    var m := Bound(cells);
    assert a in cells && b in cells;
    RectangleLinesBelow(cells, rows, m, Min(a.row, b.row), Max(a.row, b.row), Min(a.col, b.col), Max(a.col, b.col));
  }

  lemma RectangleLinesBelow(cells: seq<Cell>, rows: seq<seq<string>>, m: nat, r0: nat, r1: nat, c0: nat, c1: nat)
    requires r0 <= r1 < |rows| && c0 <= c1 && forall r :: r0 <= r <= r1 ==> c1 < |rows[r]|
    requires r1 < m && c1 < m
    requires RowsOf(cells) == Span(r0, r1 + 1)
    requires forall r :: r0 <= r <= r1 ==> ColumnsOf(cells, r) == Span(c0, c1 + 1)
    ensures LinesBelow(cells, rows, m) == Block(rows, r0, r1, c0, c1)
  {
    RectangleRows(cells, rows, m, r0, r1, c0, c1);
    SortedSpan(RowsOf(cells), r0, r1, m);
    RectangleLines(cells, rows, m, r0, r1, c0, c1);
  }

  lemma SortedSpan(s: set<nat>, lo: nat, hi: nat, m: nat)
    requires lo <= hi < m && s == Span(lo, hi + 1)
    ensures Ascending(s, m) == Range(lo, hi + 1)
  {
    AscendingRange(lo, hi + 1, m);
  }

  lemma RectangleRows(cells: seq<Cell>, rows: seq<seq<string>>, m: nat, r0: nat, r1: nat, c0: nat, c1: nat)
    requires r0 <= r1 < |rows| && c0 <= c1 < m && forall r :: r0 <= r <= r1 ==> c1 < |rows[r]|
    requires forall r :: r0 <= r <= r1 ==> ColumnsOf(cells, r) == Span(c0, c1 + 1)
    ensures forall r :: r0 <= r <= r1 ==> RowLine(cells, rows, r, m) == RowText(rows[r][c0..c1 + 1])
  {
    AscendingRange(c0, c1 + 1, m);
    forall r | r0 <= r <= r1
      ensures RowLine(cells, rows, r, m) == RowText(rows[r][c0..c1 + 1])
    {
      RectangleRow(cells, rows, r, c0, c1, m);
    }
  }

  lemma RectangleLines(cells: seq<Cell>, rows: seq<seq<string>>, m: nat, r0: nat, r1: nat, c0: nat, c1: nat)
    requires r0 <= r1 < |rows| && c0 <= c1 && forall r :: r0 <= r <= r1 ==> c1 < |rows[r]|
    requires Ascending(RowsOf(cells), m) == Range(r0, r1 + 1)
    requires forall r :: r0 <= r <= r1 ==> RowLine(cells, rows, r, m) == RowText(rows[r][c0..c1 + 1])
    ensures LinesBelow(cells, rows, m) == Block(rows, r0, r1, c0, c1)
  {
    var lines, block := LinesBelow(cells, rows, m), Block(rows, r0, r1, c0, c1);
    forall i | 0 <= i < |block|
      ensures lines[i] == block[i]
    {
      assert Range(r0, r1 + 1)[i] == r0 + i;
    }
  }

  lemma RectangleRow(cells: seq<Cell>, rows: seq<seq<string>>, r: nat, c0: nat, c1: nat, m: nat)
    requires r < |rows| && c0 <= c1 < |rows[r]|
    requires Ascending(ColumnsOf(cells, r), m) == Range(c0, c1 + 1)
    ensures RowLine(cells, rows, r, m) == RowText(rows[r][c0..c1 + 1])
  {
    var cols := Range(c0, c1 + 1);
    assert seq(|cols|, j requires 0 <= j < |cols| => Content(rows, Cell(r, cols[j]))) == rows[r][c0..c1 + 1];
  }

  /** The copied table reads back as its lines: the header first, then one
      line per rendered row, so `rows + 1` lines, provided no cell holds a
      line feed; each row line splits back into its cells when no cell holds
      a tab. */
  lemma TableTextLines(rows: seq<seq<string>>)
    requires forall r, k :: 0 <= r < |rows| && 0 <= k < |rows[r]| ==> '\n' !in rows[r][k]
    ensures Split(TableText(rows), '\n') == TableLines(rows)
    ensures |Split(TableText(rows), '\n')| == |rows| + 1
    ensures Split(TableText(rows), '\n')[0] == HeaderLine
  {
    var lines := TableLines(rows);
    forall i | 0 <= i < |lines|
      ensures '\n' !in lines[i]
    {
      if i > 0 {
        JoinFree(rows[i - 1], "\t", '\n');
      }
    }
    assert "\n" == ['\n'];
    SplitJoin(lines, '\n');
  }

  lemma RowReadsBack(row: seq<string>)
    requires |row| >= 1
    requires forall k :: 0 <= k < |row| ==> '\t' !in row[k]
    ensures Split(RowText(row), '\t') == row
  {
    assert "\t" == ['\t'];
    SplitJoin(row, '\t');
  }

  lemma {:induction false} JoinFree(parts: seq<string>, sep: string, c: char)
    requires c !in sep && forall k :: 0 <= k < |parts| ==> c !in parts[k]
    ensures c !in Join(parts, sep)
    decreases |parts|
  {
    if |parts| > 1 {
      JoinFree(parts[1..], sep, c);
    }
  }
}
