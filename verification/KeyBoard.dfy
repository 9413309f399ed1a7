/** The weighted layout of the soft keyboard and its hit test (src/ftk_key_board.c). */
module KeyBoards {
  import opened Bytes

  // ---------------------------------------------------------------- shares

  function Sum(ws: seq<nat>): nat {
    if ws == [] then 0 else Sum(ws[..|ws| - 1]) + ws[|ws| - 1]
  }

  /** The part of `total` that falls to the weight `w`, rounded down. */
  function Share(total: nat, w: nat, sum: nat): nat
    requires sum > 0
  {
    total * w / sum
  }

  /** Where item `i` begins: behind the shares in front of it. */
  function Start(ws: seq<nat>, i: nat, total: nat): nat
    requires Sum(ws) > 0 && i <= |ws|
  {
    if i == 0 then 0 else Start(ws, i - 1, total) + Share(total, ws[i - 1], Sum(ws))
  }

  /** Products, by name so that the laws below are applied only where they are wanted. */
  function Times(a: int, b: int): int {
    a * b
  }

  lemma TimesAdd(a: int, b: int, c: int)
    ensures Times(a, b + c) == Times(a, b) + Times(a, c)
    ensures Times(a, 1) == a && Times(a, 0) == 0 && Times(a, b) == Times(b, a)
  {
  }

  lemma TimesGrows(s: nat, d: int)
    ensures s > 0 && d > 0 ==> Times(s, d) >= s
  {
  }

  lemma ShareBounds(total: nat, w: nat, sum: nat)
    requires sum > 0
    ensures Times(sum, Share(total, w, sum)) <= Times(total, w) <= Times(sum, Share(total, w, sum)) + (sum - 1)
  {
    var p := total * w;
    assert p == sum * (p / sum) + p % sum;
  }

  /** What rounding has lost so far: nothing is gained, and less than one unit per item is lost. */
  lemma {:induction false} StartBounds(ws: seq<nat>, i: nat, total: nat)
    requires Sum(ws) > 0 && i <= |ws|
    ensures var s, e := Sum(ws), Start(ws, i, total);
            Times(s, e) <= Times(total, Sum(ws[..i])) <= Times(s, e) + Times(s - 1, i)
  {
    hide Times, Share;
    var s := Sum(ws);
    if i > 0 {
      StartBounds(ws, i - 1, total);
      ShareBounds(total, ws[i - 1], s);
      assert ws[..i][..i - 1] == ws[..i - 1];
      TimesAdd(s, Start(ws, i - 1, total), Share(total, ws[i - 1], s));
      TimesAdd(total, Sum(ws[..i - 1]), ws[i - 1]);
      TimesAdd(s - 1, i - 1, 1);
    } else {
      TimesAdd(s, 0, 0);
      TimesAdd(total, 0, 0);
      TimesAdd(s - 1, 0, 0);
    }
  }

  lemma CancelAtMost(s: nat, a: int, b: int)
    requires s > 0 && Times(s, a) <= Times(s, b)
    ensures a <= b
  {
    TimesAdd(s, b, a - b);
    TimesGrows(s, a - b);
    hide Times;
  }

  lemma CancelLess(s: nat, a: int, b: int, n: nat)
    requires s > 0 && n > 0 && Times(s, a) <= Times(s, b) + Times(s - 1, n)
    ensures a < b + n
  {
    TimesAdd(s, b, a - b);
    TimesAdd(s, n, a - b - n);
    TimesAdd(n, s - 1, 1);
    TimesAdd(s - 1, n, 0);
    TimesGrows(s, a - b - n);
    TimesGrows(n, 1);
    TimesAdd(s, 0, a - b - n);
    ZeroOrMore(s, a - b - n);
    hide Times;
    assert Times(s, n) == Times(s - 1, n) + n by {
      TimesAdd(s, n, 0);
    }
  }

  lemma ZeroOrMore(s: nat, d: int)
    ensures d >= 0 ==> Times(s, d) >= 0
  {
  }

  /** All the items together take at most the total, and leave fewer units over than there are items. */
  lemma SharesFill(ws: seq<nat>, total: nat)
    requires Sum(ws) > 0
    ensures Start(ws, |ws|, total) <= total < Start(ws, |ws|, total) + |ws|
  {
    StartBounds(ws, |ws|, total);
    assert ws[..|ws|] == ws;
    var s, e := Sum(ws), Start(ws, |ws|, total);
    TimesAdd(total, s, 0);
    hide Start, Times;
    CancelAtMost(s, e, total);
    CancelLess(s, total, e, |ws|);
  }

  // ---------------------------------------------------------------- rows of cells

  /** FtkKeyBoardCell; `key` stands for its text, action and icons. */
  datatype Cell = Cell(x: nat, width: nat, weight: nat, key: int)

  /** FtkKeyBoardRow */
  datatype Row = Row(y: nat, height: nat, weight: nat, cells: array<Cell>)

  function CellWeights(cells: seq<Cell>): (ws: seq<nat>)
    ensures |ws| == |cells|
  {
    seq(|cells|, i requires 0 <= i < |cells| => cells[i].weight)
  }

  function RowWeights(rows: seq<Row>): (ws: seq<nat>)
    ensures |ws| == |rows|
  {
    seq(|rows|, i requires 0 <= i < |rows| => rows[i].weight)
  }

  /** The cell `c` of a row once it has been laid out. */
  function PlacedCell(cells: seq<Cell>, c: nat, width: nat): Cell
    requires c < |cells| && Sum(CellWeights(cells)) > 0
  {
    var ws := CellWeights(cells);
    cells[c].(x := Start(ws, c, width), width := Share(width, ws[c], Sum(ws)))
  }

  function PlacedRow(rows: seq<Row>, r: nat, height: nat): Row
    requires r < |rows| && Sum(RowWeights(rows)) > 0
  {
    var ws := RowWeights(rows);
    rows[r].(y := Start(ws, r, height), height := Share(height, ws[r], Sum(ws)))
  }

  /** The loop that adds up the weights. */
  method TotalWeight(cells: array<Cell>) returns (sum: nat)
    ensures sum == Sum(CellWeights(cells[..]))
  {
    sum := 0;
    ghost var ws := CellWeights(cells[..]);
    for c := 0 to cells.Length
      invariant sum == Sum(ws[..c])
    {
      assert ws[..c + 1][..c] == ws[..c];
      sum := sum + cells[c].weight;
    }
    assert ws[..|ws|] == ws;
  }

  /** The loop over the cells of one row. */
  method LayoutCells(cells: array<Cell>, width: nat)
    requires cells.Length > 0 ==> Sum(CellWeights(cells[..])) > 0
    modifies cells
    ensures forall c :: 0 <= c < cells.Length ==> cells[c] == PlacedCell(old(cells[..]), c, width)
  {
    hide Share, Sum;
    var sum := TotalWeight(cells);
    ghost var before := cells[..];
    ghost var ws := CellWeights(before);
    var x := 0;
    for c := 0 to cells.Length
      invariant cells.Length > 0 ==> x == Start(ws, c, width)
      invariant forall i :: 0 <= i < c ==> cells[i] == PlacedCell(before, i, width)
      invariant forall i :: c <= i < cells.Length ==> cells[i] == before[i]
    {
      assert ws[c] == cells[c].weight;
      cells[c] := cells[c].(x := x);
      cells[c] := cells[c].(width := Share(width, cells[c].weight, sum));
      x := x + cells[c].width;
    }
  }

  // ---------------------------------------------------------------- a view

  /** A row does not share its cells with another. */
  ghost predicate RowsApart(rows: seq<Row>) {
    forall i, j :: 0 <= i < j < |rows| ==> rows[i].cells != rows[j].cells
  }

  ghost function AllCells(rows: seq<Row>): set<array<Cell>> {
    set r | 0 <= r < |rows| :: rows[r].cells
  }

  /** Every row that is not empty has something to share out. */
  ghost predicate Weighted(rows: seq<Row>)
    reads AllCells(rows)
  {
    && (rows != [] ==> Sum(RowWeights(rows)) > 0)
    && forall r :: 0 <= r < |rows| && rows[r].cells.Length > 0 ==> Sum(CellWeights(rows[r].cells[..])) > 0
  }

  ghost function CellsOf(rows: seq<Row>): (cells: seq<seq<Cell>>)
    reads AllCells(rows)
    ensures |cells| == |rows| && forall r :: 0 <= r < |rows| ==> cells[r] == rows[r].cells[..]
  {
    if rows == [] then [] else
      assert rows[|rows| - 1].cells in AllCells(rows);
      assert forall c <- AllCells(rows[..|rows| - 1]) :: c in AllCells(rows);
      CellsOf(rows[..|rows| - 1]) + [rows[|rows| - 1].cells[..]]
  }

  /** The rows and their cells have got the places of their shares; they were `before` and `cells`. */
  ghost predicate Laid(rows: seq<Row>, before: seq<Row>, cells: seq<seq<Cell>>, width: nat, height: nat)
    reads AllCells(before)
  {
    && |rows| == |before| == |cells| && (before != [] ==> Sum(RowWeights(before)) > 0)
    && (forall r :: 0 <= r < |before| ==> rows[r] == PlacedRow(before, r, height))
    && (forall r :: 0 <= r < |before| ==>
          && |cells[r]| == before[r].cells.Length && (cells[r] != [] ==> Sum(CellWeights(cells[r])) > 0)
          && forall c :: 0 <= c < |cells[r]| ==> before[r].cells[c] == PlacedCell(cells[r], c, width))
  }

  method TotalHeightWeight(rows: array<Row>) returns (sum: nat)
    ensures sum == Sum(RowWeights(rows[..]))
  {
    sum := 0;
    ghost var ws := RowWeights(rows[..]);
    for r := 0 to rows.Length
      invariant sum == Sum(ws[..r])
    {
      assert ws[..r + 1][..r] == ws[..r];
      sum := sum + rows[r].weight;
    }
    assert ws[..|ws|] == ws;
  }

  /** The body of the loop of ftk_key_board_desc_layout: one view. */
  method LayoutView(rows: array<Row>, width: nat, height: nat)
    requires RowsApart(rows[..]) && Weighted(rows[..])
    modifies rows, AllCells(rows[..])
    ensures Laid(rows[..], old(rows[..]), old(CellsOf(rows[..])), width, height)
  {
    hide Share, Sum, CellWeights, Start;
    var sum := TotalHeightWeight(rows);
    ghost var before := rows[..];
    ghost var ws := RowWeights(before);
    if rows.Length > 0 {
      StartZero(ws, height);
    }
    var y := 0;
    for r := 0 to rows.Length
      invariant rows.Length > 0 ==> y == Start(ws, r, height)
      invariant forall i :: 0 <= i < r ==> rows[i] == PlacedRow(before, i, height)
      invariant forall i :: r <= i < rows.Length ==> rows[i] == before[i]
      invariant forall i, c :: 0 <= i < r && 0 <= c < before[i].cells.Length ==>
                  before[i].cells[c] == PlacedCell(old(before[i].cells[..]), c, width)
      invariant forall i :: r <= i < |before| ==> before[i].cells[..] == old(before[i].cells[..])
    {
      StartNext(ws, r, height);
      assert ws[r] == rows[r].weight;
      rows[r] := rows[r].(y := y);
      rows[r] := rows[r].(height := Share(height, rows[r].weight, sum));
      y := y + rows[r].height;
      LayoutCells(rows[r].cells, width);
    }
  }

  ghost function ViewCells(views: seq<array<Row>>): set<array<Cell>>
    reads set v | 0 <= v < |views| :: views[v]
  {
    set v, r | 0 <= v < |views| && 0 <= r < views[v].Length :: views[v][r].cells
  }

  /** No two views share rows or cells. */
  ghost predicate ViewsApart(views: seq<array<Row>>)
    reads set v | 0 <= v < |views| :: views[v]
  {
    && (forall u, v :: 0 <= u < v < |views| ==> views[u] != views[v])
    && forall u, v :: 0 <= u < v < |views| ==> AllCells(views[u][..]) !! AllCells(views[v][..])
  }

  /** The views in front of `v` are laid out, and the others are as they were. */
  ghost predicate LaidUpTo(views: seq<array<Row>>, v: nat, before: seq<seq<Row>>, cells: seq<seq<seq<Cell>>>,
                           width: nat, height: nat)
    requires v <= |views| == |before| == |cells|
    reads set u | 0 <= u < |views| :: views[u]
    reads set u, r | 0 <= u < |before| && 0 <= r < |before[u]| :: before[u][r].cells
  {
    && (forall u :: 0 <= u < v ==> Laid(views[u][..], before[u], cells[u], width, height))
    && (forall u :: v <= u < |views| ==>
          views[u][..] == before[u] && CellsOf(before[u]) == cells[u] && Weighted(before[u]))
  }

  /** One round of the loop. */
  method LayoutNext(views: seq<array<Row>>, v: nat, width: nat, height: nat,
                    ghost before: seq<seq<Row>>, ghost cells: seq<seq<seq<Cell>>>)
    requires v < |views| == |before| == |cells| && LaidUpTo(views, v, before, cells, width, height)
    requires RowsApart(before[v])
    requires forall u :: 0 <= u < |views| && u != v ==>
               views[u] != views[v] && AllCells(before[u]) !! AllCells(before[v])
    modifies views[v], AllCells(before[v])
    ensures LaidUpTo(views, v + 1, before, cells, width, height)
  {
    hide Laid, Weighted, CellsOf;
    assert views[v][..] == before[v];
    LayoutView(views[v], width, height);
    forall u | 0 <= u < |views|
      ensures u <= v ==> Laid(views[u][..], before[u], cells[u], width, height)
      ensures u > v ==> views[u][..] == before[u] && CellsOf(before[u]) == cells[u] && Weighted(before[u])
    {
      assert u != v ==> AllCells(before[u]) !! AllCells(before[v]);
      assert u != v ==> views[u][..] == old(views[u][..]);
    }
  }

  /** ftk_key_board_desc_layout */
  method Layout(views: seq<array<Row>>, width: nat, height: nat)
    requires ViewsApart(views)
    requires forall v :: 0 <= v < |views| ==> RowsApart(views[v][..]) && Weighted(views[v][..])
    modifies set v | 0 <= v < |views| :: views[v]
    modifies ViewCells(views)
    ensures forall v :: 0 <= v < |views| ==>
              Laid(views[v][..], old(views[v][..]), old(CellsOf(views[v][..])), width, height)
  {
    hide Laid, Weighted, CellsOf, AllCells, RowsApart;
    ghost var before := seq(|views|, v requires 0 <= v < |views| => old(views[v][..]));
    ghost var cells := seq(|views|, v requires 0 <= v < |views| => old(CellsOf(views[v][..])));
    CellsListed(views);
    for v := 0 to |views|
      invariant LaidUpTo(views, v, before, cells, width, height)
    {
      LayoutNext(views, v, width, height, before, cells);
    }
  }

  lemma CellsListed(views: seq<array<Row>>)
    ensures forall v :: 0 <= v < |views| ==> AllCells(views[v][..]) <= ViewCells(views)
  {
  }

  lemma StartZero(ws: seq<nat>, total: nat)
    requires Sum(ws) > 0
    ensures Start(ws, 0, total) == 0
  {
  }

  lemma StartNext(ws: seq<nat>, i: nat, total: nat)
    requires Sum(ws) > 0 && i < |ws|
    ensures Start(ws, i + 1, total) == Start(ws, i, total) + Share(total, ws[i], Sum(ws))
  {
    hide Share, Sum;
  }

  // ---------------------------------------------------------------- hit testing

  predicate InRow(row: Row, y: nat) {
    row.y <= y < row.y + row.height
  }

  predicate InCell(cell: Cell, x: nat) {
    cell.x <= x < cell.x + cell.width
  }

  /** Cell `c` of row `r` contains the point. */
  predicate Hit(rows: seq<Row>, r: int, c: int, x: nat, y: nat)
    requires 0 <= r < |rows|
    reads rows[r].cells
  {
    InRow(rows[r], y) && 0 <= c < rows[r].cells.Length && InCell(rows[r].cells[c], x)
  }

  /** ftk_key_board_find_cell: a cell that contains the point, or None exactly if none does. */
  method FindCell(rows: array<Row>, x: nat, y: nat) returns (found: Option<(nat, nat)>)
    ensures found.Some? ==> found.value.0 < rows.Length && Hit(rows[..], found.value.0, found.value.1, x, y)
    ensures found.None? ==> forall r, c :: 0 <= r < rows.Length ==> !Hit(rows[..], r, c, x, y)
  {
    for r := 0 to rows.Length
      invariant forall i, c :: 0 <= i < r ==> !Hit(rows[..], i, c, x, y)
    {
      var row := rows[r];
      if y < row.y || y >= row.y + row.height {
        continue;
      }
      for c := 0 to row.cells.Length
        invariant forall j :: 0 <= j < c ==> !InCell(row.cells[j], x)
      {
        if InCell(row.cells[c], x) {
          return Some((r, c));
        }
      }
    }
    return None;
  }

  /** Position `p` lies in item `i`. */
  predicate InItem(ws: seq<nat>, i: nat, total: nat, p: nat)
    requires Sum(ws) > 0 && i < |ws|
  {
    Start(ws, i, total) <= p < Start(ws, i, total) + Share(total, ws[i], Sum(ws))
  }

  lemma {:induction false} StartGrows(ws: seq<nat>, i: nat, j: nat, total: nat)
    requires Sum(ws) > 0 && i < j <= |ws|
    ensures Start(ws, i, total) + Share(total, ws[i], Sum(ws)) <= Start(ws, j, total)
    decreases j
  {
    hide Share, Sum;
    if i + 1 < j {
      StartGrows(ws, i, j - 1, total);
    }
  }

  /** Items do not overlap, and together they cover everything up to the end of the last one. */
  lemma {:induction false} CoverOnce(ws: seq<nat>, n: nat, total: nat, p: nat)
    requires Sum(ws) > 0 && n <= |ws| && p < Start(ws, n, total)
    ensures exists i :: 0 <= i < n && InItem(ws, i, total, p)
  {
    hide Share, Sum;
    if n > 0 && p >= Start(ws, n - 1, total) {
      assert InItem(ws, n - 1, total, p);
    } else if n > 0 {
      CoverOnce(ws, n - 1, total, p);
    }
  }

  lemma ItemIsUnique(ws: seq<nat>, i: nat, j: nat, total: nat, p: nat)
    requires Sum(ws) > 0 && i < |ws| && j < |ws| && InItem(ws, i, total, p) && InItem(ws, j, total, p)
    ensures i == j
  {
    hide Share, Sum, Start;
    if i < j {
      StartGrows(ws, i, j, total);
    } else if j < i {
      StartGrows(ws, j, i, total);
    }
  }

  /** In a view that has been laid out, at most one cell contains a point. */
  lemma HitIsUnique(rows: seq<Row>, before: seq<Row>, cells: seq<seq<Cell>>, width: nat, height: nat,
                    x: nat, y: nat, r: nat, c: nat, q: nat, d: nat)
    requires Laid(rows, before, cells, width, height)
    requires r < |rows| && q < |rows| && Hit(rows, r, c, x, y) && Hit(rows, q, d, x, y)
    ensures r == q && c == d
  {
    hide Share, Sum, Start;
    ItemIsUnique(RowWeights(before), r, q, height, y);
    ItemIsUnique(CellWeights(cells[r]), c, d, width, x);
  }

  lemma LastEnd(ws: seq<nat>, total: nat)
    requires Sum(ws) > 0 && ws != []
    ensures Start(ws, |ws| - 1, total) + Share(total, ws[|ws| - 1], Sum(ws)) == Start(ws, |ws|, total)
  {
    hide Share, Sum;
  }

  /**
   In a view that has been laid out, every height up to the end of the last row lies in a row, and
   every point of a row up to the end of its last cell in one of its cells.
   */
  lemma EveryPointIsHit(rows: seq<Row>, before: seq<Row>, cells: seq<seq<Cell>>, width: nat, height: nat, x: nat, y: nat)
    requires Laid(rows, before, cells, width, height) && rows != []
    requires y < rows[|rows| - 1].y + rows[|rows| - 1].height
    ensures exists r :: 0 <= r < |rows| && InRow(rows[r], y)
    ensures forall r :: 0 <= r < |rows| && InRow(rows[r], y) && cells[r] != [] ==>
              var last := rows[r].cells[|cells[r]| - 1];
              x < last.x + last.width ==> exists c :: Hit(rows, r, c, x, y)
  {
    hide Share, Sum, Start;
    var ws := RowWeights(before);
    LastEnd(ws, height);
    CoverOnce(ws, |ws|, height, y);
    var q :| 0 <= q < |ws| && InItem(ws, q, height, y);
    assert InRow(rows[q], y);
    forall r | 0 <= r < |rows| && InRow(rows[r], y) && cells[r] != []
      ensures x < rows[r].cells[|cells[r]| - 1].x + rows[r].cells[|cells[r]| - 1].width ==> exists c :: Hit(rows, r, c, x, y)
    {
      if x < rows[r].cells[|cells[r]| - 1].x + rows[r].cells[|cells[r]| - 1].width {
        var cs := CellWeights(cells[r]);
        LastEnd(cs, width);
        CoverOnce(cs, |cs|, width, x);
        var c :| 0 <= c < |cs| && InItem(cs, c, width, x);
        assert Hit(rows, r, c, x, y);
      }
    }
  }

  /** Fewer pixels than there are rows, or cells in the row, are left over at the far edges. */
  lemma EdgesReached(rows: seq<Row>, before: seq<Row>, cells: seq<seq<Cell>>, width: nat, height: nat, r: nat)
    requires Laid(rows, before, cells, width, height) && r < |rows|
    ensures var last := rows[|rows| - 1];
            last.y + last.height <= height < last.y + last.height + |rows|
    ensures cells[r] != [] ==>
              var last := rows[r].cells[|cells[r]| - 1];
              last.x + last.width <= width < last.x + last.width + |cells[r]|
  {
    hide Share, Sum, Start;
    LastEnd(RowWeights(before), height);
    SharesFill(RowWeights(before), height);
    if cells[r] != [] {
      LastEnd(CellWeights(cells[r]), width);
      SharesFill(CellWeights(cells[r]), width);
    }
  }
}
