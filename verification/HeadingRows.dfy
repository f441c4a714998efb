/** Putting out a spanned heading: the grid of columns is turned into rows. */
module HeadingRows {
  import opened Common
  import opened Headings
  import opened HeadingTable

  /** The header cells of row `y` in the first `x` columns. */
  function TagsTo(h: Heading, g: Grid, x: nat, y: nat): seq<Slot> {
    if x == 0 then []
    else TagsTo(h, g, x - 1, y) + if At(g, Pos(x - 1, y)).Th? then [At(g, Pos(x - 1, y))] else []
  }

  lemma TagsNext(cell: Placed, rest: seq<Placed>)
    requires cell.th.Th? && forall i :: 0 <= i < |rest| ==> rest[i].th.Th?
    ensures Tags([cell] + rest) == [cell.th] + Tags(rest)
  {
  }

  lemma {:induction false} TagsSplit(h: Heading, g: Grid, x: nat, y: nat)
    requires x <= |h|
    ensures TagsTo(h, g, x, y) + Tags(RowCells(h, g, x, y)) == Tags(RowCells(h, g, 0, y))
  {
    if x > 0 {
      TagsSplit(h, g, x - 1, y);
      RowCellsNext(h, g, x - 1, y);
      var cell, before, rest := At(g, Pos(x - 1, y)), TagsTo(h, g, x - 1, y), RowCells(h, g, x, y);
      assert TagsTo(h, g, x, y) == if cell.Th? then before + [cell] else before;
      hide *;
      if cell.Th? {
        TagsNext(Placed(Pos(x - 1, y), cell), rest);
        Associate(before, [cell], Tags(rest));
      }
    } else {
      assert TagsTo(h, g, 0, y) == [];
      assert [] + Tags(RowCells(h, g, 0, y)) == Tags(RowCells(h, g, 0, y));
    }
  }

  lemma TagsAll(h: Heading, g: Grid, y: nat)
    ensures TagsTo(h, g, |h|, y) == Tags(RowCells(h, g, 0, y))
  {
    TagsSplit(h, g, |h|, y);
    assert RowCells(h, g, |h|, y) == [];
    assert TagsTo(h, g, |h|, y) + [] == TagsTo(h, g, |h|, y);
  }

  /** Reading a row past the end gives an empty one. */
  function RowAt(rows: seq<seq<Slot>>, y: nat): seq<Slot> {
    if y < |rows| then rows[y] else []
  }

  /** The rows so far: the first `x` columns are done, and the first `y` cells of the next one. */
  ghost predicate Done(h: Heading, g: Grid, rows: seq<seq<Slot>>, x: nat, y: nat) {
    && |rows| <= Rows(h) && (rows != [] ==> rows[|rows| - 1] != [])
    && forall r :: 0 <= r < Rows(h) ==> RowAt(rows, r) == TagsTo(h, g, if r < y then x + 1 else x, r)
  }

  /** A cell is added at the end of its row, which is filled up to if necessary. */
  function Store(rows: seq<seq<Slot>>, y: nat, cell: Slot): seq<seq<Slot>> {
    if y < |rows| then rows[y := rows[y] + [cell]] else rows + seq(y - |rows|, _ => []) + [[cell]]
  }

  lemma StoreRow(rows: seq<seq<Slot>>, y: nat, cell: Slot, r: nat)
    ensures RowAt(Store(rows, y, cell), r) == if r == y then RowAt(rows, y) + [cell] else RowAt(rows, r)
    ensures |Store(rows, y, cell)| == if y < |rows| then |rows| else y + 1
  {
  }

  lemma CellDone(h: Heading, g: Grid, rows: seq<seq<Slot>>, x: nat, y: nat)
    requires y < Rows(h) && Done(h, g, rows, x, y)
    ensures Done(h, g, if At(g, Pos(x, y)).Th? then Store(rows, y, At(g, Pos(x, y))) else rows, x, y + 1)
  {
    hide Store, At, Rows;
    var cell := At(g, Pos(x, y));
    var rows' := if cell.Th? then Store(rows, y, cell) else rows;
    StoreRow(rows, y, cell, if rows' == [] then 0 else |rows'| - 1);
    forall r | 0 <= r < Rows(h)
      ensures RowAt(rows', r) == TagsTo(h, g, if r < y + 1 then x + 1 else x, r)
    {
      StoreRow(rows, y, cell, r);
      assert TagsTo(h, g, x, y) + [] == TagsTo(h, g, x, y);
    }
  }

  lemma {:induction false} DoneIsTable(h: Heading, g: Grid, rows: seq<seq<Slot>>, n: nat)
    requires |rows| <= n && (rows != [] ==> rows[|rows| - 1] != [])
    requires forall r :: 0 <= r < n ==> RowAt(rows, r) == Tags(RowCells(h, g, 0, r))
    ensures rows == TableRows(h, g, n)
  {
    hide RowCells, Tags;
    if n > 0 {
      assert RowAt(rows, n - 1) == Tags(RowCells(h, g, 0, n - 1));
      if RowAt(rows, n - 1) == [] {
        DoneIsTable(h, g, rows, n - 1);
      } else {
        AllRowsShape(h, g, n);
        assert rows == AllRows(h, g, n);
      }
    }
  }

  /** Turns columns into rows, leaving out empty cells and empty rows at the end. */
  method InvertArray(h: Heading, g: Grid) returns (rows: seq<seq<Slot>>)
    ensures rows == TableRows(h, g, Rows(h))
  {
    hide TagsTo, Store, At, TableRows;
    rows := [];
    NothingDone(h, g);
    for x := 0 to |h|
      invariant Done(h, g, rows, x, 0)
    {
      for y := 0 to Rows(h)
        invariant Done(h, g, rows, x, y)
      {
        CellDone(h, g, rows, x, y);
        var cell := At(g, Pos(x, y));
        if cell.Th? {
          rows := Store(rows, y, cell);
        }
      }
    }
    forall r | 0 <= r < Rows(h)
      ensures RowAt(rows, r) == Tags(RowCells(h, g, 0, r))
    {
      TagsAll(h, g, r);
    }
    DoneIsTable(h, g, rows, Rows(h));
  }

  lemma NothingDone(h: Heading, g: Grid)
    ensures Done(h, g, [], 0, 0)
  {
  }

  /** From heading texts to rows of header cells: the table that a browser forms from the rows has every header
      cell of the spanned grid at its own place if and only if none stands to the right of a marked cell, so always
      without marked cells. */
  method HeadingTableRows(h: Heading) returns (rows: seq<seq<Slot>>, g: Grid)
    ensures Spannable(h, g, Pos(0, Rows(h))) && rows == TableRows(h, g, Rows(h))
    ensures forall r :: 0 <= r < |rows| ==> HeaderRow(rows[r])
    ensures FormTable(rows, |rows|).cells == GridCells(h, g, Rows(h)) <==> InOrder(h, g, Rows(h))
    ensures AllLive(h) ==> InOrder(h, g, Rows(h))
  {
    hide TableRows, Spannable, GridCells, AllLive, InOrder;
    ghost var owner;
    g, owner := ColRowSpan(h);
    rows := InvertArray(h, g);
    RowsAreHeaders(h, g);
    TableFormsBack(h, g, owner);
    if AllLive(h) {
      UnmarkedInOrder(h, g);
    }
  }

  lemma RowsAreHeaders(h: Heading, g: Grid)
    ensures forall r :: 0 <= r < |TableRows(h, g, Rows(h))| ==> HeaderRow(TableRows(h, g, Rows(h))[r])
  {
    hide RowCells, HeaderRow;
    LeftOutRowsEmpty(h, g, Rows(h));
    AllRowsShape(h, g, |TableRows(h, g, Rows(h))|);
  }
}
