/** The heading grid as an HTML table: what the header cells cover, and where a browser puts them.
*/
module HeadingTable {
  import opened Common
  import opened Headings

  /** A finished heading grid. */
  ghost predicate Finished(h: Heading, g: Grid, owner: map<Pos, Pos>) {
    Spanned(h, g, owner, Pos(0, Rows(h)))
  }

  /** Every cell is covered by exactly one header cell, except those that the caller marked as no cell,
      which are covered by none; and what covers a cell has its text, or the cell is empty. */
  lemma CoveredOnce(h: Heading, g: Grid, owner: map<Pos, Pos>, p: Pos)
    requires Finished(h, g, owner) && InBox(h, p)
    ensures !At(g, p).Text?
    ensures Live(h, p) ==> exists a :: Covers(h, g, a, p) && SpanTextOk(h, a, At(g, a), p)
    ensures !Live(h, p) ==> forall a :: !Covers(h, g, a, p)
    ensures forall a, b :: Covers(h, g, a, p) && Covers(h, g, b, p) ==> a == b
  {
    assert CellOk(h, g, owner, Pos(0, Rows(h)), p);
    if p in owner {
      assert OwnerOk(h, g, owner, Pos(0, Rows(h)), p);
      assert Covers(h, g, owner[p], p);
    }
    forall a | Covers(h, g, a, p)
      ensures p in owner && owner[p] == a
    {
      assert CellOk(h, g, owner, Pos(0, Rows(h)), a);
    }
  }

  /** No cell of the heading is marked as no cell. */
  ghost predicate AllLive(h: Heading) {
    forall p :: InBox(h, p) ==> Live(h, p)
  }

  /** No header cell of a row stands to the right of a marked cell. */
  ghost predicate RowInOrder(h: Heading, g: Grid, y: nat) {
    forall x: nat, z: nat :: z < x < |h| && At(g, Pos(x, y)).Th? ==> Live(h, Pos(z, y))
  }

  ghost predicate InOrder(h: Heading, g: Grid, n: nat) {
    forall y: nat :: y < n ==> RowInOrder(h, g, y)
  }

  ghost predicate Covers(h: Heading, g: Grid, a: Pos, p: Pos) {
    InBox(h, a) && At(g, a).Th? && InSpan(a, At(g, a), p)
  }

  /** No header cell reaches outside the grid, and each spans as far as it can. */
  lemma SpansFit(h: Heading, g: Grid, owner: map<Pos, Pos>, a: Pos)
    requires Finished(h, g, owner) && InBox(h, a) && At(g, a).Th?
    ensures a.x + At(g, a).colspan <= |h| && a.y + At(g, a).rowspan <= Rows(h)
    ensures SpanMaximal(h, owner, a, At(g, a))
  {
    assert CellOk(h, g, owner, Pos(0, Rows(h)), a);
    var th := At(g, a);
    var last := Pos(a.x + th.colspan - 1, a.y + th.rowspan - 1);
    assert InSpan(a, th, last);
    assert last in owner;
  }

  lemma AnchorFacts(h: Heading, g: Grid, owner: map<Pos, Pos>, a: Pos, q: Pos)
    requires Finished(h, g, owner) && Covers(h, g, a, q)
    ensures q in owner && owner[q] == a && Live(h, q) && SpanTextOk(h, a, At(g, a), q)
    ensures SpanMaximal(h, owner, a, At(g, a))
  {
    assert CellOk(h, g, owner, Pos(0, Rows(h)), a);
    assert OwnerOk(h, g, owner, Pos(0, Rows(h)), q);
  }

  /** A live cell holds a header cell unless one that comes earlier covers it. */
  lemma FreeIsAnchor(h: Heading, g: Grid, owner: map<Pos, Pos>, p: Pos)
    requires Finished(h, g, owner) && Live(h, p)
    ensures p in owner && Covers(h, g, owner[p], p) && (owner[p] == p || Earlier(owner[p], p))
    ensures At(g, p).Th? <==> owner[p] == p
    ensures !At(g, p).Th? ==> At(g, p) == NoCell
  {
    assert CellOk(h, g, owner, Pos(0, Rows(h)), p);
    assert OwnerOk(h, g, owner, Pos(0, Rows(h)), p);
  }

  /** What a header cell's own place tells of it. */
  lemma OwnFacts(h: Heading, g: Grid, owner: map<Pos, Pos>, p: Pos)
    requires Finished(h, g, owner) && InBox(h, p) && At(g, p).Th?
    ensures At(g, p).text == TextAt(h, p) && SpanMaximal(h, owner, p, At(g, p))
  {
    SpansFit(h, g, owner, p);
    assert InSpan(p, At(g, p), p);
    AnchorFacts(h, g, owner, p, p);
  }

  /** One of two spans cannot be shorter: the cell at which it stops would have been merged. */
  lemma NotNarrower(h: Heading, g: Grid, owner: map<Pos, Pos>, g': Grid, owner': map<Pos, Pos>, p: Pos)
    requires Finished(h, g, owner) && Finished(h, g', owner') && InBox(h, p) && At(g, p).Th? && At(g', p).Th?
    requires forall q :: InBox(h, q) && Earlier(q, p) ==> At(g, q) == At(g', q)
    ensures At(g, p).colspan >= At(g', p).colspan
  {
    hide Finished, Rows;
    OwnFacts(h, g, owner, p);
    OwnFacts(h, g', owner', p);
    if At(g, p).colspan < At(g', p).colspan {
      var right := Pos(p.x + At(g, p).colspan, p.y);
      assert Covers(h, g', p, right);
      AnchorFacts(h, g', owner', p, right);
      FreeIsAnchor(h, g, owner, right);
      var b := owner[right];
      assert b.y < p.y;
      assert At(g, b) == At(g', b);
      AnchorFacts(h, g', owner', b, right);
    }
  }

  lemma NotLower(h: Heading, g: Grid, owner: map<Pos, Pos>, g': Grid, owner': map<Pos, Pos>, p: Pos)
    requires Finished(h, g, owner) && Finished(h, g', owner') && InBox(h, p) && At(g, p).Th? && At(g', p).Th?
    requires At(g, p).colspan == At(g', p).colspan == 1
    ensures At(g, p).rowspan >= At(g', p).rowspan
  {
    hide Finished, Rows;
    OwnFacts(h, g, owner, p);
    OwnFacts(h, g', owner', p);
    if At(g, p).rowspan < At(g', p).rowspan {
      var below := Pos(p.x, p.y + At(g, p).rowspan);
      assert Covers(h, g', p, below);
      AnchorFacts(h, g', owner', p, below);
    }
  }

  /** The header cells are determined by the headings: there is only one way to span them. */
  lemma {:induction false} SpansDetermined(
    h: Heading, g: Grid, owner: map<Pos, Pos>, g': Grid, owner': map<Pos, Pos>, p: Pos)
    requires Finished(h, g, owner) && Finished(h, g', owner') && InBox(h, p)
    ensures At(g, p) == At(g', p)
    decreases p.y, p.x
  {
    hide Finished, Rows, SpanMaximal;
    forall q | InBox(h, q) && Earlier(q, p)
      ensures At(g, q) == At(g', q)
    {
      SpansDetermined(h, g, owner, g', owner', q);
    }
    if Live(h, p) {
      FreeIsAnchor(h, g, owner, p);
      FreeIsAnchor(h, g', owner', p);
      if At(g, p).Th? && At(g', p).Th? {
        NotNarrower(h, g, owner, g', owner', p);
        NotNarrower(h, g', owner', g, owner, p);
        if At(g, p).colspan == 1 {
          NotLower(h, g, owner, g', owner', p);
          NotLower(h, g', owner', g, owner, p);
        }
        SpansAgree(h, g, owner, g', owner', p);
      } else if At(g, p).Th? {
        AnchorFacts(h, g, owner, owner'[p], p);
      } else if At(g', p).Th? {
        AnchorFacts(h, g', owner', owner[p], p);
      }
    } else {
      MarkedIsNoCell(h, g, owner, p);
      MarkedIsNoCell(h, g', owner', p);
    }
  }

  lemma SpansAgree(h: Heading, g: Grid, owner: map<Pos, Pos>, g': Grid, owner': map<Pos, Pos>, p: Pos)
    requires Finished(h, g, owner) && Finished(h, g', owner') && InBox(h, p) && At(g, p).Th? && At(g', p).Th?
    requires At(g, p).colspan == At(g', p).colspan
    requires At(g, p).colspan == 1 ==> At(g, p).rowspan == At(g', p).rowspan
    ensures At(g, p) == At(g', p)
  {
    OwnFacts(h, g, owner, p);
    OwnFacts(h, g', owner', p);
  }

  lemma MarkedIsNoCell(h: Heading, g: Grid, owner: map<Pos, Pos>, p: Pos)
    requires Finished(h, g, owner) && InBox(h, p) && !Live(h, p)
    ensures At(g, p) == NoCell
  {
    assert CellOk(h, g, owner, Pos(0, Rows(h)), p);
  }

  // ----- putting out the rows, and forming the table again -----

  /** A header cell and the slot that it is put in. */
  datatype Placed = Placed(at: Pos, th: Slot)

  /** The header cells of one row from column `x` on, with their places in the grid. */
  function RowCells(h: Heading, g: Grid, x: nat, y: nat): (cells: seq<Placed>)
    ensures forall i :: 0 <= i < |cells| ==> cells[i].th.Th?
    decreases |h| - x
  {
    if x >= |h| then []
    else (if At(g, Pos(x, y)).Th? then [Placed(Pos(x, y), At(g, Pos(x, y)))] else []) + RowCells(h, g, x + 1, y)
  }

  /** What is put out for a row: its header cells without their places. */
  function Tags(cells: seq<Placed>): (ths: seq<Slot>)
    ensures |ths| == |cells|
    ensures forall i :: 0 <= i < |cells| ==> ths[i] == cells[i].th
    ensures (forall i :: 0 <= i < |cells| ==> cells[i].th.Th?) ==> HeaderRow(ths)
  {
    seq(|cells|, i requires 0 <= i < |cells| => cells[i].th)
  }

  /** The rows put out: one list of header cells for each row up to the last row that has any. */
  function TableRows(h: Heading, g: Grid, n: nat): seq<seq<Slot>> {
    if n == 0 then []
    else
      var row := Tags(RowCells(h, g, 0, n - 1));
      if row == [] then TableRows(h, g, n - 1) else AllRows(h, g, n)
  }

  function AllRows(h: Heading, g: Grid, n: nat): seq<seq<Slot>> {
    if n == 0 then [] else AllRows(h, g, n - 1) + [Tags(RowCells(h, g, 0, n - 1))]
  }

  /** The first free slot of row `y` at or after `x`, in a table that is `width` slots wide. */
  function FirstFree(taken: set<Pos>, x: int, y: int, width: int): int
    decreases width - x
  {
    if x < width && Pos(x, y) in taken then FirstFree(taken, x + 1, y, width) else x
  }

  function Slots(a: Pos, th: Slot): set<Pos>
    requires th.Th?
  {
    set x, y | a.x <= x < a.x + th.colspan && a.y <= y < a.y + th.rowspan :: Pos(x, y)
  }

  /** The slots taken, the width so far, and where the cells were put. */
  datatype Table = Table(taken: set<Pos>, width: int, cells: seq<Placed>)

  /** The table with one more cell put at its place. */
  function Add(t: Table, p: Placed): Table
    requires p.th.Th?
  {
    var right := p.at.x + p.th.colspan;
    Table(t.taken + Slots(p.at, p.th), if t.width < right then right else t.width, t.cells + [p])
  }

  predicate HeaderRow(ths: seq<Slot>) {
    forall i :: 0 <= i < |ths| ==> ths[i].Th?
  }

  /** Puts the cells of one row in the first free slots, as HTML forms a table. */
  function FormRow(ths: seq<Slot>, x: int, y: int, t: Table): Table
    requires HeaderRow(ths)
  {
    if ths == [] then t
    else
      var x' := FirstFree(t.taken, x, y, t.width);
      var th := ths[0];
      FormRow(ths[1..], x' + th.colspan, y, Add(t, Placed(Pos(x', y), th)))
  }

  function FormTable(rows: seq<seq<Slot>>, n: nat): Table
    requires n <= |rows| && forall r :: 0 <= r < |rows| ==> HeaderRow(rows[r])
  {
    if n == 0 then Table({}, 0, []) else FormRow(rows[n - 1], 0, n - 1, FormTable(rows, n - 1))
  }

  /** The header cells of the first `n` rows with their places in the grid. */
  function GridCells(h: Heading, g: Grid, n: nat): seq<Placed> {
    if n == 0 then [] else GridCells(h, g, n - 1) + RowCells(h, g, 0, n - 1)
  }

  /** They are all header cells of those rows, each at its own place and once. */
  lemma {:induction false} GridCellsAll(h: Heading, g: Grid, n: nat, c: Placed)
    ensures c in GridCells(h, g, n) <==> 0 <= c.at.x < |h| && 0 <= c.at.y < n && At(g, c.at) == c.th && c.th.Th?
    ensures forall i, j :: 0 <= i < j < |GridCells(h, g, n)| ==> GridCells(h, g, n)[i].at != GridCells(h, g, n)[j].at
  {
    if n > 0 {
      GridCellsAll(h, g, n - 1, c);
      RowCellsAll(h, g, 0, n - 1);
      OlderRows(h, g, n - 1);
      hide RowCells;
      assert c.at == Pos(c.at.x, c.at.y);
    }
  }

  lemma {:induction false} OlderRows(h: Heading, g: Grid, n: nat)
    ensures forall i :: 0 <= i < |GridCells(h, g, n)| ==> GridCells(h, g, n)[i].at.y < n
  {
    if n > 0 {
      OlderRows(h, g, n - 1);
      RowCellsAll(h, g, 0, n - 1);
      hide RowCells;
      assert forall c :: c in RowCells(h, g, 0, n - 1) ==> c.at.y == n - 1;
    }
  }

  lemma {:induction false} RowCellsAll(h: Heading, g: Grid, x: nat, y: nat)
    ensures forall c :: c in RowCells(h, g, x, y) <==>
              x <= c.at.x < |h| && c.at.y == y && At(g, c.at) == c.th && c.th.Th?
    ensures forall i, j :: 0 <= i < j < |RowCells(h, g, x, y)| ==> RowCells(h, g, x, y)[i].at.x < RowCells(h, g, x, y)[j].at.x
    decreases |h| - x
  {
    if x < |h| {
      RowCellsAll(h, g, x + 1, y);
      hide At;
      assert forall c: Placed :: c.at.x == x && c.at.y == y ==> c.at == Pos(x, y);
    }
  }

  /** The table formed from the cells before `now`: the slots taken are those whose header cell comes
      before `now`. */
  ghost predicate Formed(h: Heading, owner: map<Pos, Pos>, t: Table, now: Pos) {
    && (forall p :: p in t.taken <==> p in owner && Earlier(owner[p], now))
    && (forall p :: p in t.taken ==> p.x < t.width)
  }

  lemma {:induction false} FirstFreeIs(taken: set<Pos>, from: int, x: int, y: int, width: int)
    requires from <= x && forall z :: from <= z < x ==> Pos(z, y) in taken
    requires forall p :: p in taken ==> p.x < width
    requires Pos(x, y) !in taken
    ensures FirstFree(taken, from, y, width) == x
    decreases x - from
  {
    if from < x {
      assert Pos(from, y) in taken;
      FirstFreeIs(taken, from + 1, x, y, width);
    }
  }

  /** All slots of row `y` between two columns are taken. */
  ghost predicate Gap(t: Table, y: int, a: int, b: int) {
    forall z :: a <= z < b ==> Pos(z, y) in t.taken
  }

  /** One more header cell goes to its own place. */
  lemma PutInPlace(h: Heading, g: Grid, owner: map<Pos, Pos>, t: Table, x: nat, y: nat, cur: int)
    requires Finished(h, g, owner) && InBox(h, Pos(x, y)) && At(g, Pos(x, y)).Th?
    requires Formed(h, owner, t, Pos(x, y)) && Gap(t, y, cur, x) && Gap(t, y, x, cur)
    ensures FirstFree(t.taken, cur, y, t.width) == x
    ensures var right := x + At(g, Pos(x, y)).colspan;
            var t' := Add(t, Placed(Pos(x, y), At(g, Pos(x, y))));
            Formed(h, owner, t', Pos(x + 1, y)) && Gap(t', y, x + 1, right) && Gap(t', y, right, x + 1)
  {
    hide Finished, Gap, FirstFree, Slots, At, InBox, Rows;
    var a, th := Pos(x, y), At(g, Pos(x, y));
    FreeHere(h, g, owner, t, x, y, cur);
    HeaderOwns(h, g, owner, a);
    SlotsOwned(h, g, owner, a);
    RowOfSlots(t, a, th);
  }

  /** The first free slot is the place of the next header cell of the row. */
  lemma FreeHere(h: Heading, g: Grid, owner: map<Pos, Pos>, t: Table, x: nat, y: nat, cur: int)
    requires Finished(h, g, owner) && InBox(h, Pos(x, y)) && At(g, Pos(x, y)).Th?
    requires Formed(h, owner, t, Pos(x, y)) && Gap(t, y, cur, x) && Gap(t, y, x, cur)
    ensures FirstFree(t.taken, cur, y, t.width) == x
  {
    hide Finished, At, InBox, Rows, FirstFree;
    HeaderOwns(h, g, owner, Pos(x, y));
    assert Pos(x, y) !in t.taken;
    assert x < cur ==> Pos(x, y) in t.taken;
    FirstFreeIs(t.taken, cur, x, y, t.width);
  }

  /** A header cell is its own owner and spans at least itself. */
  lemma HeaderOwns(h: Heading, g: Grid, owner: map<Pos, Pos>, a: Pos)
    requires Finished(h, g, owner) && InBox(h, a) && At(g, a).Th?
    ensures a in owner && owner[a] == a && At(g, a).colspan >= 1 && At(g, a).rowspan >= 1
  {
    assert CellOk(h, g, owner, Pos(0, Rows(h)), a);
  }

  /** The slots of a header cell are those that it owns. */
  lemma SlotsOwned(h: Heading, g: Grid, owner: map<Pos, Pos>, a: Pos)
    requires Finished(h, g, owner) && InBox(h, a) && At(g, a).Th?
    ensures forall p :: p in Slots(a, At(g, a)) <==> p in owner && owner[p] == a
  {
    assert CellOk(h, g, owner, Pos(0, Rows(h)), a);
    var th := At(g, a);
    forall p
      ensures p in Slots(a, th) <==> p in owner && owner[p] == a
    {
      SlotIsInSpan(a, th, p);
      if p in owner {
        assert OwnerOk(h, g, owner, Pos(0, Rows(h)), p);
      }
    }
  }

  lemma SlotIsInSpan(a: Pos, th: Slot, p: Pos)
    requires th.Th?
    ensures p in Slots(a, th) <==> InSpan(a, th, p)
    ensures p in Slots(a, th) ==> p.x < a.x + th.colspan
  {
  }

  /** With a header cell put, its row of slots is taken, and the table is wide enough. */
  lemma RowOfSlots(t: Table, a: Pos, th: Slot)
    requires th.Th? && th.colspan >= 1 && th.rowspan >= 1
    ensures var t' := Add(t, Placed(a, th));
            && Gap(t', a.y, a.x + 1, a.x + th.colspan) && Gap(t', a.y, a.x + th.colspan, a.x + 1)
            && t'.taken == t.taken + Slots(a, th) && t.width <= t'.width
            && (forall p :: p in Slots(a, th) ==> p.x < t'.width)
  {
  }

  /** A column of the row with no header cell of its own is taken already. */
  lemma PassOver(h: Heading, g: Grid, owner: map<Pos, Pos>, t: Table, x: nat, y: nat, cur: int)
    requires Finished(h, g, owner) && InBox(h, Pos(x, y)) && !At(g, Pos(x, y)).Th? && Live(h, Pos(x, y))
    requires Formed(h, owner, t, Pos(x, y)) && Gap(t, y, cur, x) && Gap(t, y, x, cur)
    ensures Formed(h, owner, t, Pos(x + 1, y)) && Gap(t, y, cur, x + 1) && Gap(t, y, x + 1, cur)
  {
    var p := Pos(x, y);
    assert CellOk(h, g, owner, Pos(0, Rows(h)), p);
    assert OwnerOk(h, g, owner, Pos(0, Rows(h)), p);
    assert p in t.taken;
    forall q | q in owner
      ensures owner[q] != p
    {
      assert OwnerOk(h, g, owner, Pos(0, Rows(h)), q);
    }
    forall q | q in owner
      ensures Earlier(owner[q], Pos(x + 1, y)) <==> Earlier(owner[q], p)
    {
      assert owner[q] != p;
    }
  }

  lemma EndOfRow(h: Heading, g: Grid, owner: map<Pos, Pos>, t: Table, y: nat)
    requires Finished(h, g, owner) && Formed(h, owner, t, Pos(|h|, y))
    ensures Formed(h, owner, t, Pos(0, y + 1))
  {
    forall p | p in owner
      ensures Earlier(owner[p], Pos(|h|, y)) <==> Earlier(owner[p], Pos(0, y + 1))
    {
      OwnerInBox(h, g, owner, p);
    }
  }

  ghost function FormCells(cells: seq<Placed>, x: int, y: int, t: Table): Table
    requires forall i :: 0 <= i < |cells| ==> cells[i].th.Th?
  {
    FormRow(Tags(cells), x, y, t)
  }

  lemma AddPlaces(t: Table, p: Placed)
    requires p.th.Th?
    ensures Add(t, p).cells == t.cells + [p]
  {
  }

  lemma FormNone(x: int, y: int, t: Table)
    ensures FormCells([], x, y, t) == t
  {
  }

  lemma FormFirst(cells: seq<Placed>, x: int, y: int, t: Table)
    requires cells != [] && forall i :: 0 <= i < |cells| ==> cells[i].th.Th?
    requires cells[0].at == Pos(FirstFree(t.taken, x, y, t.width), y)
    ensures FormCells(cells, x, y, t)
            == FormCells(cells[1..], cells[0].at.x + cells[0].th.colspan, y, Add(t, cells[0]))
  {
    assert Tags(cells)[1..] == Tags(cells[1..]);
  }

  lemma RowCellsNext(h: Heading, g: Grid, x: nat, y: nat)
    requires x < |h|
    ensures At(g, Pos(x, y)).Th? ==>
      RowCells(h, g, x, y) == [Placed(Pos(x, y), At(g, Pos(x, y)))] + RowCells(h, g, x + 1, y)
    ensures !At(g, Pos(x, y)).Th? ==> RowCells(h, g, x, y) == RowCells(h, g, x + 1, y)
  {
    hide At;
  }

  /** The table formed from a row goes on behind its first cell. */
  lemma FormRest(p: Placed, rest: seq<Placed>, cur: int, y: int, t: Table)
    requires p.th.Th? && (forall i :: 0 <= i < |rest| ==> rest[i].th.Th?)
    requires p.at == Pos(FirstFree(t.taken, cur, y, t.width), y)
    ensures FormCells([p] + rest, cur, y, t) == FormCells(rest, p.at.x + p.th.colspan, y, Add(t, p))
  {
    hide FirstFree, Add, FormCells;
    FormFirst([p] + rest, cur, y, t);
    assert ([p] + rest)[1..] == rest;
  }

  /** Forming the row from column `x` on puts its cells at their own places, and takes the table to the next row. */
  ghost predicate RowFormed(h: Heading, g: Grid, owner: map<Pos, Pos>, t: Table, x: nat, y: nat, cur: int) {
    var t' := FormCells(RowCells(h, g, x, y), cur, y, t);
    Formed(h, owner, t', Pos(0, y + 1)) && t'.cells == t.cells + RowCells(h, g, x, y)
  }

  /** What holds when the row has been formed up to column `x`. */
  ghost predicate Ready(h: Heading, g: Grid, owner: map<Pos, Pos>, t: Table, x: nat, y: nat, cur: int) {
    && Finished(h, g, owner) && RowInOrder(h, g, y) && y < Rows(h) && x <= |h|
    && Formed(h, owner, t, Pos(x, y)) && Gap(t, y, cur, x) && Gap(t, y, x, cur)
  }

  lemma ReadyInside(h: Heading, g: Grid, owner: map<Pos, Pos>, t: Table, x: nat, y: nat, cur: int)
    requires Ready(h, g, owner, t, x, y, cur)
    ensures x <= |h|
  {
    hide Finished, RowInOrder, Formed, Gap;
  }

  lemma RowEnds(h: Heading, g: Grid, owner: map<Pos, Pos>, t: Table, y: nat, cur: int)
    requires Ready(h, g, owner, t, |h|, y, cur)
    ensures RowFormed(h, g, owner, t, |h|, y, cur)
  {
    hide Finished, Formed, FormCells, Gap, RowInOrder;
    EndOfRow(h, g, owner, t, y);
    FormNone(cur, y, t);
    assert RowCells(h, g, |h|, y) == [];
    assert t.cells + [] == t.cells;
  }

  lemma RowGoesOn(h: Heading, g: Grid, owner: map<Pos, Pos>, t: Table, p: Placed, x: nat, y: nat, cur: int)
    requires Ready(h, g, owner, t, x, y, cur) && x < |h| && p == Placed(Pos(x, y), At(g, Pos(x, y))) && p.th.Th?
    ensures Ready(h, g, owner, Add(t, p), x + 1, y, x + p.th.colspan)
    ensures RowFormed(h, g, owner, Add(t, p), x + 1, y, x + p.th.colspan) ==> RowFormed(h, g, owner, t, x, y, cur)
  {
    hide RowCells, FirstFree, Add, FormCells, Formed, At, Finished, Gap, RowInOrder;
    PutInPlace(h, g, owner, t, x, y, cur);
    var rest := RowCells(h, g, x + 1, y);
    RowCellsNext(h, g, x, y);
    FormRest(p, rest, cur, y, t);
    AddPlaces(t, p);
    Associate(t.cells, [p], rest);
  }

  lemma RowPasses(h: Heading, g: Grid, owner: map<Pos, Pos>, t: Table, x: nat, y: nat, cur: int)
    requires Ready(h, g, owner, t, x, y, cur) && x < |h| && !At(g, Pos(x, y)).Th? && Live(h, Pos(x, y))
    ensures Ready(h, g, owner, t, x + 1, y, cur)
    ensures RowFormed(h, g, owner, t, x + 1, y, cur) ==> RowFormed(h, g, owner, t, x, y, cur)
  {
    hide RowCells, FormCells, Formed, At, Finished, Gap, RowInOrder, Live;
    PassOver(h, g, owner, t, x, y, cur);
    RowCellsNext(h, g, x, y);
  }

  /** From a marked cell on, a row in order has no header cells. */
  lemma {:induction false} NoCellsFrom(h: Heading, g: Grid, z: nat, x: nat, y: nat)
    requires RowInOrder(h, g, y) && z < |h| && !Live(h, Pos(z, y)) && !At(g, Pos(z, y)).Th? && z <= x
    ensures RowCells(h, g, x, y) == []
    decreases |h| - x
  {
    if x < |h| {
      assert !At(g, Pos(x, y)).Th?;
      NoCellsFrom(h, g, z, x + 1, y);
    }
  }

  lemma NoCellsFormed(h: Heading, g: Grid, owner: map<Pos, Pos>, t: Table, x: nat, y: nat)
    requires Finished(h, g, owner) && Formed(h, owner, t, Pos(x, y)) && x <= |h|
    requires forall x' :: x <= x' < |h| ==> !At(g, Pos(x', y)).Th?
    ensures Formed(h, owner, t, Pos(|h|, y))
  {
    forall p | p in owner
      ensures Earlier(owner[p], Pos(|h|, y)) <==> Earlier(owner[p], Pos(x, y))
    {
      OwnerInBox(h, g, owner, p);
      assert OwnerOk(h, g, owner, Pos(0, Rows(h)), p);
      assert owner[p] == Pos(owner[p].x, owner[p].y);
    }
  }

  lemma RowStops(h: Heading, g: Grid, owner: map<Pos, Pos>, t: Table, x: nat, y: nat, cur: int)
    requires Ready(h, g, owner, t, x, y, cur) && x < |h| && !At(g, Pos(x, y)).Th? && !Live(h, Pos(x, y))
    ensures RowFormed(h, g, owner, t, x, y, cur)
  {
    assert forall x' :: x <= x' < |h| ==> !At(g, Pos(x', y)).Th?;
    NoCellsFrom(h, g, x, x, y);
    hide Finished, Formed, FormCells, Gap, RowInOrder, RowCells, Live, At;
    NoCellsFormed(h, g, owner, t, x, y);
    EndOfRow(h, g, owner, t, y);
    FormNone(cur, y, t);
    assert t.cells + [] == t.cells;
  }

  lemma {:induction false} RowFormsBack(h: Heading, g: Grid, owner: map<Pos, Pos>, t: Table, x: nat, y: nat, cur: int)
    requires Ready(h, g, owner, t, x, y, cur)
    ensures RowFormed(h, g, owner, t, x, y, cur)
    decreases |h| - x
  {
    hide *;
    ReadyInside(h, g, owner, t, x, y, cur);
    if x == |h| {
      RowEnds(h, g, owner, t, y, cur);
    } else if At(g, Pos(x, y)).Th? {
      var p := Placed(Pos(x, y), At(g, Pos(x, y)));
      RowGoesOn(h, g, owner, t, p, x, y, cur);
      RowFormsBack(h, g, owner, Add(t, p), x + 1, y, x + p.th.colspan);
    } else if Live(h, Pos(x, y)) {
      RowPasses(h, g, owner, t, x, y, cur);
      RowFormsBack(h, g, owner, t, x + 1, y, cur);
    } else {
      RowStops(h, g, owner, t, x, y, cur);
    }
  }

  lemma OwnerInBox(h: Heading, g: Grid, owner: map<Pos, Pos>, p: Pos)
    requires Finished(h, g, owner) && p in owner
    ensures InBox(h, owner[p])
  {
    assert OwnerOk(h, g, owner, Pos(0, Rows(h)), p);
  }

  lemma {:induction false} AllRowsShape(h: Heading, g: Grid, n: nat)
    ensures |AllRows(h, g, n)| == n
    ensures forall r :: 0 <= r < n ==> AllRows(h, g, n)[r] == Tags(RowCells(h, g, 0, r))
  {
    if n > 0 {
      hide RowCells, Tags;
      AllRowsShape(h, g, n - 1);
    }
  }

  lemma NoneFormed(h: Heading, g: Grid, owner: map<Pos, Pos>)
    requires Finished(h, g, owner)
    ensures Formed(h, owner, Table({}, 0, []), Pos(0, 0))
  {
    forall p | p in owner
      ensures !Earlier(owner[p], Pos(0, 0))
    {
      OwnerInBox(h, g, owner, p);
    }
  }

  lemma NoGap(t: Table, y: nat)
    ensures Gap(t, y, 0, 0)
  {
  }

  lemma {:induction false} RowsFormBack(h: Heading, g: Grid, owner: map<Pos, Pos>, rows: seq<seq<Slot>>, n: nat)
    requires Finished(h, g, owner) && n <= |rows| <= Rows(h) && InOrder(h, g, n)
    requires forall r :: 0 <= r < |rows| ==> HeaderRow(rows[r])
    requires forall r :: 0 <= r < |rows| ==> rows[r] == Tags(RowCells(h, g, 0, r))
    ensures Formed(h, owner, FormTable(rows, n), Pos(0, n)) && FormTable(rows, n).cells == GridCells(h, g, n)
  {
    hide Finished, Formed, RowInOrder;
    if n == 0 {
      NoneFormed(h, g, owner);
    } else {
      RowsFormBack(h, g, owner, rows, n - 1);
      NoGap(FormTable(rows, n - 1), n - 1);
      RowFormsBack(h, g, owner, FormTable(rows, n - 1), 0, n - 1, 0);
    }
  }

  // ----- header cells to the right of a marked cell -----

  /** What holds before the first header cell of the row that goes astray: every cell so far is in its place. */
  ghost predicate Before(h: Heading, g: Grid, owner: map<Pos, Pos>, t: Table, x: nat, y: nat, cur: int) {
    && Finished(h, g, owner) && y < Rows(h) && x <= |h|
    && Formed(h, owner, t, Pos(x, y)) && Gap(t, y, cur, x) && Gap(t, y, x, cur)
    && (forall z :: 0 <= z < x ==> Live(h, Pos(z, y)))
  }

  /** The cells of the row are not all put where they stand in the grid. */
  ghost predicate RowAstray(h: Heading, g: Grid, t: Table, x: nat, y: nat, cur: int) {
    FormCells(RowCells(h, g, x, y), cur, y, t).cells != t.cells + RowCells(h, g, x, y)
  }

  lemma AstrayGoesOn(h: Heading, g: Grid, owner: map<Pos, Pos>, t: Table, p: Placed, x: nat, y: nat, cur: int)
    requires Before(h, g, owner, t, x, y, cur) && x < |h| && p == Placed(Pos(x, y), At(g, Pos(x, y))) && p.th.Th?
    requires Live(h, Pos(x, y))
    ensures Before(h, g, owner, Add(t, p), x + 1, y, x + p.th.colspan)
    ensures RowAstray(h, g, Add(t, p), x + 1, y, x + p.th.colspan) ==> RowAstray(h, g, t, x, y, cur)
  {
    hide RowCells, FirstFree, Add, FormCells, Formed, At, Finished, Gap, Live;
    PutInPlace(h, g, owner, t, x, y, cur);
    var rest := RowCells(h, g, x + 1, y);
    RowCellsNext(h, g, x, y);
    FormRest(p, rest, cur, y, t);
    AddPlaces(t, p);
    Associate(t.cells, [p], rest);
  }

  lemma AstrayPasses(h: Heading, g: Grid, owner: map<Pos, Pos>, t: Table, x: nat, y: nat, cur: int)
    requires Before(h, g, owner, t, x, y, cur) && x < |h| && !At(g, Pos(x, y)).Th? && Live(h, Pos(x, y))
    ensures Before(h, g, owner, t, x + 1, y, cur)
    ensures RowAstray(h, g, t, x + 1, y, cur) ==> RowAstray(h, g, t, x, y, cur)
  {
    hide RowCells, FormCells, Formed, At, Finished, Gap, Live;
    PassOver(h, g, owner, t, x, y, cur);
    RowCellsNext(h, g, x, y);
  }

  /** The first header cell from column `x` on. */
  lemma {:induction false} FirstHeader(h: Heading, g: Grid, x: nat, y: nat, x': nat)
    requires x <= x' < |h| && At(g, Pos(x', y)).Th?
    ensures RowCells(h, g, x, y) != [] && x <= RowCells(h, g, x, y)[0].at.x
    decreases |h| - x
  {
    RowCellsNext(h, g, x, y);
    if !At(g, Pos(x, y)).Th? {
      FirstHeader(h, g, x + 1, y, x');
    }
  }

  lemma MarkedNotOwned(h: Heading, g: Grid, owner: map<Pos, Pos>, p: Pos)
    requires Finished(h, g, owner) && InBox(h, p) && !Live(h, p)
    ensures p !in owner && !At(g, p).Th?
  {
    assert CellOk(h, g, owner, Pos(0, Rows(h)), p);
  }

  lemma MarkedIsFree(h: Heading, g: Grid, owner: map<Pos, Pos>, t: Table, x: nat, y: nat, cur: int)
    requires Before(h, g, owner, t, x, y, cur) && x < |h| && !Live(h, Pos(x, y))
    ensures FirstFree(t.taken, cur, y, t.width) == x
  {
    hide Finished, FirstFree, Live;
    MarkedNotOwned(h, g, owner, Pos(x, y));
    assert x < cur ==> Pos(x, y) in t.taken;
    FirstFreeIs(t.taken, cur, x, y, t.width);
  }

  /** At a marked cell with a header cell to its right: the header cell takes the marked cell's place. */
  lemma AstrayHere(h: Heading, g: Grid, owner: map<Pos, Pos>, t: Table, x: nat, y: nat, cur: int, x': nat)
    requires Before(h, g, owner, t, x, y, cur) && !Live(h, Pos(x, y)) && x < x' < |h| && At(g, Pos(x', y)).Th?
    ensures RowAstray(h, g, t, x, y, cur)
  {
    hide *;
    MarkedIsFree(h, g, owner, t, x, y, cur);
    RowCellsFrom(h, g, owner, x, y, x', cur, t);
    FirstPut(RowCells(h, g, x, y), cur, y, t);
    FirstDiffers(h, g, t, x, y, cur);
  }

  lemma RowCellsFrom(h: Heading, g: Grid, owner: map<Pos, Pos>, x: nat, y: nat, x': nat, cur: int, t: Table)
    requires Before(h, g, owner, t, x, y, cur) && !Live(h, Pos(x, y)) && x < x' < |h| && At(g, Pos(x', y)).Th?
    ensures RowCells(h, g, x, y) != [] && RowCells(h, g, x, y)[0].at.x > x
  {
    hide Finished, RowCells, Live, Formed, Gap;
    MarkedNotOwned(h, g, owner, Pos(x, y));
    RowCellsNext(h, g, x, y);
    FirstHeader(h, g, x + 1, y, x');
  }

  lemma FirstDiffers(h: Heading, g: Grid, t: Table, x: nat, y: nat, cur: int)
    requires RowCells(h, g, x, y) != [] && RowCells(h, g, x, y)[0].at.x > x
    requires |FormCells(RowCells(h, g, x, y), cur, y, t).cells| > |t.cells|
    requires FormCells(RowCells(h, g, x, y), cur, y, t).cells[|t.cells|].at == Pos(x, y)
    ensures RowAstray(h, g, t, x, y, cur)
  {
    hide RowCells, FormCells;
    assert (t.cells + RowCells(h, g, x, y))[|t.cells|] == RowCells(h, g, x, y)[0];
  }

  /** The first cell of a row is put in the first free slot, and stays there. */
  lemma FirstPut(cells: seq<Placed>, cur: int, y: int, t: Table)
    requires cells != [] && forall i :: 0 <= i < |cells| ==> cells[i].th.Th?
    ensures |FormCells(cells, cur, y, t).cells| > |t.cells|
    ensures FormCells(cells, cur, y, t).cells[|t.cells|].at == Pos(FirstFree(t.taken, cur, y, t.width), y)
  {
    hide FirstFree;
    var ths := Tags(cells);
    var x := FirstFree(t.taken, cur, y, t.width);
    var p := Placed(Pos(x, y), ths[0]);
    AddPlaces(t, p);
    FormRowGrows(ths[1..], x + ths[0].colspan, y, Add(t, p));
    hide Add;
    var all := FormRow(ths, cur, y, t).cells;
    assert all[..|t.cells| + 1] == t.cells + [p];
    assert all[..|t.cells| + 1][|t.cells|] == p;
  }

  lemma {:induction false} FormRowGrows(ths: seq<Slot>, x: int, y: int, t: Table)
    requires HeaderRow(ths)
    ensures |FormRow(ths, x, y, t).cells| == |t.cells| + |ths| && t.cells <= FormRow(ths, x, y, t).cells
    decreases |ths|
  {
    if ths != [] {
      hide FirstFree;
      var x' := FirstFree(t.taken, x, y, t.width);
      FormRowGrows(ths[1..], x' + ths[0].colspan, y, Add(t, Placed(Pos(x', y), ths[0])));
    }
  }

  lemma {:induction false} RowGoesAstray(
    h: Heading, g: Grid, owner: map<Pos, Pos>, t: Table, x: nat, y: nat, cur: int, z: nat, x': nat)
    requires Before(h, g, owner, t, x, y, cur)
    requires x <= z < x' < |h| && !Live(h, Pos(z, y)) && At(g, Pos(x', y)).Th?
    ensures RowAstray(h, g, t, x, y, cur)
    decreases |h| - x
  {
    hide *;
    if !Live(h, Pos(x, y)) {
      AstrayHere(h, g, owner, t, x, y, cur, x');
    } else if At(g, Pos(x, y)).Th? {
      var p := Placed(Pos(x, y), At(g, Pos(x, y)));
      AstrayGoesOn(h, g, owner, t, p, x, y, cur);
      RowGoesAstray(h, g, owner, Add(t, p), x + 1, y, x + p.th.colspan, z, x');
    } else {
      AstrayPasses(h, g, owner, t, x, y, cur);
      RowGoesAstray(h, g, owner, t, x + 1, y, cur, z, x');
    }
  }

  /** The first row that is not in order. */
  lemma {:induction false} FirstBadRow(h: Heading, g: Grid, n: nat) returns (y: nat)
    requires !InOrder(h, g, n)
    ensures y < n && InOrder(h, g, y) && !RowInOrder(h, g, y)
  {
    if n > 0 && !InOrder(h, g, n - 1) {
      y := FirstBadRow(h, g, n - 1);
    } else {
      y := n - 1;
    }
  }

  lemma BadRowAstray(h: Heading, g: Grid, owner: map<Pos, Pos>, t: Table, y: nat)
    requires Finished(h, g, owner) && y < Rows(h) && Formed(h, owner, t, Pos(0, y)) && !RowInOrder(h, g, y)
    ensures RowAstray(h, g, t, 0, y, 0)
  {
    var x: nat, z: nat :| z < x < |h| && At(g, Pos(x, y)).Th? && !Live(h, Pos(z, y));
    NoGap(t, y);
    hide Finished, Formed, Gap, RowAstray;
    RowGoesAstray(h, g, owner, t, 0, y, 0, z, x);
  }

  lemma {:induction false} TableGrows(rows: seq<seq<Slot>>, m: nat, n: nat)
    requires m <= n <= |rows| && forall r :: 0 <= r < |rows| ==> HeaderRow(rows[r])
    ensures FormTable(rows, m).cells <= FormTable(rows, n).cells
  {
    if m < n {
      TableGrows(rows, m, n - 1);
      FormRowGrows(rows[n - 1], 0, n - 1, FormTable(rows, n - 1));
    }
  }

  lemma {:induction false} GridGrows(h: Heading, g: Grid, m: nat, n: nat)
    requires m <= n
    ensures GridCells(h, g, m) <= GridCells(h, g, n)
  {
    if m < n {
      hide RowCells;
      GridGrows(h, g, m, n - 1);
    }
  }

  lemma OtherFront(a: seq<Placed>, b: seq<Placed>, c: seq<Placed>, d: seq<Placed>)
    requires a <= c && b <= d && |a| == |b|
    ensures a != b ==> c != d
  {
    assert a == c[..|a|] && b == d[..|a|];
  }

  lemma RowsAstray(h: Heading, g: Grid, owner: map<Pos, Pos>, rows: seq<seq<Slot>>, y: nat)
    requires Finished(h, g, owner) && y < |rows| <= Rows(h) && InOrder(h, g, y) && !RowInOrder(h, g, y)
    requires forall r :: 0 <= r < |rows| ==> HeaderRow(rows[r])
    requires forall r :: 0 <= r < |rows| ==> rows[r] == Tags(RowCells(h, g, 0, r))
    ensures FormTable(rows, |rows|).cells != GridCells(h, g, |rows|)
  {
    hide *;
    FirstRowAstray(h, g, owner, rows, y);
    TableGrows(rows, y + 1, |rows|);
    GridGrows(h, g, y + 1, |rows|);
    OtherFront(FormTable(rows, y + 1).cells, GridCells(h, g, y + 1), FormTable(rows, |rows|).cells, GridCells(h, g, |rows|));
  }

  lemma FirstRowAstray(h: Heading, g: Grid, owner: map<Pos, Pos>, rows: seq<seq<Slot>>, y: nat)
    requires Finished(h, g, owner) && y < |rows| <= Rows(h) && InOrder(h, g, y) && !RowInOrder(h, g, y)
    requires forall r :: 0 <= r < |rows| ==> HeaderRow(rows[r])
    requires forall r :: 0 <= r < |rows| ==> rows[r] == Tags(RowCells(h, g, 0, r))
    ensures FormTable(rows, y + 1).cells != GridCells(h, g, y + 1)
    ensures |FormTable(rows, y + 1).cells| == |GridCells(h, g, y + 1)|
  {
    hide *;
    RowsFormBack(h, g, owner, rows, y);
    BadRowAstray(h, g, owner, FormTable(rows, y), y);
    NextRowFormed(h, g, rows, y);
  }

  lemma NextRowFormed(h: Heading, g: Grid, rows: seq<seq<Slot>>, y: nat)
    requires y < |rows| && (forall r :: 0 <= r < |rows| ==> HeaderRow(rows[r])) && rows[y] == Tags(RowCells(h, g, 0, y))
    requires RowAstray(h, g, FormTable(rows, y), 0, y, 0) && FormTable(rows, y).cells == GridCells(h, g, y)
    ensures FormTable(rows, y + 1).cells != GridCells(h, g, y + 1)
    ensures |FormTable(rows, y + 1).cells| == |GridCells(h, g, y + 1)|
  {
    hide RowCells, FormRow;
    FormRowGrows(rows[y], 0, y, FormTable(rows, y));
  }

  lemma {:induction false} LeftOutRowsEmpty(h: Heading, g: Grid, n: nat)
    ensures |TableRows(h, g, n)| <= n && TableRows(h, g, n) == AllRows(h, g, |TableRows(h, g, n)|)
    ensures GridCells(h, g, n) == GridCells(h, g, |TableRows(h, g, n)|)
    ensures TableRows(h, g, n) != [] ==> TableRows(h, g, n)[|TableRows(h, g, n)| - 1] != []
  {
    AllRowsShape(h, g, n);
    if n > 0 && Tags(RowCells(h, g, 0, n - 1)) == [] {
      assert RowCells(h, g, 0, n - 1) == [];
      LeftOutRowsEmpty(h, g, n - 1);
    }
  }

  /** A row that is left out has no header cells, so it is in order. */
  lemma LeftOutInOrder(h: Heading, g: Grid, n: nat)
    requires n <= Rows(h) && GridCells(h, g, n) == GridCells(h, g, Rows(h))
    ensures InOrder(h, g, n) <==> InOrder(h, g, Rows(h))
  {
    forall y: nat | n <= y < Rows(h)
      ensures RowInOrder(h, g, y)
    {
      NoHeaders(h, g, n, y);
    }
  }

  lemma NoHeaders(h: Heading, g: Grid, n: nat, y: nat)
    requires n <= y < Rows(h) && GridCells(h, g, n) == GridCells(h, g, Rows(h))
    ensures RowInOrder(h, g, y)
  {
    hide RowCells;
    GridGrows(h, g, n, y);
    GridGrows(h, g, y + 1, Rows(h));
    assert GridCells(h, g, y + 1) == GridCells(h, g, y) + RowCells(h, g, 0, y);
    assert RowCells(h, g, 0, y) == [];
    forall x: nat | x < |h|
      ensures !At(g, Pos(x, y)).Th?
    {
      if At(g, Pos(x, y)).Th? {
        FirstHeader(h, g, 0, y, x);
      }
    }
  }

  /** A browser that forms a table from the rows puts every header cell back at its own row and column
      of the heading grid, although the rows only list the cells, if and only if no header cell stands to the
      right of a cell that the caller marked as no cell. */
  lemma TableFormsBack(h: Heading, g: Grid, owner: map<Pos, Pos>)
    requires Finished(h, g, owner)
    ensures var rows := TableRows(h, g, Rows(h));
            && (forall r :: 0 <= r < |rows| ==> HeaderRow(rows[r]))
            && (FormTable(rows, |rows|).cells == GridCells(h, g, Rows(h)) <==> InOrder(h, g, Rows(h)))
  {
    hide Spanned, InOrder, RowInOrder;
    var rows := TableRows(h, g, Rows(h));
    LeftOutRowsEmpty(h, g, Rows(h));
    AllRowsShape(h, g, |rows|);
    LeftOutInOrder(h, g, |rows|);
    if InOrder(h, g, |rows|) {
      RowsFormBack(h, g, owner, rows, |rows|);
    } else {
      var y := FirstBadRow(h, g, |rows|);
      RowsAstray(h, g, owner, rows, y);
    }
  }

  /** A marked cell followed by a text: the text's cell ends up in the marked one's place. */
  lemma MarkedShifts(text: string)
    requires text != "%~%"
    ensures var h: Heading := [["%~%"], [text]];
            var g: Grid := map[Pos(0, 0) := NoCell, Pos(1, 0) := Th(text, 1, 1)];
            var owner := map[Pos(1, 0) := Pos(1, 0)];
            var rows := TableRows(h, g, Rows(h));
            && Finished(h, g, owner) && (forall r :: 0 <= r < |rows| ==> HeaderRow(rows[r]))
            && FormTable(rows, |rows|).cells != GridCells(h, g, Rows(h))
  {
    var h: Heading := [["%~%"], [text]];
    var g: Grid := map[Pos(0, 0) := NoCell, Pos(1, 0) := Th(text, 1, 1)];
    var owner := map[Pos(1, 0) := Pos(1, 0)];
    OneRow(h);
    hide TableRows, FormTable, GridCells, Rows;
    assert !Live(h, Pos(0, 0));
    assert Finished(h, g, owner) by {
      forall p | InBox(h, p)
        ensures CellOk(h, g, owner, Pos(0, 1), p)
      {
        assert p == Pos(0, 0) || p == Pos(1, 0);
      }
    }
    assert At(g, Pos(1, 0)).Th? && !RowInOrder(h, g, 0) && !InOrder(h, g, 1);
    TableFormsBack(h, g, owner);
  }

  lemma OneRow(h: Heading)
    requires |h| == 2 && |h[0]| == 1 && |h[1]| == 1
    ensures Rows(h) == 1
  {
    assert h[..1][..0] == [] && h[..1][0] == h[0];
    assert Rows(h[..1]) == 1;
  }

  lemma UnmarkedInOrder(h: Heading, g: Grid)
    requires AllLive(h)
    ensures InOrder(h, g, Rows(h))
  {
  }
}
