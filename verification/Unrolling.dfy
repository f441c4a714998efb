/** The unrolling of one record's multivalued columns into printed rows.

    Every pass prints one row. A column is read in a pass only if the mark it stopped at is at least
    as deep as the deepest mark that any column stopped at in the pass before; the other columns
    print blanks and wait.
*/
module Unrolling {
  import opened MultiValue

  /** A printed cell: blank, or the leaf that starts at position `at` of its column. */
  datatype Cell = Blank | Shown(at: nat, text: string)

  /** The deepest mark at which any of the first `n` columns stopped. */
  function DeepestOf(cs: seq<Cursor>, n: nat): (m: nat)
    requires n <= |cs|
  {
    if n == 0 then 0
    else
      var rest := DeepestOf(cs, n - 1);
      if cs[n - 1].mark > rest then cs[n - 1].mark else rest
  }

  function Deepest(cs: seq<Cursor>): nat {
    DeepestOf(cs, |cs|)
  }

  lemma {:induction false} DeepestIsMax(cs: seq<Cursor>, n: nat)
    requires n <= |cs|
    ensures forall i :: 0 <= i < n ==> cs[i].mark <= DeepestOf(cs, n)
    ensures DeepestOf(cs, n) == 0 || exists i :: 0 <= i < n && cs[i].mark == DeepestOf(cs, n)
  {
    if n > 0 {
      DeepestIsMax(cs, n - 1);
    }
  }

  ghost predicate CursorsOk(cols: seq<string>, cs: seq<Cursor>) {
    |cs| == |cols| && forall i :: 0 <= i < |cs| ==> CursorOk(cols[i], cs[i])
  }

  /** Whether a pass may start from these cursors after a pass that stopped at mark `prev`. */
  ghost predicate Ready(cols: seq<string>, cs: seq<Cursor>, prev: nat) {
    && CursorsOk(cols, cs)
    && (if prev == 0 then forall i :: 0 <= i < |cs| ==> cs[i].mark != 0 else prev == Deepest(cs))
  }

  function Row(cols: seq<string>, cs: seq<Cursor>, prev: nat): (row: seq<Cell>)
    requires Ready(cols, cs, prev)
    ensures |row| == |cols|
    ensures forall i :: 0 <= i < |cols| ==>
      row[i] == if cs[i].mark >= prev then Shown(cs[i].pos, Leaf(cols[i], cs[i])) else Blank
  {
    seq(|cols|, i requires 0 <= i < |cols| => if cs[i].mark >= prev then Shown(cs[i].pos, Leaf(cols[i], cs[i])) else Blank)
  }

  function Pass(cols: seq<string>, cs: seq<Cursor>, prev: nat): (r: seq<Cursor>)
    requires Ready(cols, cs, prev)
    ensures |r| == |cols|
    ensures forall i :: 0 <= i < |cols| ==> r[i] == if cs[i].mark >= prev then Next(cols[i], cs[i]) else cs[i]
  {
    seq(|cols|, i requires 0 <= i < |cols| => if cs[i].mark >= prev then Next(cols[i], cs[i]) else cs[i])
  }

  function Total(counts: seq<nat>): nat {
    if counts == [] then 0 else counts[0] + Total(counts[1..])
  }

  lemma {:induction false} TotalShrinks(a: seq<nat>, b: seq<nat>)
    requires |a| == |b| && forall k :: 0 <= k < |a| ==> b[k] <= a[k]
    ensures Total(b) <= Total(a)
    ensures (exists k :: 0 <= k < |a| && b[k] < a[k]) ==> Total(b) < Total(a)
  {
    if a != [] {
      TotalShrinks(a[1..], b[1..]);
      if k :| 0 < k < |a| && b[k] < a[k] {
        assert b[1..][k - 1] < a[1..][k - 1];
      }
    }
  }

  /** How many leaves are still unread in all columns together. */
  ghost function Left(cols: seq<string>, cs: seq<Cursor>): nat
    requires CursorsOk(cols, cs)
  {
    Total(UnreadCounts(cols, cs))
  }

  ghost function UnreadCounts(cols: seq<string>, cs: seq<Cursor>): (ns: seq<nat>)
    requires CursorsOk(cols, cs)
    ensures |ns| == |cols|
  {
    seq(|cols|, i requires 0 <= i < |cols| => |Unread(cols[i], cs[i])|)
  }

  lemma PassReady(cols: seq<string>, cs: seq<Cursor>, prev: nat)
    requires Ready(cols, cs, prev)
    ensures var ds := Pass(cols, cs, prev); CursorsOk(cols, ds) && (Deepest(ds) != 0 ==> Ready(cols, ds, Deepest(ds)))
  {
  }

  /** Every pass that is followed by another one reads at least one leaf, so the passes end. */
  lemma PassReads(cols: seq<string>, cs: seq<Cursor>, prev: nat)
    requires Ready(cols, cs, prev) && cols != []
    ensures CursorsOk(cols, Pass(cols, cs, prev))
    ensures Left(cols, Pass(cols, cs, prev)) < Left(cols, cs)
  {
    var ds := Pass(cols, cs, prev);
    PassReady(cols, cs, prev);
    DeepestIsMax(cs, |cs|);
    var a, b := UnreadCounts(cols, cs), UnreadCounts(cols, ds);
    forall i | 0 <= i < |cs|
      ensures b[i] <= a[i]
      ensures cs[i].mark >= prev ==> b[i] < a[i]
    {
      if cs[i].mark >= prev {
        ReadTakesFirst(cols[i], cs[i]);
      }
    }
    var i :| 0 <= i < |cs| && cs[i].mark >= prev && (prev == 0 ==> i == 0);
    assert b[i] < a[i];
    TotalShrinks(a, b);
  }

  /** All the rows printed from here on. */
  function Rows(cols: seq<string>, cs: seq<Cursor>, prev: nat): (rows: seq<seq<Cell>>)
    requires Ready(cols, cs, prev)
    ensures |rows| > 0
    ensures forall r :: 0 <= r < |rows| ==> |rows[r]| == |cols|
    decreases Left(cols, cs)
  {
    PassReady(cols, cs, prev);
    var ds := Pass(cols, cs, prev);
    if Deepest(ds) == 0 then [Row(cols, cs, prev)]
    else
      PassReads(cols, cs, prev);
      [Row(cols, cs, prev)] + Rows(cols, ds, Deepest(ds))
  }

  function Starts(n: nat): seq<Cursor> {
    seq(n, _ => START)
  }

  /** The rows printed for one record. */
  function RecordRows(cols: seq<string>): (rows: seq<seq<Cell>>)
    ensures |rows| > 0
    ensures forall r :: 0 <= r < |rows| ==> |rows[r]| == |cols|
  {
    Rows(cols, Starts(|cols|), 0)
  }

  /** What column `i` shows, top to bottom, blanks left out. */
  function Column(rows: seq<seq<Cell>>, i: nat): seq<string>
    requires forall r :: 0 <= r < |rows| ==> i < |rows[r]|
  {
    if rows == [] then []
    else (if rows[0][i].Shown? then [rows[0][i].text] else []) + Column(rows[1..], i)
  }

  lemma {:induction false} RowsShowUnread(cols: seq<string>, cs: seq<Cursor>, prev: nat, i: nat)
    requires Ready(cols, cs, prev) && i < |cols|
    ensures Column(Rows(cols, cs, prev), i) == Unread(cols[i], cs[i])
    decreases Left(cols, cs)
  {
    var ds := Pass(cols, cs, prev);
    PassReady(cols, cs, prev);
    DeepestIsMax(ds, |ds|);
    if cs[i].mark >= prev {
      ReadTakesFirst(cols[i], cs[i]);
    }
    if Deepest(ds) != 0 {
      PassReads(cols, cs, prev);
      RowsShowUnread(cols, ds, Deepest(ds), i);
      assert Rows(cols, cs, prev)[1..] == Rows(cols, ds, Deepest(ds));
    } else {
      assert ds[i].mark == 0;
      assert Rows(cols, cs, prev)[1..] == [];
    }
  }

  /** Every leaf of every column is shown exactly once, in order, whatever marks the columns hold. */
  lemma EveryLeafOnce(cols: seq<string>, i: nat)
    requires i < |cols|
    ensures Column(RecordRows(cols), i) == Leaves(cols[i])
  {
    RowsShowUnread(cols, Starts(|cols|), 0, i);
    assert cols[i][0..] == cols[i];
  }

  /** Two texts whose marks follow each other in the same order. */
  ghost predicate SameMarks(s: string, t: string, a: nat, b: nat)
    requires a <= |s| && b <= |t|
    decreases |s| - a
  {
    var x, y := Next(s, Cursor(a, 0)), Next(t, Cursor(b, 0));
    x.mark == y.mark && (x.mark != 0 ==> SameMarks(s, t, x.pos, y.pos))
  }

  /** Two columns that stopped at the same mark and have the same marks ahead of them. */
  ghost predicate InStep(cols: seq<string>, cs: seq<Cursor>, i: nat, j: nat)
    requires CursorsOk(cols, cs) && i < |cols| && j < |cols|
  {
    cs[i].mark == cs[j].mark && (cs[i].mark != 0 ==> SameMarks(cols[i], cols[j], cs[i].pos, cs[j].pos))
  }

  lemma PassInStep(cols: seq<string>, cs: seq<Cursor>, prev: nat, i: nat, j: nat)
    requires Ready(cols, cs, prev) && i < |cols| && j < |cols| && InStep(cols, cs, i, j)
    ensures CursorsOk(cols, Pass(cols, cs, prev)) && InStep(cols, Pass(cols, cs, prev), i, j)
    ensures Row(cols, cs, prev)[i].Shown? <==> Row(cols, cs, prev)[j].Shown?
  {
  }

  /** Columns with the same marks are read in lock step: no row shows one and blanks the other. */
  lemma {:induction false} LockStep(cols: seq<string>, cs: seq<Cursor>, prev: nat, i: nat, j: nat)
    requires Ready(cols, cs, prev) && i < |cols| && j < |cols| && InStep(cols, cs, i, j)
    ensures forall row: seq<Cell> :: row in Rows(cols, cs, prev) ==> (row[i].Shown? <==> row[j].Shown?)
    decreases Left(cols, cs)
  {
    var ds := Pass(cols, cs, prev);
    PassReady(cols, cs, prev);
    DeepestIsMax(ds, |ds|);
    PassInStep(cols, cs, prev, i, j);
    if Deepest(ds) != 0 {
      PassReads(cols, cs, prev);
      LockStep(cols, ds, Deepest(ds), i, j);
    }
  }

  lemma SameMarksLockStep(cols: seq<string>, i: nat, j: nat)
    requires i < |cols| && j < |cols| && SameMarks(cols[i], cols[j], 0, 0)
    ensures forall row: seq<Cell> :: row in RecordRows(cols) ==> (row[i].Shown? <==> row[j].Shown?)
  {
    LockStep(cols, Starts(|cols|), 0, i, j);
  }

  /** What the unfinished columns have in common: those that wait below a value stand in value `v`,
      those that wait at a value mark stand at the start of value v + 1. */
  ghost predicate Aligned(cols: seq<string>, cs: seq<Cursor>, v: nat)
    requires CursorsOk(cols, cs)
  {
    forall i :: 0 <= i < |cs| && cs[i].mark != 0 ==>
      cs[i].mark >= VM_NO && ValueNo(cols[i], cs[i].pos) == v + if cs[i].mark == VM_NO then 1 else 0
  }

  lemma PassAligned(cols: seq<string>, cs: seq<Cursor>, prev: nat, v: nat)
    requires forall i :: 0 <= i < |cols| ==> NoMarkAboveValue(cols[i])
    requires Ready(cols, cs, prev) && Aligned(cols, cs, v)
    requires prev == 0 ==> forall i :: 0 <= i < |cs| ==> cs[i].mark > VM_NO
    ensures var u := if prev == VM_NO then v + 1 else v;
            OneValue(cols, Row(cols, cs, prev), u)
            && CursorsOk(cols, Pass(cols, cs, prev)) && Aligned(cols, Pass(cols, cs, prev), u)
  {
    var u := if prev == VM_NO then v + 1 else v;
    PassReady(cols, cs, prev);
    DeepestIsMax(cs, |cs|);
    forall i | 0 <= i < |cs| && cs[i].mark >= prev
      ensures ValueNo(cols[i], cs[i].pos) == u
    {
    }
    var ds := Pass(cols, cs, prev);
    forall i | 0 <= i < |ds| && ds[i].mark != 0
      ensures ds[i].mark >= VM_NO && ValueNo(cols[i], ds[i].pos) == u + if ds[i].mark == VM_NO then 1 else 0
    {
      if cs[i].mark >= prev {
        NextValueNo(cols[i], cs[i]);
      }
    }
  }

  lemma {:induction false} RowsAligned(cols: seq<string>, cs: seq<Cursor>, prev: nat, v: nat)
    requires forall i :: 0 <= i < |cols| ==> NoMarkAboveValue(cols[i])
    requires Ready(cols, cs, prev) && Aligned(cols, cs, v)
    requires prev == 0 ==> forall i :: 0 <= i < |cs| ==> cs[i].mark > VM_NO
    ensures forall row :: row in Rows(cols, cs, prev) ==> exists u :: OneValue(cols, row, u)
    decreases Left(cols, cs)
  {
    var ds := Pass(cols, cs, prev);
    PassReady(cols, cs, prev);
    DeepestIsMax(ds, |ds|);
    PassAligned(cols, cs, prev, v);
    if Deepest(ds) != 0 {
      PassReads(cols, cs, prev);
      RowsAligned(cols, ds, Deepest(ds), if prev == VM_NO then v + 1 else v);
    }
  }

  /** All the cells that a row shows stand in the value with the same number, each in its column. */
  ghost predicate OneValue(cols: seq<string>, row: seq<Cell>, v: nat) {
    |row| == |cols| && forall i :: 0 <= i < |row| && row[i].Shown? ==>
      && row[i].at <= |cols[i]|
      && row[i].text == cols[i][row[i].at..LeafEnd(cols[i], row[i].at)]
      && ValueNo(cols[i], row[i].at) == v
  }

  /** Associated values print side by side: when no column holds a mark above a value mark, every row
      shows, in all its columns, the same value number, however unequal the subvalues are. */
  lemma ValuesSideBySide(cols: seq<string>)
    requires forall i :: 0 <= i < |cols| ==> NoMarkAboveValue(cols[i])
    ensures forall row: seq<Cell> :: row in RecordRows(cols) ==> exists v :: OneValue(cols, row, v)
  {
    RowsAligned(cols, Starts(|cols|), 0, 0);
  }
}
