/** The report engine: control breaks, running totals and the unrolling of multivalued columns, as
    nlist keeps them in its work arrays.
*/
module Report {
  import opened Common
  import opened MultiValue
  import opened Unrolling
  import opened ControlBreaks

  // ----- what closing levels does to the totals and to the remembered break values -----

  /** The totals by column and level; level 0 is not used, the level above all breaks is the grand total. */
  type Totals = seq<seq<int>>

  ghost predicate TotalsOk(y: Layout, t: Totals) {
    |t| == |y.total| && forall c :: 0 <= c < |t| ==> |t[c]| == |y.breakCols| + 2
  }

  /** Carries the totals of one level into the next and clears them. */
  function Carry(y: Layout, t: Totals, level: nat): (r: Totals)
    requires TotalsOk(y, t) && 1 <= level <= |y.breakCols| + 1
    ensures TotalsOk(y, r)
  {
    seq(|t|, c requires 0 <= c < |t| => CarryColumn(y, t, level, c))
  }

  function CarryColumn(y: Layout, t: Totals, level: nat, c: nat): (r: seq<int>)
    requires TotalsOk(y, t) && 1 <= level <= |y.breakCols| + 1 && c < |t|
    ensures |r| == |t[c]|
  {
    if !y.total[c] then t[c]
    else if level <= |y.breakCols| then t[c][level := 0][level + 1 := t[c][level + 1] + t[c][level]]
    else t[c][level := 0]
  }

  function CarryTo(y: Layout, t: Totals, b: nat): (r: Totals)
    requires TotalsOk(y, t) && b <= |y.breakCols| + 1
    ensures TotalsOk(y, r)
  {
    if b == 0 then t else Carry(y, CarryTo(y, t, b - 1), b)
  }

  /** Remembers the new value of the break column of one level, unless that column is totalled. */
  function Remember(y: Layout, old_: Record, cur: Record, level: nat): (r: Record)
    requires y.Ok() && y.Fits(old_) && y.Fits(cur) && 1 <= level
    ensures y.Fits(r)
  {
    if level <= |y.breakCols| && !y.total[y.BreakCol(level)]
    then old_[y.BreakCol(level) := cur[y.BreakCol(level)]]
    else old_
  }

  function RememberTo(y: Layout, old_: Record, cur: Record, b: nat): (r: Record)
    requires y.Ok() && y.Fits(old_) && y.Fits(cur)
    ensures y.Fits(r)
  {
    if b == 0 then old_ else Remember(y, RememberTo(y, old_, cur, b - 1), cur, b)
  }

  /** The row that closing `level` prints; `was` are the values remembered before any level was closed. */
  function ClosingRow(y: Layout, t: Totals, remembered: Record, was: Record, level: nat): TotalRow
    requires y.Ok() && TotalsOk(y, t) && y.Fits(remembered) && y.Fits(was) && 1 <= level <= |y.breakCols| + 1
  {
    TotalRow(level,
             if y.HasKey(level) then remembered[y.BreakCol(level)] else "",
             seq(|t|, c requires 0 <= c < |t| => if y.total[c] then t[c][level] else 0),
             seq(|t|, c requires 0 <= c < |t| => y.OtherCell(level, c, was[c])))
  }

  lemma RowClosed(y: Layout, t: Totals, remembered: Record, was: Record, level: nat, row: TotalRow)
    requires y.Ok() && TotalsOk(y, t) && y.Fits(remembered) && y.Fits(was) && 1 <= level <= |y.breakCols| + 1
    requires row.level == level && |row.totals| == |row.others| == |t|
    requires forall c :: 0 <= c < |t| ==> row.totals[c] == if y.total[c] then t[c][level] else 0
    requires forall c :: 0 <= c < |t| ==> row.others[c] == y.OtherCell(level, c, was[c])
    requires row.key == if y.HasKey(level) then remembered[y.BreakCol(level)] else ""
    ensures row == ClosingRow(y, t, remembered, was, level)
  {
  }

  lemma NothingShown(y: Layout)
    ensures ShownRows(y, []) == []
  {
  }

  function ClosingRows(y: Layout, t: Totals, old_: Record, cur: Record, b: nat): seq<TotalRow>
    requires y.Ok() && TotalsOk(y, t) && y.Fits(old_) && y.Fits(cur) && b <= |y.breakCols| + 1
  {
    if b == 0 then []
    else ClosingRows(y, t, old_, cur, b - 1)
         + [ClosingRow(y, CarryTo(y, t, b - 1), RememberTo(y, old_, cur, b - 1), old_, b)]
  }

  /** Adds to the totals of level 1. */
  function AddTo(y: Layout, t: Totals, adds: seq<int>): (r: Totals)
    requires TotalsOk(y, t) && |adds| == |t|
    ensures TotalsOk(y, r)
  {
    seq(|t|, c requires 0 <= c < |t| => if y.total[c] then t[c][1 := t[c][1] + adds[c]] else t[c])
  }

  lemma AddToTwice(y: Layout, t: Totals, a: seq<int>, b: seq<int>, both: seq<int>)
    requires TotalsOk(y, t) && |a| == |b| == |both| == |t|
    requires forall c :: 0 <= c < |t| ==> both[c] == a[c] + b[c]
    ensures AddTo(y, AddTo(y, t, a), b) == AddTo(y, t, both)
  {
    var twice, once := AddTo(y, AddTo(y, t, a), b), AddTo(y, t, both);
    forall c | 0 <= c < |t|
      ensures twice[c] == once[c]
    {
    }
  }

  lemma AddToNothing(y: Layout, t: Totals)
    requires TotalsOk(y, t)
    ensures AddTo(y, t, seq(|t|, _ => 0)) == t
  {
    forall c | 0 <= c < |t|
      ensures AddTo(y, t, seq(|t|, _ => 0))[c] == t[c]
    {
    }
  }

  /** What one record adds to each column. */
  function RecordAdds(y: Layout, rec: Record): seq<int>
    requires y.Fits(rec)
  {
    seq(|rec|, c requires 0 <= c < |rec| => y.Adds(rec, c))
  }

  /** Entry (c, l) holds the records of the current level-l run that are in no open run of level l - 1:
      so levels 1 to l together hold the sum since the last break of level l. */
  ghost predicate Holds(y: Layout, recs: seq<Record>, j: nat, t: Totals)
    requires RecordsOk(y, recs) && j <= |recs| && TotalsOk(y, t)
  {
    forall c, l :: 0 <= c < |t| && y.total[c] && 1 <= l <= |y.breakCols| + 1 ==> HoldsAt(y, recs, j, t, c, l)
  }

  ghost predicate HoldsAt(y: Layout, recs: seq<Record>, j: nat, t: Totals, c: nat, l: nat)
    requires RecordsOk(y, recs) && j <= |recs| && TotalsOk(y, t) && c < |t| && 1 <= l <= |y.breakCols| + 1
  {
    && Start(y, recs, j, l) <= Start(y, recs, j, l - 1)
    && t[c][l] == Sum(y, recs, Start(y, recs, j, l), Start(y, recs, j, l - 1), c)
  }

  lemma CarryOther(y: Layout, t: Totals, level: nat, c: nat)
    requires TotalsOk(y, t) && 1 <= level <= |y.breakCols| + 1 && c < |t|
    ensures !y.total[c] ==> Carry(y, t, level)[c] == t[c]
  {
  }

  lemma CarryStep(y: Layout, t: Totals, level: nat, c: nat, l: nat)
    requires TotalsOk(y, t) && 1 <= level <= |y.breakCols| + 1 && c < |t| && y.total[c] && l <= |y.breakCols| + 1
    ensures Carry(y, t, level)[c][l] ==
            if l == level then 0 else if l == level + 1 then t[c][l] + t[c][level] else t[c][l]
  {
  }

  lemma {:induction false} CarryCloses(y: Layout, recs: seq<Record>, j: nat, t: Totals, b: nat, c: nat, l: nat)
    requires RecordsOk(y, recs) && j <= |recs| && TotalsOk(y, t) && Holds(y, recs, j, t)
    requires b <= |y.breakCols| + 1 && c < |t| && y.total[c] && 1 <= l <= |y.breakCols| + 1
    ensures l <= b ==> CarryTo(y, t, b)[c][l] == 0
    ensures l == b + 1 ==> CarryTo(y, t, b)[c][l] == Sum(y, recs, Start(y, recs, j, l), j, c)
    ensures l > b + 1 ==> CarryTo(y, t, b)[c][l] == t[c][l]
  {
    hide Sum, Start, Carry, HoldsAt;
    if b == 0 {
      assert HoldsAt(y, recs, j, t, c, l);
      FirstHolds(y, recs, j, t, c);
    } else {
      CarryStep(y, CarryTo(y, t, b - 1), b, c, l);
      CarryCloses(y, recs, j, t, b - 1, c, l);
      if l == b + 1 {
        CarryCloses(y, recs, j, t, b - 1, c, b);
        assert HoldsAt(y, recs, j, t, c, l);
        HoldsSplit(y, recs, j, t, c, l);
      }
    }
  }

  lemma FirstHolds(y: Layout, recs: seq<Record>, j: nat, t: Totals, c: nat)
    requires RecordsOk(y, recs) && j <= |recs| && TotalsOk(y, t) && c < |t|
    requires HoldsAt(y, recs, j, t, c, 1)
    ensures t[c][1] == Sum(y, recs, Start(y, recs, j, 1), j, c)
  {
    hide Sum;
    assert Start(y, recs, j, 0) == j;
  }

  lemma HoldsSplit(y: Layout, recs: seq<Record>, j: nat, t: Totals, c: nat, l: nat)
    requires RecordsOk(y, recs) && j <= |recs| && TotalsOk(y, t) && c < |t| && 2 <= l <= |y.breakCols| + 1
    requires HoldsAt(y, recs, j, t, c, l)
    ensures Sum(y, recs, Start(y, recs, j, l), j, c) == t[c][l] + Sum(y, recs, Start(y, recs, j, l - 1), j, c)
  {
    hide Sum, Start;
    SumSplit(y, recs, Start(y, recs, j, l), Start(y, recs, j, l - 1), j, c);
  }

  lemma LevelOfBreak(y: Layout, l: nat)
    requires y.Ok() && 1 <= l <= |y.breakCols|
    ensures y.LevelOf(y.BreakCol(l)) == l
  {
    hide y.LevelOf;
    var k := y.LevelOf(y.BreakCol(l));
    assert k != 0;
    assert y.breakCols[k - 1] == y.breakCols[l - 1];
  }

  lemma {:induction false} RememberedText(y: Layout, old_: Record, cur: Record, b: nat, c: nat)
    requires y.Ok() && y.Fits(old_) && y.Fits(cur) && c < |y.total|
    ensures RememberTo(y, old_, cur, b)[c] == if 1 <= y.LevelOf(c) <= b && !y.total[c] then cur[c] else old_[c]
  {
    hide y.LevelOf;
    if b > 0 {
      RememberedText(y, old_, cur, b - 1, c);
      if b <= |y.breakCols| {
        LevelOfBreak(y, b);
      }
    }
  }

  /** What the columns should be remembered as after the first j records. */
  ghost predicate Remembers(y: Layout, recs: seq<Record>, j: nat, remembered: Record)
    requires RecordsOk(y, recs) && j <= |recs| && y.Fits(remembered)
  {
    forall c :: 0 <= c < |remembered| ==> remembered[c] == OldText(y, recs, j, c)
  }

  lemma ClosingTotal(y: Layout, recs: seq<Record>, j: nat, t: Totals, b: nat, c: nat)
    requires RecordsOk(y, recs) && j <= |recs| && TotalsOk(y, t) && Holds(y, recs, j, t)
    requires 1 <= b <= |y.breakCols| + 1 && c < |t|
    ensures y.total[c] ==> CarryTo(y, t, b - 1)[c][b] == Sum(y, recs, Start(y, recs, j, b), j, c)
    ensures !y.total[c] ==> Sum(y, recs, Start(y, recs, j, b), j, c) == 0
  {
    hide CarryTo, Holds, Sum, Start;
    if y.total[c] {
      CarryCloses(y, recs, j, t, b - 1, c, b);
    } else {
      UntotalledSum(y, recs, Start(y, recs, j, b), j, c);
    }
  }

  lemma ClosingKey(y: Layout, recs: seq<Record>, j: nat, remembered: Record, cur: Record, b: nat)
    requires RecordsOk(y, recs) && j <= |recs| && y.Fits(remembered) && y.Fits(cur)
    requires Remembers(y, recs, j, remembered) && 1 <= b <= |y.breakCols|
    ensures !y.total[y.BreakCol(b)] ==>
      RememberTo(y, remembered, cur, b - 1)[y.BreakCol(b)] == if j > 0 then y.Key(recs[j - 1], b) else ""
  {
    hide RememberTo, y.LevelOf;
    LevelOfBreak(y, b);
    RememberedText(y, remembered, cur, b - 1, y.BreakCol(b));
  }

  lemma ClosingRowMeaning(
    y: Layout, recs: seq<Record>, j: nat, t: Totals, remembered: Record, cur: Record, b: nat)
    requires RecordsOk(y, recs) && j <= |recs| && TotalsOk(y, t) && Holds(y, recs, j, t)
    requires y.Fits(remembered) && y.Fits(cur) && Remembers(y, recs, j, remembered) && 1 <= b <= |y.breakCols| + 1
    ensures ClosingRow(y, CarryTo(y, t, b - 1), RememberTo(y, remembered, cur, b - 1), remembered, b)
            == RowOf(y, recs, Span(b, Start(y, recs, j, b), j))
  {
    hide Holds, Remembers, CarryTo, RememberTo, Sum, Start, OldText, y.OtherCell, y.LevelOf;
    var row := ClosingRow(y, CarryTo(y, t, b - 1), RememberTo(y, remembered, cur, b - 1), remembered, b);
    var want := RowOf(y, recs, Span(b, Start(y, recs, j, b), j));
    assert row.totals == want.totals by {
      forall c | 0 <= c < |y.total|
        ensures row.totals[c] == want.totals[c]
      {
        ClosingTotal(y, recs, j, t, b, c);
      }
    }
    assert row.key == want.key by {
      if b <= |y.breakCols| {
        ClosingKey(y, recs, j, remembered, cur, b);
      }
    }
    assert row.others == want.others by {
      forall c | 0 <= c < |y.total|
        ensures row.others[c] == want.others[c]
      {
        RemembersAt(y, recs, j, remembered, c);
      }
    }
  }

  lemma RemembersAt(y: Layout, recs: seq<Record>, j: nat, remembered: Record, c: nat)
    requires RecordsOk(y, recs) && j <= |recs| && y.Fits(remembered) && Remembers(y, recs, j, remembered) && c < |y.total|
    ensures remembered[c] == OldText(y, recs, j, c)
  {
  }

  lemma {:induction false} ClosingRowsMeaning(
    y: Layout, recs: seq<Record>, j: nat, t: Totals, remembered: Record, cur: Record, b: nat)
    requires RecordsOk(y, recs) && j <= |recs| && TotalsOk(y, t) && Holds(y, recs, j, t)
    requires y.Fits(remembered) && y.Fits(cur) && Remembers(y, recs, j, remembered) && b <= |y.breakCols| + 1
    ensures ClosingRows(y, t, remembered, cur, b) == RowsOf(y, recs, ClosedAt(y, recs, j, b))
  {
    hide ClosingRow, RowOf, Holds, Remembers, CarryTo, RememberTo, Start;
    if b > 0 {
      ClosingRowsMeaning(y, recs, j, t, remembered, cur, b - 1);
      ClosingRowMeaning(y, recs, j, t, remembered, cur, b);
      RowsOnce(y, recs, ClosedAt(y, recs, j, b - 1), Span(b, Start(y, recs, j, b), j));
      assert ClosedAt(y, recs, j, b) == ClosedAt(y, recs, j, b - 1) + [Span(b, Start(y, recs, j, b), j)];
    }
  }

  lemma RowsAppend(y: Layout, recs: seq<Record>, a: seq<Span>, b: seq<Span>)
    requires RecordsOk(y, recs) && SpansOk(recs, a) && SpansOk(recs, b)
    ensures RowsOf(y, recs, a + b) == RowsOf(y, recs, a) + RowsOf(y, recs, b)
  {
  }

  /** The rows of a report: those printed before the end, and those that the end closes. */
  lemma ReportRowsAre(y: Layout, recs: seq<Record>, top: nat)
    requires RecordsOk(y, recs)
    ensures SpansOk(recs, Before(y, recs, |recs|)) && SpansOk(recs, ClosedAt(y, recs, |recs|, top))
    ensures ReportRows(y, recs, top) ==
            ShownRows(y, RowsOf(y, recs, Before(y, recs, |recs|)))
            + if |recs| == 1 then [] else ShownRows(y, RowsOf(y, recs, ClosedAt(y, recs, |recs|, top)))
  {
    hide RowsOf, Before, ShownRows;
    BeforeOk(y, recs, |recs|);
    var before, last := Before(y, recs, |recs|), ClosedAt(y, recs, |recs|, top);
    RowsAppend(y, recs, before, last);
    ShownAppend(y, RowsOf(y, recs, before), RowsOf(y, recs, last));
    assert before + [] == before;
    var shown := ShownRows(y, RowsOf(y, recs, before));
    assert shown + [] == shown;
  }

  lemma {:induction false} UntotalledSum(y: Layout, recs: seq<Record>, from: nat, upto: nat, c: nat)
    requires RecordsOk(y, recs) && from <= upto <= |recs| && c < |y.total| && !y.total[c]
    ensures Sum(y, recs, from, upto, c) == 0
    decreases upto
  {
    if from < upto {
      UntotalledSum(y, recs, from, upto - 1, c);
    }
  }

  /** Breaking at level `b` before record j and then adding the record keeps the totals right. */
  lemma HoldsStep(y: Layout, recs: seq<Record>, j: nat, t: Totals, b: nat)
    requires RecordsOk(y, recs) && j < |recs| && TotalsOk(y, t) && Holds(y, recs, j, t)
    requires b == if j == 0 then |y.breakCols| else y.BreakLevel(recs[j - 1], recs[j])
    ensures Holds(y, recs, j + 1, AddTo(y, CarryTo(y, t, b), RecordAdds(y, recs[j])))
  {
    var u := AddTo(y, CarryTo(y, t, b), RecordAdds(y, recs[j]));
    forall c, l {:trigger HoldsAt(y, recs, j + 1, u, c, l)} | 0 <= c < |u| && y.total[c] && 1 <= l <= |y.breakCols| + 1
      ensures HoldsAt(y, recs, j + 1, u, c, l)
    {
      assert HoldsAt(y, recs, j, t, c, l);
      StartFalls(y, recs, j + 1, l);
      CarryCloses(y, recs, j, t, b, c, l);
      NewRuns(y, recs, j, b, c, l);
    }
  }

  lemma NewRuns(y: Layout, recs: seq<Record>, j: nat, b: nat, c: nat, l: nat)
    requires RecordsOk(y, recs) && j < |recs| && c < |y.total| && 1 <= l <= |y.breakCols| + 1
    requires b == if j == 0 then |y.breakCols| else y.BreakLevel(recs[j - 1], recs[j])
    requires Start(y, recs, j, l) <= Start(y, recs, j, l - 1)
    requires Start(y, recs, j + 1, l) <= Start(y, recs, j + 1, l - 1)
    ensures Sum(y, recs, Start(y, recs, j + 1, l), Start(y, recs, j + 1, l - 1), c)
            == (if l <= b then 0
                else if l == b + 1 then Sum(y, recs, Start(y, recs, j, l), j, c)
                else Sum(y, recs, Start(y, recs, j, l), Start(y, recs, j, l - 1), c))
               + if l == 1 then y.Adds(recs[j], c) else 0
  {
    if j > 0 {
      assert BreaksAt(y, recs, j, l) <==> l <= b;
      if l > 1 {
        assert BreaksAt(y, recs, j, l - 1) <==> l - 1 <= b;
      }
    }
  }

  // ----- detail lines -----

  function RenderedRow(row: seq<Cell>): seq<string> {
    seq(|row|, c requires 0 <= c < |row| => if row[c].Shown? then row[c].text else "")
  }

  function Rendered(rows: seq<seq<Cell>>): seq<seq<string>> {
    seq(|rows|, r requires 0 <= r < |rows| => RenderedRow(rows[r]))
  }

  /** The detail lines of the first j records. */
  ghost function DetailRows(y: Layout, recs: seq<Record>, j: nat): seq<seq<string>>
    requires j <= |recs|
  {
    if j == 0 then []
    else DetailRows(y, recs, j - 1) + if y.detail then Rendered(RecordRows(recs[j - 1])) else []
  }

  /** What a pass adds to the total of each column. */
  function PassAdds(y: Layout, rec: Record, cs: seq<Cursor>, previous: nat): (adds: seq<int>)
    requires Ready(rec, cs, previous)
    ensures |adds| == |rec|
    ensures forall c :: 0 <= c < |rec| ==>
      adds[c] == if cs[c].mark >= previous then y.Amount(Leaf(rec[c], cs[c])) else 0
  {
    seq(|rec|, c requires 0 <= c < |rec| => if cs[c].mark >= previous then y.Amount(Leaf(rec[c], cs[c])) else 0)
  }

  /** What the unread leaves of each column will add. */
  function UnreadAdds(y: Layout, rec: Record, cs: seq<Cursor>): (adds: seq<int>)
    requires CursorsOk(rec, cs)
    ensures |adds| == |rec| && forall c :: 0 <= c < |rec| ==> adds[c] == y.LeafSum(Unread(rec[c], cs[c]))
  {
    seq(|rec|, c requires 0 <= c < |rec| => y.LeafSum(Unread(rec[c], cs[c])))
  }

  lemma PassTakesAdds(y: Layout, rec: Record, cs: seq<Cursor>, previous: nat)
    requires Ready(rec, cs, previous)
    ensures CursorsOk(rec, Pass(rec, cs, previous))
    ensures forall c :: 0 <= c < |rec| ==>
      UnreadAdds(y, rec, cs)[c] == PassAdds(y, rec, cs, previous)[c] + UnreadAdds(y, rec, Pass(rec, cs, previous))[c]
  {
    PassReady(rec, cs, previous);
    forall c | 0 <= c < |rec| && cs[c].mark >= previous
      ensures Unread(rec[c], cs[c]) == [Leaf(rec[c], cs[c])] + Unread(rec[c], Pass(rec, cs, previous)[c])
    {
      ReadTakesFirst(rec[c], cs[c]);
    }
  }

  lemma PassRows(rec: Record, cs: seq<Cursor>, previous: nat)
    requires Ready(rec, cs, previous)
    ensures
      var ds := Pass(rec, cs, previous);
      var row := RenderedRow(Row(rec, cs, previous));
      if Deepest(ds) == 0 then Rendered(Rows(rec, cs, previous)) == [row]
      else && Ready(rec, ds, Deepest(ds)) && Left(rec, ds) < Left(rec, cs)
           && Rendered(Rows(rec, cs, previous)) == [row] + Rendered(Rows(rec, ds, Deepest(ds)))
  {
    hide Rows, Rendered, RenderedRow, Row, Pass, Left, Ready, Deepest;
    var ds := Pass(rec, cs, previous);
    RowsUnfold(rec, cs, previous);
    if Deepest(ds) != 0 {
      RenderedFirst(Row(rec, cs, previous), Rows(rec, ds, Deepest(ds)));
    } else {
      RenderedOnly(Row(rec, cs, previous));
    }
  }

  lemma RowsUnfold(rec: Record, cs: seq<Cursor>, previous: nat)
    requires Ready(rec, cs, previous)
    ensures
      var ds := Pass(rec, cs, previous);
      if Deepest(ds) == 0 then Rows(rec, cs, previous) == [Row(rec, cs, previous)]
      else && Ready(rec, ds, Deepest(ds)) && Left(rec, ds) < Left(rec, cs)
           && Rows(rec, cs, previous) == [Row(rec, cs, previous)] + Rows(rec, ds, Deepest(ds))
  {
    hide Left, Row, Pass;
    PassReady(rec, cs, previous);
    if Deepest(Pass(rec, cs, previous)) != 0 {
      PassReads(rec, cs, previous);
    }
  }

  lemma RenderedFirst(row: seq<Cell>, rows: seq<seq<Cell>>)
    ensures Rendered([row] + rows) == [RenderedRow(row)] + Rendered(rows)
  {
  }

  lemma RenderedOnly(row: seq<Cell>)
    ensures Rendered([row]) == [RenderedRow(row)]
  {
  }

  lemma NothingUnread(y: Layout, rec: Record, cs: seq<Cursor>)
    requires CursorsOk(rec, cs) && Deepest(cs) == 0
    ensures UnreadAdds(y, rec, cs) == seq(|rec|, _ => 0)
  {
    DeepestIsMax(cs, |cs|);
  }

  /** A record under way: what it has printed and added and what it still will are together what is wanted. */
  ghost predicate UnderWay(y: Layout, rec: Record, cs: seq<Cursor>, previous: nat, details: seq<seq<string>>, t: Totals,
                           wantDetails: seq<seq<string>>, wantTotals: Totals) {
    && y.Fits(rec) && TotalsOk(y, t) && Ready(rec, cs, previous)
    && details + Rendered(Rows(rec, cs, previous)) == wantDetails
    && AddTo(y, t, UnreadAdds(y, rec, cs)) == wantTotals
  }

  lemma LastPass(y: Layout, rec: Record, cs: seq<Cursor>, previous: nat, details: seq<seq<string>>, t: Totals,
                 wantDetails: seq<seq<string>>, wantTotals: Totals)
    requires UnderWay(y, rec, cs, previous, details, t, wantDetails, wantTotals)
    requires Deepest(Pass(rec, cs, previous)) == 0
    ensures details + [RenderedRow(Row(rec, cs, previous))] == wantDetails
    ensures AddTo(y, t, PassAdds(y, rec, cs, previous)) == wantTotals
  {
    var ds, adds := Pass(rec, cs, previous), PassAdds(y, rec, cs, previous);
    PassTakesAdds(y, rec, cs, previous);
    PassRows(rec, cs, previous);
    AddToTwice(y, t, adds, UnreadAdds(y, rec, ds), UnreadAdds(y, rec, cs));
    NothingUnread(y, rec, ds);
    AddToNothing(y, AddTo(y, t, adds));
  }

  lemma MiddlePass(y: Layout, rec: Record, cs: seq<Cursor>, previous: nat, details: seq<seq<string>>, t: Totals,
                   wantDetails: seq<seq<string>>, wantTotals: Totals)
    requires UnderWay(y, rec, cs, previous, details, t, wantDetails, wantTotals)
    requires Deepest(Pass(rec, cs, previous)) != 0
    ensures UnderWay(y, rec, Pass(rec, cs, previous), Deepest(Pass(rec, cs, previous)),
                     details + [RenderedRow(Row(rec, cs, previous))], AddTo(y, t, PassAdds(y, rec, cs, previous)),
                     wantDetails, wantTotals)
    ensures Left(rec, Pass(rec, cs, previous)) < Left(rec, cs)
  {
    var ds, adds := Pass(rec, cs, previous), PassAdds(y, rec, cs, previous);
    PassTakesAdds(y, rec, cs, previous);
    PassRows(rec, cs, previous);
    AddToTwice(y, t, adds, UnreadAdds(y, rec, ds), UnreadAdds(y, rec, cs));
    assert details + [RenderedRow(Row(rec, cs, previous))] + Rendered(Rows(rec, ds, Deepest(ds))) == wantDetails;
  }

  /** Before the first pass everything is unread; without detail the first pass alone adds the record. */
  lemma StartAdds(y: Layout, rec: Record, t: Totals)
    requires y.Fits(rec) && TotalsOk(y, t)
    ensures Ready(rec, Starts(|rec|), 0)
    ensures AddTo(y, t, RecordAdds(y, rec))
            == AddTo(y, t, if y.detail then UnreadAdds(y, rec, Starts(|rec|)) else PassAdds(y, rec, Starts(|rec|), 0))
  {
    hide y.LeafSum, Leaves, y.Amount;
    var adds := if y.detail then UnreadAdds(y, rec, Starts(|rec|)) else PassAdds(y, rec, Starts(|rec|), 0);
    forall c | 0 <= c < |rec| && y.total[c]
      ensures RecordAdds(y, rec)[c] == adds[c]
    {
      ReadTakesFirst(rec[c], START);
      assert rec[c][0..] == rec[c];
    }
  }

  /** The texts of the columns with those that a pass reads replaced by what it reads. */
  function ReadOver(rec: Record, cs: seq<Cursor>, previous: nat, texts: seq<string>): (r: seq<string>)
    requires Ready(rec, cs, previous) && |texts| == |rec|
    ensures |r| == |rec|
    ensures forall c :: 0 <= c < |rec| ==> r[c] == if cs[c].mark >= previous then Leaf(rec[c], cs[c]) else texts[c]
  {
    seq(|rec|, c requires 0 <= c < |rec| => if cs[c].mark >= previous then Leaf(rec[c], cs[c]) else texts[c])
  }

  function Amounts(y: Layout, texts: seq<string>): (r: seq<int>)
    ensures |r| == |texts| && forall c :: 0 <= c < |r| ==> r[c] == y.Amount(texts[c])
  {
    seq(|texts|, c requires 0 <= c < |texts| => y.Amount(texts[c]))
  }

  /** The texts of the columns with those of totalled columns emptied. */
  function Emptied(y: Layout, texts: seq<string>): (r: seq<string>)
    requires |texts| == |y.total|
    ensures |r| == |texts| && forall c :: 0 <= c < |r| ==> r[c] == if y.total[c] then "" else texts[c]
  {
    seq(|texts|, c requires 0 <= c < |texts| => if y.total[c] then "" else texts[c])
  }

  ghost predicate Blanked(y: Layout, shown: seq<string>, held: seq<string>) {
    && |shown| == |held| == |y.total|
    && forall c :: 0 <= c < |y.total| ==> shown[c] == "" && (y.total[c] ==> held[c] == "")
  }

  lemma NoAmount(y: Layout)
    ensures y.Amount("") == 0
  {
  }

  /** What a pass reads is what it prints and what it adds: the other columns show and hold nothing. */
  lemma PassMeaning(y: Layout, rec: Record, cs: seq<Cursor>, previous: nat, shown: seq<string>, held: seq<string>, t: Totals)
    requires y.Ok() && TotalsOk(y, t) && y.Fits(rec) && Ready(rec, cs, previous)
    requires |shown| == |held| == |y.total| && (previous != 0 ==> Blanked(y, shown, held))
    ensures ReadOver(rec, cs, previous, shown) == RenderedRow(Row(rec, cs, previous))
    ensures AddTo(y, t, Amounts(y, ReadOver(rec, cs, previous, held))) == AddTo(y, t, PassAdds(y, rec, cs, previous))
  {
    hide ReadOver, PassAdds, Amounts, Row, y.Amount;
    var a, b := Amounts(y, ReadOver(rec, cs, previous, held)), PassAdds(y, rec, cs, previous);
    NoAmount(y);
    forall c | 0 <= c < |rec| && y.total[c]
      ensures a[c] == b[c]
    {
    }
  }

  lemma AddToAt(y: Layout, t: Totals, texts: seq<string>, c: nat)
    requires TotalsOk(y, t) && |texts| == |t| && c < |t|
    ensures AddTo(y, t, Amounts(y, texts))[c] == if y.total[c] then t[c][1 := t[c][1] + y.Amount(texts[c])] else t[c]
  {
  }

  lemma WorthAdded(y: Layout, t: Totals, texts: seq<string>)
    requires TotalsOk(y, t) && |texts| == |t|
    ensures forall c :: 0 <= c < |t| && y.total[c] ==>
      Emptied(y, texts)[c] == "" && AddTo(y, t, Amounts(y, texts))[c][1] == t[c][1]
        + if texts[c] != "" && y.num(texts[c]).Some? then y.num(texts[c]).value else 0
  {
  }

  class Engine {
    const y: Layout
    const breakValue: array<string>    // the remembered text of each break column
    const oldBreakValue: array<string> // what it was before the levels under way were closed
    const breakTotal: array<seq<int>>  // for each column its totals by level
    const mcol: array<string>          // the whole text of each column of the current record
    const pccol: array<Cursor>         // where the next leaf of each column starts, and the mark before it
    const icol: array<string>          // what is still to be added to the totals
    const scol: array<string>          // what is printed
    var recn: nat
    var details: seq<seq<string>>
    var tx: seq<TotalRow>

    ghost predicate Valid()
      reads breakTotal
    {
      && y.Ok()
      && breakValue.Length == breakTotal.Length == mcol.Length == pccol.Length == |y.total|
      && icol.Length == scol.Length == oldBreakValue.Length == |y.total|
      && breakValue != mcol && breakValue != icol && breakValue != scol && oldBreakValue != breakValue
      && oldBreakValue != mcol && oldBreakValue != icol && oldBreakValue != scol
      && mcol != icol && mcol != scol && icol != scol
      && TotalsOk(y, breakTotal[..])
    }

    constructor (layout: Layout)
      requires layout.Ok()
      ensures Valid() && y == layout
      ensures fresh(breakValue) && fresh(oldBreakValue) && fresh(breakTotal)
      ensures fresh(mcol) && fresh(pccol) && fresh(icol) && fresh(scol)
      ensures forall recs :: RecordsOk(y, recs) ==> After(recs, 0)
    {
      var n := |layout.total|;
      y := layout;
      breakValue := new string[n](_ => "");
      oldBreakValue := new string[n](_ => "");
      breakTotal := new seq<int>[n](_ => seq(|layout.breakCols| + 2, _ => 0));
      mcol := new string[n](_ => "");
      pccol := new Cursor[n](_ => START);
      icol := new string[n](_ => "");
      scol := new string[n](_ => "");
      recn, details, tx := 0, [], [];
    }

    /** The total of one column: carried into the next level and cleared. */
    method PrintTotal(c: nat, level: nat, ghost t: Totals) returns (cell: int)
      requires c < |y.total| == breakTotal.Length && y.total[c] && TotalsOk(y, t) && 1 <= level <= |y.breakCols| + 1
      requires breakTotal[c] == t[c]
      modifies breakTotal
      ensures cell == t[c][level] && breakTotal[c] == Carry(y, t, level)[c]
      ensures forall d :: 0 <= d < |y.total| && d != c ==> breakTotal[d] == old(breakTotal[d])
    {
      cell := breakTotal[c][level];
      if level <= |y.breakCols| && cell != 0 {
        breakTotal[c] := breakTotal[c][level + 1 := breakTotal[c][level + 1] + cell];
      }
      breakTotal[c] := breakTotal[c][level := 0];
    }

    /** The old break value of a level; the new one is remembered. */
    method PrintKey(level: nat) returns (key: string)
      requires y.Ok() && breakValue.Length == scol.Length == |y.total| && breakValue != scol
      requires 1 <= level <= |y.breakCols| && !y.total[y.BreakCol(level)]
      modifies breakValue
      ensures key == if y.HasKey(level) then old(breakValue[y.BreakCol(level)]) else ""
      ensures breakValue[..] == Remember(y, old(breakValue[..]), scol[..], level)
    {
      var c := y.BreakCol(level);
      key := "";
      if y.HasKey(level) {
        key := breakValue[c];
      }
      breakValue[c] := scol[c];
    }

    lemma NoKey(remembered: Record, cur: Record, level: nat)
      requires y.Ok() && y.Fits(remembered) && y.Fits(cur) && 1 <= level
      ensures level <= |y.breakCols| && y.total[y.BreakCol(level)] ==>
        Remember(y, remembered, cur, level) == remembered && !y.HasKey(level)
      ensures level > |y.breakCols| ==> Remember(y, remembered, cur, level) == remembered && !y.HasKey(level)
    {
    }

    /** One row of totals: prints, carries and clears one level. */
    method PrintLevel(level: nat) returns (row: TotalRow)
      requires Valid() && 1 <= level <= |y.breakCols| + 1
      modifies breakTotal, breakValue
      ensures Valid()
      ensures row == old(ClosingRow(y, breakTotal[..], breakValue[..], oldBreakValue[..], level))
      ensures breakTotal[..] == Carry(y, old(breakTotal[..]), level)
      ensures breakValue[..] == Remember(y, old(breakValue[..]), scol[..], level)
    {
      hide ClosingRow, y.OtherCell, y.HasKey, Remember, Carry;
      ghost var t, remembered := breakTotal[..], breakValue[..];
      var breakCol := if level <= |y.breakCols| then y.BreakCol(level) else |y.total|;
      var totals, others, key := [], [], "";
      NoKey(remembered, scol[..], level);
      for c := 0 to |y.total|
        invariant |totals| == |others| == c
        invariant forall d :: 0 <= d < c ==> totals[d] == if y.total[d] then t[d][level] else 0
        invariant forall d :: 0 <= d < c ==> others[d] == y.OtherCell(level, d, oldBreakValue[d])
        invariant forall d :: 0 <= d < |y.total| ==> breakTotal[d] == if d < c then Carry(y, t, level)[d] else t[d]
        invariant breakValue[..] == if breakCol < c then Remember(y, remembered, scol[..], level) else remembered
        invariant key == if breakCol < c && y.HasKey(level) then remembered[breakCol] else ""
      {
        var cell := 0;
        CarryOther(y, t, level, c);
        if y.total[c] {
          cell := PrintTotal(c, level, t);
        } else if c == breakCol {
          key := PrintKey(level);
        }
        totals := totals + [cell];
        others := others + [y.OtherCell(level, c, oldBreakValue[c])];
      }
      assert breakTotal[..] == Carry(y, t, level);
      row := TotalRow(level, key, totals, others);
      RowClosed(y, t, remembered, oldBreakValue[..], level, row);
    }

    /** Closes levels 1 to `breakLevel`: prints each level's totals, carries them into the next level
        and clears them, and remembers the new values of the break columns. */
    method PrintBreaks(breakLevel: nat)
      requires Valid() && breakLevel <= |y.breakCols| + 1 && oldBreakValue[..] == breakValue[..]
      modifies breakTotal, breakValue, `tx
      ensures Valid()
      ensures tx == old(tx) + if recn == 1 then []
                              else old(ShownRows(y, ClosingRows(y, breakTotal[..], breakValue[..], scol[..], breakLevel)))
      ensures breakTotal[..] == CarryTo(y, old(breakTotal[..]), breakLevel)
      ensures breakValue[..] == RememberTo(y, old(breakValue[..]), scol[..], breakLevel)
    {
      hide ClosingRow, Carry, Remember, ShownRows;
      NothingShown(y);
      ghost var t, was := breakTotal[..], breakValue[..];
      for level := 1 to breakLevel + 1
        invariant Valid()
        invariant tx == old(tx) + if recn == 1 then []
                                  else ShownRows(y, ClosingRows(y, t, was, scol[..], level - 1))
        invariant breakTotal[..] == CarryTo(y, old(breakTotal[..]), level - 1)
        invariant breakValue[..] == RememberTo(y, old(breakValue[..]), scol[..], level - 1)
      {
        var storetx := tx;
        var row := PrintLevel(level);
        tx := tx + [row];
        ShownNext(y, ClosingRows(y, t, was, scol[..], level - 1), row);
        // the option to drop the level, or no cell, and there are no totals before the first record
        if !y.Shows(row) || recn == 1 {
          tx := storetx;
        }
      }
    }

    /** The highest level whose break column no longer has its remembered value. */
    method DetectBreak() returns (level: nat)
      requires Valid()
      ensures level <= |y.breakCols|
      ensures level > 0 ==> scol[y.BreakCol(level)] != breakValue[y.BreakCol(level)]
      ensures forall m :: level < m <= |y.breakCols| ==> scol[y.BreakCol(m)] == breakValue[y.BreakCol(m)]
    {
      level := |y.breakCols|;
      while level >= 1
        invariant level <= |y.breakCols|
        invariant forall m :: level < m <= |y.breakCols| ==> scol[y.BreakCol(m)] == breakValue[y.BreakCol(m)]
      {
        if scol[y.BreakCol(level)] != breakValue[y.BreakCol(level)] {
          break;
        }
        level := level - 1;
      }
    }

    /** Reads the next leaf of one column, if it stopped at mark `previous` or deeper. */
    method ReadColumn(c: nat, previous: nat, ghost rec: Record, ghost cs: seq<Cursor>,
                      ghost was: seq<string>, ghost had: seq<string>)
      requires Valid() && mcol[..] == rec && Ready(rec, cs, previous) && |was| == |had| == |rec| && c < |rec|
      requires pccol[c] == cs[c] && scol[c] == was[c] && icol[c] == had[c]
      modifies pccol, icol, scol
      ensures pccol[c] == Pass(rec, cs, previous)[c]
      ensures scol[c] == ReadOver(rec, cs, previous, was)[c] && icol[c] == ReadOver(rec, cs, previous, had)[c]
      ensures forall d :: 0 <= d < |rec| && d != c ==>
        pccol[d] == old(pccol[d]) && scol[d] == old(scol[d]) && icol[d] == old(icol[d])
    {
      if pccol[c].mark >= previous {
        icol[c] := Leaf(mcol[c], pccol[c]);
        scol[c] := icol[c];
        pccol[c] := Next(mcol[c], pccol[c]);
      }
    }

    /** Reads the next leaf of every column that stopped at mark `previous` or deeper. */
    method ReadPass(previous: nat, ghost rec: Record) returns (newMark: nat)
      requires Valid() && mcol[..] == rec && Ready(rec, pccol[..], previous)
      modifies pccol, icol, scol
      ensures pccol[..] == Pass(rec, old(pccol[..]), previous)
      ensures newMark == Deepest(pccol[..])
      ensures scol[..] == ReadOver(rec, old(pccol[..]), previous, old(scol[..]))
      ensures icol[..] == ReadOver(rec, old(pccol[..]), previous, old(icol[..]))
    {
      hide Pass, ReadOver, Ready, TotalsOk;
      ghost var cs, was, had := pccol[..], scol[..], icol[..];
      ghost var ds := Pass(rec, cs, previous);
      ghost var shown, held := ReadOver(rec, cs, previous, was), ReadOver(rec, cs, previous, had);
      newMark := 0;
      for c := 0 to |y.total|
        invariant forall d :: 0 <= d < |y.total| ==> pccol[d] == if d < c then ds[d] else cs[d]
        invariant forall d :: 0 <= d < |y.total| ==> scol[d] == if d < c then shown[d] else was[d]
        invariant forall d :: 0 <= d < |y.total| ==> icol[d] == if d < c then held[d] else had[d]
        invariant newMark == DeepestOf(ds, c)
      {
        ReadColumn(c, previous, rec, cs, was, had);
        if pccol[c].mark > newMark {
          newMark := pccol[c].mark;
        }
      }
      assert pccol[..] == ds && scol[..] == shown && icol[..] == held;
    }

    /** Adds what was read of one column, if it is totalled. */
    method AddColumn(c: nat, ghost t: Totals, ghost texts: seq<string>)
      requires c < |y.total| == breakTotal.Length == icol.Length == |texts| && TotalsOk(y, t)
      requires breakTotal[c] == t[c] && icol[c] == texts[c]
      modifies breakTotal, icol
      ensures breakTotal[c] == AddTo(y, t, Amounts(y, texts))[c] && icol[c] == Emptied(y, texts)[c]
      ensures forall d :: 0 <= d < |y.total| && d != c ==> breakTotal[d] == old(breakTotal[d]) && icol[d] == old(icol[d])
    {
      AddToAt(y, t, texts, c);
      hide AddTo, Amounts;
      if y.total[c] {
        if icol[c] != "" {
          var n := y.num(icol[c]);
          if n.Some? {
            breakTotal[c] := breakTotal[c][1 := breakTotal[c][1] + n.value];
          }
        }
        icol[c] := "";
      }
    }

    /** Adds what was read to the lowest level. */
    method AddTotals()
      requires Valid()
      modifies breakTotal, icol
      ensures Valid()
      ensures breakTotal[..] == AddTo(y, old(breakTotal[..]), Amounts(y, old(icol[..])))
      ensures icol[..] == Emptied(y, old(icol[..]))
      ensures forall c :: 0 <= c < |y.total| && y.total[c] ==>
        icol[c] == "" && breakTotal[c][1] == old(breakTotal[c])[1]
          + if old(icol[c]) != "" && y.num(old(icol[c])).Some? then y.num(old(icol[c])).value else 0
    {
      ghost var t, texts := breakTotal[..], icol[..];
      ghost var want, left := AddTo(y, t, Amounts(y, texts)), Emptied(y, texts);
      WorthAdded(y, t, texts);
      hide AddTo, Amounts, Emptied;
      for c := 0 to |y.total|
        invariant forall d :: 0 <= d < |y.total| ==> breakTotal[d] == if d < c then want[d] else t[d]
        invariant forall d :: 0 <= d < |y.total| ==> icol[d] == if d < c then left[d] else texts[d]
      {
        AddColumn(c, t, texts);
      }
      assert breakTotal[..] == want && icol[..] == left;
    }

    /** One pass: reads, adds and returns the row to print. */
    method OnePass(previous: nat, ghost rec: Record) returns (newMark: nat, row: seq<string>)
      requires Valid() && mcol[..] == rec && Ready(rec, pccol[..], previous)
      requires previous != 0 ==> Blanked(y, scol[..], icol[..])
      modifies pccol, icol, scol, breakTotal
      ensures Valid()
      ensures pccol[..] == Pass(rec, old(pccol[..]), previous)
      ensures newMark == Deepest(pccol[..])
      ensures row == RenderedRow(Row(rec, old(pccol[..]), previous))
      ensures breakTotal[..] == AddTo(y, old(breakTotal[..]), PassAdds(y, rec, old(pccol[..]), previous))
      ensures icol[..] == Emptied(y, icol[..])
    {
      PassMeaning(y, rec, pccol[..], previous, scol[..], icol[..], breakTotal[..]);
      newMark := ReadPass(previous, rec);
      AddTotals();
      row := scol[..];
    }

    /** One pass of a record with detail: prints its row. */
    method DetailPass(previous: nat, ghost rec: Record, ghost wantDetails: seq<seq<string>>, ghost wantTotals: Totals)
        returns (newMark: nat)
      requires Valid() && mcol[..] == rec
      requires previous != 0 ==> Blanked(y, scol[..], icol[..])
      requires UnderWay(y, rec, pccol[..], previous, details, breakTotal[..], wantDetails, wantTotals)
      modifies pccol, icol, scol, breakTotal, `details
      ensures Valid() && icol[..] == Emptied(y, icol[..])
      ensures newMark == 0 ==> details == wantDetails && breakTotal[..] == wantTotals
      ensures newMark != 0 ==>
        && UnderWay(y, rec, pccol[..], newMark, details, breakTotal[..], wantDetails, wantTotals)
        && Left(rec, pccol[..]) < Left(rec, old(pccol[..]))
    {
      ghost var cs, was, t := pccol[..], details, breakTotal[..];
      var row;
      newMark, row := OnePass(previous, rec);
      details := details + [row];
      hide UnderWay, Pass, Rendered, RenderedRow, Emptied, AddTo, Left, Deepest;
      if newMark == 0 {
        LastPass(y, rec, cs, previous, was, t, wantDetails, wantTotals);
      } else {
        MiddlePass(y, rec, cs, previous, was, t, wantDetails, wantTotals);
      }
    }

    /** Prints the detail rows of the current record and adds its values to the totals of level 1. */
    method RecExit(ghost rec: Record)
      requires Valid() && mcol[..] == rec && pccol[..] == Starts(|y.total|) && y.detail
      modifies pccol, icol, scol, breakTotal, `details
      ensures Valid()
      ensures details == old(details) + Rendered(RecordRows(rec))
      ensures breakTotal[..] == AddTo(y, old(breakTotal[..]), RecordAdds(y, rec))
    {
      ghost var wantDetails, wantTotals := details + Rendered(RecordRows(rec)), AddTo(y, breakTotal[..], RecordAdds(y, rec));
      StartAdds(y, rec, breakTotal[..]);
      hide Rendered, RecordRows, AddTo, RecordAdds, Blanked, Emptied, Left, y.Fits;
      var previous := 0;
      while true
        invariant Valid() && mcol[..] == rec
        invariant previous != 0 ==> Blanked(y, scol[..], icol[..])
        invariant UnderWay(y, rec, pccol[..], previous, details, breakTotal[..], wantDetails, wantTotals)
        decreases Left(rec, pccol[..])
      {
        var newMark := DetailPass(previous, rec, wantDetails, wantTotals);
        if newMark == 0 {
          return;
        }
        BlankColumns();
        previous := newMark;
      }
    }

    /** Adds the first value of each column of the current record and prints nothing. */
    method RecExitSuppressed(ghost rec: Record)
      requires Valid() && mcol[..] == rec && pccol[..] == Starts(|y.total|) && !y.detail
      modifies pccol, icol, scol, breakTotal
      ensures Valid()
      ensures breakTotal[..] == AddTo(y, old(breakTotal[..]), RecordAdds(y, rec))
    {
      StartAdds(y, rec, breakTotal[..]);
      var _, _ := OnePass(0, rec);
    }

    method BlankColumns()
      requires Valid() && icol[..] == Emptied(y, icol[..])
      modifies scol
      ensures Valid() && Blanked(y, scol[..], icol[..])
    {
      for c := 0 to |y.total|
        invariant forall d :: 0 <= d < c ==> scol[d] == ""
      {
        scol[c] := "";
      }
    }

    /** Loads the columns of a record. */
    method RecInit(rec: Record)
      requires Valid() && y.Fits(rec)
      modifies mcol, pccol, scol
      ensures Valid() && mcol[..] == rec && scol[..] == rec && pccol[..] == Starts(|y.total|)
    {
      for c := 0 to |y.total|
        invariant forall d :: 0 <= d < c ==> mcol[d] == rec[d] && scol[d] == rec[d] && pccol[d] == START
      {
        mcol[c] := rec[c];
        pccol[c] := START;
        scol[c] := mcol[c];
      }
    }

    /** The report after the first j records of `recs`. */
    ghost predicate After(recs: seq<Record>, j: nat)
      requires Valid() && RecordsOk(y, recs) && j <= |recs|
      reads this, breakTotal, breakValue, oldBreakValue
    {
      && recn == j && oldBreakValue[..] == breakValue[..]
      && details == DetailRows(y, recs, j)
      && Holds(y, recs, j, breakTotal[..]) && Remembers(y, recs, j, breakValue[..])
      && SpansOk(recs, Before(y, recs, j)) && tx == ShownRows(y, RowsOf(y, recs, Before(y, recs, j)))
    }

    method KeepBreakValues()
      requires Valid()
      modifies oldBreakValue
      ensures Valid() && oldBreakValue[..] == breakValue[..]
    {
      forall c | 0 <= c < |y.total| {
        oldBreakValue[c] := breakValue[c];
      }
    }

    /** Processes the next record: closes the levels that it breaks, then prints and adds it. */
    method NextRecord(rec: Record, ghost recs: seq<Record>, ghost j: nat)
      requires Valid() && RecordsOk(y, recs) && j < |recs| && rec == recs[j] && After(recs, j)
      modifies this, breakTotal, breakValue, oldBreakValue, mcol, pccol, icol, scol
      ensures Valid() && After(recs, j + 1)
    {
      hide Holds, Remembers, CarryTo, AddTo, RowsOf, Before, ClosingRows, RememberTo, RecordAdds, Rendered, RecordRows;
      hide ShownRows;
      ghost var t, remembered := breakTotal[..], breakValue[..];
      recn := recn + 1;
      RecInit(rec);
      var breakLevel := |y.breakCols|;
      if recn != 1 {
        breakLevel := DetectBreak();
      }
      DetectedIsBreakLevel(recs, j, breakLevel, remembered);
      PrintBreaks(breakLevel);
      KeepBreakValues();
      PrintedBefore(recs, j, t, remembered, breakLevel);
      NothingShown(y);
      ShownAppend(y, RowsOf(y, recs, Before(y, recs, j)), if j == 0 then [] else ClosingRows(y, t, remembered, rec, breakLevel));
      if y.detail {
        RecExit(rec);
      } else {
        RecExitSuppressed(rec);
      }
      HoldsStep(y, recs, j, t, breakLevel);
    }

    /** The whole report: its detail rows and its rows of totals are those of the reference definition. */
    method Run(recs: seq<Record>, grand: bool)
      requires Valid() && RecordsOk(y, recs) && After(recs, 0)
      modifies this, breakTotal, breakValue, oldBreakValue, mcol, pccol, icol, scol
      ensures details == DetailRows(y, recs, |recs|)
      ensures tx == ReportRows(y, recs, if grand then |y.breakCols| + 1 else |y.breakCols|)
      ensures recn == |recs|
    {
      hide Holds, Remembers, CarryTo, RememberTo, RowsOf, ClosedAt, ClosingRows, ShownRows, ReportRows, Closed;
      for j := 0 to |recs|
        invariant Valid() && After(recs, j)
      {
        NextRecord(recs[j], recs, j);
      }
      var breakLevel := |y.breakCols|;
      if grand {
        breakLevel := breakLevel + 1;
      }
      ClosingRowsMeaning(y, recs, |recs|, breakTotal[..], breakValue[..], scol[..], breakLevel);
      PrintBreaks(breakLevel);
      ReportRowsAre(y, recs, breakLevel);
    }

    /** The level that the report detects is that of the definition, and what it remembers after
        closing those levels is the new record's break values. */
    lemma DetectedIsBreakLevel(recs: seq<Record>, j: nat, b: nat, remembered: Record)
      requires Valid() && RecordsOk(y, recs) && j < |recs| && y.Fits(remembered) && b <= |y.breakCols|
      requires Remembers(y, recs, j, remembered)
      requires if j == 0 then b == |y.breakCols|
               else && (b > 0 ==> recs[j][y.BreakCol(b)] != remembered[y.BreakCol(b)])
                    && forall m :: b < m <= |y.breakCols| ==> recs[j][y.BreakCol(m)] == remembered[y.BreakCol(m)]
      ensures j > 0 ==> b == y.BreakLevel(recs[j - 1], recs[j])
      ensures Remembers(y, recs, j + 1, RememberTo(y, remembered, recs[j], b))
    {
      hide y.LevelOf;
      forall m | 1 <= m <= |y.breakCols|
        ensures remembered[y.BreakCol(m)] == if j > 0 && !y.total[y.BreakCol(m)] then y.Key(recs[j - 1], m) else ""
        ensures j > 0 ==> (y.Changed(recs[j - 1], recs[j], m) <==> recs[j][y.BreakCol(m)] != remembered[y.BreakCol(m)])
      {
        LevelOfBreak(y, m);
      }
      forall c | 0 <= c < |y.total|
        ensures RememberTo(y, remembered, recs[j], b)[c] == OldText(y, recs, j + 1, c)
      {
        RememberedText(y, remembered, recs[j], b, c);
        if y.LevelOf(c) > b {
          assert c == y.BreakCol(y.LevelOf(c));
        }
      }
    }

    /** The rows printed before a record is added are those of the definition. */
    lemma PrintedBefore(recs: seq<Record>, j: nat, t: Totals, remembered: Record, b: nat)
      requires Valid() && RecordsOk(y, recs) && j < |recs| && y.Fits(remembered) && b <= |y.breakCols|
      requires TotalsOk(y, t) && Holds(y, recs, j, t) && Remembers(y, recs, j, remembered)
      requires j > 0 ==> b == y.BreakLevel(recs[j - 1], recs[j])
      ensures SpansOk(recs, Before(y, recs, j)) && SpansOk(recs, Before(y, recs, j + 1))
      ensures RowsOf(y, recs, Before(y, recs, j + 1)) ==
              RowsOf(y, recs, Before(y, recs, j))
              + if j == 0 then [] else ClosingRows(y, t, remembered, recs[j], b)
    {
      hide RowsOf, ClosedAt, ClosingRows, Holds, Remembers;
      BeforeOk(y, recs, j);
      BeforeOk(y, recs, j + 1);
      ClosingRowsMeaning(y, recs, j, t, remembered, recs[j], b);
      if j > 0 {
        RowsAppend(y, recs, Before(y, recs, j), ClosedAt(y, recs, j, b));
      }
    }
  }
}
