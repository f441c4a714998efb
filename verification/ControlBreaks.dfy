/** What a report with control breaks should print: the reference definition.

    A report has break columns for levels 1 (minor) to n (major). The records come in order; a level
    is closed, and its totals are printed, when its break column or that of a higher level changes.
*/
module ControlBreaks {
  import opened Common
  import opened MultiValue

  /** One record, as the text of each column. */
  type Record = seq<string>

  /** `breakCols[l - 1]` is the break column of level l; `total[c]` marks the totalled columns;
      `num` is the numeric reading of a text, if it has one; without `detail` (the DET-SUPP2 option)
      only the first value of a column counts; `hidden` are the levels whose rows the X option drops, and `blank` says
      of a row that none of its cells has a text in the output. */
  datatype Layout = Layout(
    breakCols: seq<nat>, total: seq<bool>, num: string -> Option<int>, detail: bool, hidden: set<nat>,
    blank: TotalRow -> bool) {
    predicate Shows(row: TotalRow) {
      row.level !in hidden && !blank(row)
    }

    /** The level of which a column is the break column, or 0. */
    function LevelFrom(c: nat, l: nat): (r: nat)
      requires l <= |breakCols|
      ensures r <= l && (r > 0 ==> breakCols[r - 1] == c)
      ensures r == 0 ==> forall m :: 0 <= m < l ==> breakCols[m] != c
    {
      if l == 0 then 0 else if breakCols[l - 1] == c then l else LevelFrom(c, l - 1)
    }

    function LevelOf(c: nat): (r: nat)
      ensures r <= |breakCols| && (r > 0 ==> breakCols[r - 1] == c)
      ensures r == 0 ==> forall m :: 0 <= m < |breakCols| ==> breakCols[m] != c
    {
      LevelFrom(c, |breakCols|)
    }

    /** Whether the row of a level has the break value in the level's own column. */
    predicate HasKey(level: nat)
      requires Ok()
    {
      1 <= level <= |breakCols| && !total[BreakCol(level)] && (!detail || true in total)
    }

    /** The other cells of a row: those of lower break columns say so, the rest has the old break value. */
    function OtherCell(level: nat, c: nat, old_: string): string
      requires c < |total|
    {
      if total[c] || LevelOf(c) == level then ""
      else if 0 < LevelOf(c) < level then "Total"
      else old_
    }

    /** Every BREAK-ON names a column of its own. */
    ghost predicate Ok() {
      && (forall l :: 0 <= l < |breakCols| ==> breakCols[l] < |total|)
      && (forall k, l :: 0 <= k < l < |breakCols| ==> breakCols[k] != breakCols[l])
    }

    /** The assumption that no break column is itself totalled. */
    ghost predicate NoTotalledBreak()
      requires Ok()
    {
      forall l :: 1 <= l <= |breakCols| ==> !total[BreakCol(l)]
    }

    predicate Fits(r: Record) {
      |r| == |total|
    }

    function Amount(text: string): int {
      if text == "" then 0 else match num(text) case Some(n) => n case None => 0
    }

    function LeafSum(ls: seq<string>): int {
      if ls == [] then 0 else Amount(ls[0]) + LeafSum(ls[1..])
    }

    /** What record `r` adds to the total of column `c`. */
    function Adds(r: Record, c: nat): int
      requires Fits(r) && c < |r|
    {
      if !total[c] then 0 else if detail then LeafSum(Leaves(r[c])) else Amount(Leaves(r[c])[0])
    }

    function BreakCol(l: nat): (c: nat)
      requires Ok() && 1 <= l <= |breakCols|
      ensures c < |total|
    {
      breakCols[l - 1]
    }

    /** The text of record `r` in the break column of level `l`. */
    function Key(r: Record, l: nat): string
      requires Ok() && Fits(r) && 1 <= l <= |breakCols|
    {
      r[BreakCol(l)]
    }

    /** Whether the report sees a change in the break column of level `l`. The remembered value of a
        totalled break column is never stored, so there any value but the empty one is a change. */
    predicate Changed(prev: Record, cur: Record, l: nat)
      requires Ok() && Fits(prev) && Fits(cur) && 1 <= l <= |breakCols|
    {
      Key(cur, l) != if total[BreakCol(l)] then "" else Key(prev, l)
    }

    /** The highest level up to `l` that changes, or 0. */
    function BreakLevelFrom(prev: Record, cur: Record, l: nat): (b: nat)
      requires Ok() && Fits(prev) && Fits(cur) && l <= |breakCols|
      ensures b <= l
      ensures b > 0 ==> Changed(prev, cur, b)
      ensures forall m :: b < m <= l ==> !Changed(prev, cur, m)
    {
      if l == 0 then 0 else if Changed(prev, cur, l) then l else BreakLevelFrom(prev, cur, l - 1)
    }

    function BreakLevel(prev: Record, cur: Record): nat
      requires Ok() && Fits(prev) && Fits(cur)
    {
      BreakLevelFrom(prev, cur, |breakCols|)
    }

    /** Whether two records agree in the break columns of level `l` and above. */
    ghost predicate Agree(a: Record, b: Record, l: nat)
      requires Ok() && Fits(a) && Fits(b)
    {
      forall m :: l <= m && 1 <= m <= |breakCols| ==> Key(a, m) == Key(b, m)
    }
  }

  /** The records from `from` up to but not including `upto`, closed at `level`. */
  datatype Span = Span(level: nat, from: nat, upto: nat)

  /** A printed row of totals: the old break value, the totals, and the other cells. */
  datatype TotalRow = TotalRow(level: nat, key: string, totals: seq<int>, others: seq<string>)

  ghost predicate RecordsOk(y: Layout, recs: seq<Record>) {
    y.Ok() && forall j :: 0 <= j < |recs| ==> y.Fits(recs[j])
  }

  function Sum(y: Layout, recs: seq<Record>, from: nat, upto: nat, c: nat): int
    requires RecordsOk(y, recs) && c < |y.total| && from <= upto <= |recs|
    decreases upto
  {
    if from == upto then 0 else Sum(y, recs, from, upto - 1, c) + y.Adds(recs[upto - 1], c)
  }

  lemma {:induction false} SumSplit(y: Layout, recs: seq<Record>, a: nat, b: nat, d: nat, c: nat)
    requires RecordsOk(y, recs) && c < |y.total| && a <= b <= d <= |recs|
    ensures Sum(y, recs, a, d, c) == Sum(y, recs, a, b, c) + Sum(y, recs, b, d, c)
    decreases d
  {
    if b < d {
      SumSplit(y, recs, a, b, d - 1, c);
    }
  }

  /** Whether the report sees a break of level `l` or above between records k - 1 and k. */
  predicate BreaksAt(y: Layout, recs: seq<Record>, k: nat, l: nat)
    requires RecordsOk(y, recs) && 0 < k < |recs|
  {
    y.BreakLevel(recs[k - 1], recs[k]) >= l
  }

  /** Where the run of level `l` that record j - 1 belongs to began. Level 0 runs are empty. */
  function Start(y: Layout, recs: seq<Record>, j: nat, l: nat): (i: nat)
    requires RecordsOk(y, recs) && j <= |recs|
    ensures i <= j && (l > 0 && j > 0 ==> i < j)
  {
    if l == 0 then j
    else if j <= 1 then 0
    else if BreaksAt(y, recs, j - 1, l) then j - 1
    else Start(y, recs, j - 1, l)
  }

  lemma {:induction false} StartFalls(y: Layout, recs: seq<Record>, j: nat, l: nat)
    requires RecordsOk(y, recs) && j <= |recs| && l > 0
    ensures Start(y, recs, j, l) <= Start(y, recs, j, l - 1)
  {
    if j > 1 && l > 1 {
      StartFalls(y, recs, j - 1, l);
    }
  }

  lemma {:induction false} StartIsRunStart(y: Layout, recs: seq<Record>, j: nat, l: nat)
    requires RecordsOk(y, recs) && 0 < j <= |recs| && l > 0
    ensures var i := Start(y, recs, j, l);
            && (forall k :: i < k < j ==> !BreaksAt(y, recs, k, l))
            && (i > 0 ==> BreaksAt(y, recs, i, l))
  {
    hide BreaksAt;
    if j > 1 && !BreaksAt(y, recs, j - 1, l) {
      StartIsRunStart(y, recs, j - 1, l);
    }
  }

  /** The spans that end at record j, for levels 1 to `b`. */
  function ClosedAt(y: Layout, recs: seq<Record>, j: nat, b: nat): (r: seq<Span>)
    requires RecordsOk(y, recs) && j <= |recs|
    ensures |r| == b
    ensures forall l :: 0 <= l < b ==> r[l] == Span(l + 1, Start(y, recs, j, l + 1), j)
  {
    seq(b, l requires 0 <= l < b => Span(l + 1, Start(y, recs, j, l + 1), j))
  }

  /** The spans closed before record j is added. */
  function Before(y: Layout, recs: seq<Record>, j: nat): seq<Span>
    requires RecordsOk(y, recs) && j <= |recs|
  {
    if j <= 1 then []
    else Before(y, recs, j - 1) + ClosedAt(y, recs, j - 1, y.BreakLevel(recs[j - 2], recs[j - 1]))
  }

  /** All the spans whose totals the report comes to. `top` is the highest level closed at the end: the
      number of break levels, or one more when there is a grand total. A report of exactly one record
      comes to none. */
  function Closed(y: Layout, recs: seq<Record>, top: nat): seq<Span>
    requires RecordsOk(y, recs)
  {
    Before(y, recs, |recs|) + if |recs| == 1 then [] else ClosedAt(y, recs, |recs|, top)
  }

  ghost predicate SpansOk(recs: seq<Record>, ss: seq<Span>) {
    forall i :: 0 <= i < |ss| ==> ss[i].from <= ss[i].upto <= |recs|
  }

  /** The old value of a break column before record j. */
  function OldText(y: Layout, recs: seq<Record>, j: nat, c: nat): string
    requires RecordsOk(y, recs) && j <= |recs| && c < |y.total|
  {
    if y.LevelOf(c) == 0 || y.total[c] || j == 0 then "" else recs[j - 1][c]
  }

  function RowOf(y: Layout, recs: seq<Record>, s: Span): (r: TotalRow)
    requires RecordsOk(y, recs) && s.from <= s.upto <= |recs|
    ensures |r.totals| == |y.total|
  {
    TotalRow(
      s.level,
      if y.HasKey(s.level) && s.upto > 0 then y.Key(recs[s.upto - 1], s.level) else "",
      seq(|y.total|, c requires 0 <= c < |y.total| => Sum(y, recs, s.from, s.upto, c)),
      seq(|y.total|, c requires 0 <= c < |y.total| => y.OtherCell(s.level, c, OldText(y, recs, s.upto, c))))
  }

  function RowsOf(y: Layout, recs: seq<Record>, ss: seq<Span>): (rs: seq<TotalRow>)
    requires RecordsOk(y, recs) && SpansOk(recs, ss)
    ensures |rs| == |ss|
  {
    seq(|ss|, i requires 0 <= i < |ss| => RowOf(y, recs, ss[i]))
  }

  lemma {:induction false} BeforeOk(y: Layout, recs: seq<Record>, j: nat)
    requires RecordsOk(y, recs) && j <= |recs|
    ensures SpansOk(recs, Before(y, recs, j))
    ensures forall i :: 0 <= i < |Before(y, recs, j)| ==> Before(y, recs, j)[i].upto < j
  {
    if j > 1 {
      BeforeOk(y, recs, j - 1);
    }
  }

  function ShownSpans(y: Layout, recs: seq<Record>, ss: seq<Span>): seq<Span>
    requires RecordsOk(y, recs) && SpansOk(recs, ss)
  {
    if ss == [] then []
    else
      var s := ss[|ss| - 1];
      ShownSpans(y, recs, ss[..|ss| - 1]) + if y.Shows(RowOf(y, recs, s)) then [s] else []
  }

  /** The spans whose totals are printed. */
  ghost function Printed(y: Layout, recs: seq<Record>, top: nat): seq<Span>
    requires RecordsOk(y, recs)
  {
    BeforeOk(y, recs, |recs|);
    ShownSpans(y, recs, Closed(y, recs, top))
  }

  lemma RowsOnce(y: Layout, recs: seq<Record>, spans: seq<Span>, s: Span)
    requires RecordsOk(y, recs) && SpansOk(recs, spans) && s.from <= s.upto <= |recs|
    ensures RowsOf(y, recs, spans + [s]) == RowsOf(y, recs, spans) + [RowOf(y, recs, s)]
  {
  }

  lemma RowTotal(y: Layout, recs: seq<Record>, s: Span)
    requires RecordsOk(y, recs) && s.from <= s.upto <= |recs|
    ensures RowOf(y, recs, s).level == s.level
    ensures forall c :: 0 <= c < |y.total| ==> RowOf(y, recs, s).totals[c] == Sum(y, recs, s.from, s.upto, c)
  {
  }

  function ShownRows(y: Layout, rows: seq<TotalRow>): seq<TotalRow> {
    if rows == [] then []
    else ShownRows(y, rows[..|rows| - 1]) + if y.Shows(rows[|rows| - 1]) then [rows[|rows| - 1]] else []
  }

  lemma ShownNext(y: Layout, rows: seq<TotalRow>, r: TotalRow)
    ensures y.Shows(r) ==> ShownRows(y, rows + [r]) == ShownRows(y, rows) + [r]
    ensures !y.Shows(r) ==> ShownRows(y, rows + [r]) == ShownRows(y, rows)
  {
    assert (rows + [r])[..|rows|] == rows;
  }

  lemma {:induction false} ShownAppend(y: Layout, a: seq<TotalRow>, b: seq<TotalRow>)
    ensures ShownRows(y, a + b) == ShownRows(y, a) + ShownRows(y, b)
    decreases |b|
  {
    if b == [] {
      assert a + b == a && ShownRows(y, b) == [];
    } else {
      hide ShownRows;
      var front, r := b[..|b| - 1], b[|b| - 1];
      ShownAppend(y, a, front);
      ShownNext(y, a + front, r);
      ShownNext(y, front, r);
      assert b == front + [r];
      Associate(a, front, [r]);
      Associate(ShownRows(y, a), ShownRows(y, front), [r]);
    }
  }

  lemma {:induction false} ShownMembers(y: Layout, rows: seq<TotalRow>, r: TotalRow)
    ensures r in ShownRows(y, rows) <==> r in rows && y.Shows(r)
    decreases |rows|
  {
    if rows != [] {
      ShownMembers(y, rows[..|rows| - 1], r);
      assert rows == rows[..|rows| - 1] + [rows[|rows| - 1]];
    }
  }

  lemma {:induction false} ShownSpansMembers(y: Layout, recs: seq<Record>, ss: seq<Span>, s: Span)
    requires RecordsOk(y, recs) && SpansOk(recs, ss)
    ensures s in ss ==> s.from <= s.upto <= |recs|
    ensures s in ShownSpans(y, recs, ss) <==> s in ss && y.Shows(RowOf(y, recs, s))
    decreases |ss|
  {
    hide RowOf;
    if ss != [] {
      ShownSpansMembers(y, recs, ss[..|ss| - 1], s);
      assert ss == ss[..|ss| - 1] + [ss[|ss| - 1]];
    }
  }

  /** The rows of totals of a whole report. */
  ghost function ReportRows(y: Layout, recs: seq<Record>, top: nat): seq<TotalRow>
    requires RecordsOk(y, recs)
  {
    BeforeOk(y, recs, |recs|);
    ShownRows(y, RowsOf(y, recs, Closed(y, recs, top)))
  }

  lemma {:induction false} ShownRowsOf(y: Layout, recs: seq<Record>, ss: seq<Span>)
    requires RecordsOk(y, recs) && SpansOk(recs, ss)
    ensures SpansOk(recs, ShownSpans(y, recs, ss))
    ensures ShownRows(y, RowsOf(y, recs, ss)) == RowsOf(y, recs, ShownSpans(y, recs, ss))
    decreases |ss|
  {
    hide RowOf;
    if ss != [] {
      var front, s := ss[..|ss| - 1], ss[|ss| - 1];
      ShownRowsOf(y, recs, front);
      assert ss == front + [s];
      RowsOnce(y, recs, front, s);
      ShownNext(y, RowsOf(y, recs, front), RowOf(y, recs, s));
      if y.Shows(RowOf(y, recs, s)) {
        RowsOnce(y, recs, ShownSpans(y, recs, front), s);
      }
    }
  }

  /** They are the rows of the spans printed. */
  lemma ReportRowsArePrinted(y: Layout, recs: seq<Record>, top: nat)
    requires RecordsOk(y, recs)
    ensures SpansOk(recs, Printed(y, recs, top)) && ReportRows(y, recs, top) == RowsOf(y, recs, Printed(y, recs, top))
  {
    BeforeOk(y, recs, |recs|);
    ShownRowsOf(y, recs, Closed(y, recs, top));
  }

  // ----- every printed span is a maximal run, and every maximal run is printed once -----

  /** Whether records k - 1 and k agree on levels `l` and above. */
  ghost predicate AgreeAt(y: Layout, recs: seq<Record>, k: nat, l: nat)
    requires RecordsOk(y, recs) && 0 < k < |recs|
  {
    y.Agree(recs[k - 1], recs[k], l)
  }

  /** A longest stretch of consecutive records that agree on levels `l` and above. */
  ghost predicate MaximalRun(y: Layout, recs: seq<Record>, i: nat, j: nat, l: nat)
    requires RecordsOk(y, recs)
  {
    && i < j <= |recs|
    && (forall k :: i < k < j ==> AgreeAt(y, recs, k, l))
    && (i > 0 ==> !AgreeAt(y, recs, i, l))
    && (j < |recs| ==> !AgreeAt(y, recs, j, l))
  }

  lemma BreakMeansDisagree(y: Layout, recs: seq<Record>, k: nat, l: nat)
    requires RecordsOk(y, recs) && y.NoTotalledBreak() && 0 < k < |recs| && 1 <= l
    ensures BreaksAt(y, recs, k, l) <==> !AgreeAt(y, recs, k, l)
  {
    var a, b := recs[k - 1], recs[k];
    var bl := y.BreakLevel(a, b);
    if bl < l {
      forall m | l <= m && 1 <= m <= |y.breakCols|
        ensures y.Key(a, m) == y.Key(b, m)
      {
        assert !y.Changed(a, b, m);
      }
    } else {
      assert y.Changed(a, b, bl);
      assert y.Key(a, bl) != y.Key(b, bl);
    }
  }

  lemma {:induction false} InBefore(y: Layout, recs: seq<Record>, j: nat, s: Span)
    requires RecordsOk(y, recs) && j <= |recs|
    ensures s in Before(y, recs, j) <==>
              && 0 < s.upto < j && 1 <= s.level && BreaksAt(y, recs, s.upto, s.level)
              && s.from == Start(y, recs, s.upto, s.level)
  {
    hide Start, y.BreakLevel;
    if j > 1 {
      InBefore(y, recs, j - 1, s);
      var b := y.BreakLevel(recs[j - 2], recs[j - 1]);
      if s.upto == j - 1 && 1 <= s.level <= b && s.from == Start(y, recs, s.upto, s.level) {
        assert ClosedAt(y, recs, j - 1, b)[s.level - 1] == s;
      }
    }
  }

  lemma RunsFromStart(y: Layout, recs: seq<Record>, i: nat, j: nat, l: nat)
    requires RecordsOk(y, recs) && y.NoTotalledBreak() && 1 <= l && 0 < j <= |recs|
    requires j < |recs| ==> BreaksAt(y, recs, j, l)
    ensures MaximalRun(y, recs, i, j, l) <==> i == Start(y, recs, j, l)
  {
    StartIsRunStart(y, recs, j, l);
    var s := Start(y, recs, j, l);
    forall k | 0 < k < |recs|
      ensures BreaksAt(y, recs, k, l) <==> !AgreeAt(y, recs, k, l)
    {
      BreakMeansDisagree(y, recs, k, l);
    }
  }

  /** The totals rows of level `l` are exactly the maximal runs of records that agree on levels `l` and above, but for
      those that are dropped by the option of the level or have no cell. */
  lemma PrintedIsMaximalRuns(y: Layout, recs: seq<Record>, top: nat, i: nat, j: nat, l: nat)
    requires RecordsOk(y, recs) && y.NoTotalledBreak() && |recs| >= 2
    requires 1 <= l <= |y.breakCols| <= top
    ensures Span(l, i, j) in Printed(y, recs, top)
            <==> MaximalRun(y, recs, i, j, l) && l !in y.hidden && !y.blank(RowOf(y, recs, Span(l, i, j)))
  {
    hide RowOf;
    var n, s := |recs|, Span(l, i, j);
    if i <= j <= n {
      RowTotal(y, recs, s);
    }
    BeforeOk(y, recs, n);
    ShownSpansMembers(y, recs, Closed(y, recs, top), s);
    InBefore(y, recs, n, s);
    if j == n {
      RunsFromStart(y, recs, i, j, l);
      assert s in ClosedAt(y, recs, n, top) <==> i == Start(y, recs, n, l) by {
        assert ClosedAt(y, recs, n, top)[l - 1] == Span(l, Start(y, recs, n, l), n);
      }
    } else if 0 < j < n {
      BreakMeansDisagree(y, recs, j, l);
      if BreaksAt(y, recs, j, l) {
        RunsFromStart(y, recs, i, j, l);
      }
    }
  }

  /** No span is printed twice. */
  lemma {:induction false} BeforeDistinct(y: Layout, recs: seq<Record>, j: nat)
    requires RecordsOk(y, recs) && j <= |recs|
    ensures AllDistinct(Before(y, recs, j))
  {
    if j > 1 {
      BeforeDistinct(y, recs, j - 1);
      BeforeOk(y, recs, j - 1);
    }
  }

  ghost predicate AllDistinct(ss: seq<Span>) {
    forall a, b :: 0 <= a < b < |ss| ==> ss[a] != ss[b]
  }

  lemma {:induction false} ShownDistinct(y: Layout, recs: seq<Record>, ss: seq<Span>)
    requires RecordsOk(y, recs) && SpansOk(recs, ss) && AllDistinct(ss)
    ensures AllDistinct(ShownSpans(y, recs, ss))
    decreases |ss|
  {
    hide RowOf;
    if ss != [] {
      var front, s := ss[..|ss| - 1], ss[|ss| - 1];
      ShownDistinct(y, recs, front);
      ShownSpansMembers(y, recs, front, s);
    }
  }

  lemma PrintedOnce(y: Layout, recs: seq<Record>, top: nat)
    requires RecordsOk(y, recs)
    ensures AllDistinct(Printed(y, recs, top))
  {
    BeforeDistinct(y, recs, |recs|);
    BeforeOk(y, recs, |recs|);
    ShownDistinct(y, recs, Closed(y, recs, top));
  }

  ghost predicate LastRunMaximal(y: Layout, recs: seq<Record>, l: nat)
    requires RecordsOk(y, recs)
  {
    |recs| >= 2 && 1 <= l <= |y.breakCols| ==> MaximalRun(y, recs, Start(y, recs, |recs|, l), |recs|, l)
  }

  /** The totals are those of maximal runs for all records if and only if no break column is totalled:
      a totalled one breaks even between equal values. */
  lemma RunsNeedPlainBreaks(y: Layout)
    requires y.Ok()
    ensures y.NoTotalledBreak() <==> forall recs: seq<Record>, l: nat :: RecordsOk(y, recs) ==> LastRunMaximal(y, recs, l)
  {
    if y.NoTotalledBreak() {
      forall recs: seq<Record>, l: nat | RecordsOk(y, recs)
        ensures LastRunMaximal(y, recs, l)
      {
        if |recs| >= 2 && 1 <= l <= |y.breakCols| {
          RunsFromStart(y, recs, Start(y, recs, |recs|, l), |recs|, l);
        }
      }
    } else {
      var k :| 1 <= k <= |y.breakCols| && y.total[y.BreakCol(k)];
      var r := seq(|y.total|, _ => "5");
      var recs := [r, r];
      assert RecordsOk(y, recs);
      assert y.Key(r, k) == "5" && y.Changed(r, r, k);
      assert BreaksAt(y, recs, 1, k);
      assert Start(y, recs, 2, k) == 1;
      assert AgreeAt(y, recs, 1, k);
      assert !LastRunMaximal(y, recs, k);
    }
  }

  // ----- conservation -----

  predicate Wide(rows: seq<TotalRow>, c: nat) {
    forall i :: 0 <= i < |rows| ==> c < |rows[i].totals|
  }

  /** The sum of the totals of column `c` over the rows of level `l`. */
  function LevelTotal(rows: seq<TotalRow>, l: nat, c: nat): int
    requires Wide(rows, c)
  {
    if rows == [] then 0
    else
      var r := rows[|rows| - 1];
      LevelTotal(rows[..|rows| - 1], l, c) + if r.level == l then r.totals[c] else 0
  }

  lemma LevelTotalPush(rows: seq<TotalRow>, r: TotalRow, l: nat, c: nat)
    requires Wide(rows, c) && c < |r.totals|
    ensures Wide(rows + [r], c)
    ensures LevelTotal(rows + [r], l, c) == LevelTotal(rows, l, c) + if r.level == l then r.totals[c] else 0
  {
    assert (rows + [r])[..|rows|] == rows;
  }

  lemma {:induction false} LevelTotalClosed(
    y: Layout, recs: seq<Record>, prefix: seq<Span>, j: nat, b: nat, l: nat, c: nat)
    requires RecordsOk(y, recs) && j <= |recs| && SpansOk(recs, prefix) && 1 <= l && c < |y.total|
    ensures LevelTotal(RowsOf(y, recs, prefix + ClosedAt(y, recs, j, b)), l, c)
            == LevelTotal(RowsOf(y, recs, prefix), l, c)
               + if l <= b then Sum(y, recs, Start(y, recs, j, l), j, c) else 0
    decreases b
  {
    hide LevelTotal, RowOf, Sum, Start;
    var spans := prefix + ClosedAt(y, recs, j, b);
    if b == 0 {
      assert spans == prefix;
    } else {
      LevelTotalClosed(y, recs, prefix, j, b - 1, l, c);
      var shorter := prefix + ClosedAt(y, recs, j, b - 1);
      var last := Span(b, Start(y, recs, j, b), j);
      assert spans == shorter + [last];
      RowsOnce(y, recs, shorter, last);
      RowTotal(y, recs, last);
      LevelTotalPush(RowsOf(y, recs, shorter), RowOf(y, recs, last), l, c);
    }
  }

  /** A run of level `l` that ends before record j - 1 is followed by the run that starts there. */
  lemma StartStep(y: Layout, recs: seq<Record>, j: nat, l: nat, c: nat)
    requires RecordsOk(y, recs) && 1 < j <= |recs| && 1 <= l && c < |y.total|
    ensures Sum(y, recs, 0, Start(y, recs, j, l), c)
            == Sum(y, recs, 0, Start(y, recs, j - 1, l), c)
               + if BreaksAt(y, recs, j - 1, l) then Sum(y, recs, Start(y, recs, j - 1, l), j - 1, c) else 0
  {
    SumSplit(y, recs, 0, Start(y, recs, j - 1, l), j - 1, c);
  }

  lemma NothingBefore(y: Layout, recs: seq<Record>, j: nat, l: nat, c: nat)
    requires RecordsOk(y, recs) && j <= |recs| && j <= 1 && 1 <= l && c < |y.total|
    ensures Before(y, recs, j) == [] && LevelTotal(RowsOf(y, recs, []), l, c) == 0
    ensures Sum(y, recs, 0, Start(y, recs, j, l), c) == 0
  {
  }

  lemma {:induction false} BeforeTotal(y: Layout, recs: seq<Record>, j: nat, l: nat, c: nat)
    requires RecordsOk(y, recs) && j <= |recs| && 1 <= l && c < |y.total|
    ensures SpansOk(recs, Before(y, recs, j))
    ensures LevelTotal(RowsOf(y, recs, Before(y, recs, j)), l, c) == Sum(y, recs, 0, Start(y, recs, j, l), c)
  {
    hide LevelTotal, RowsOf, Start, Sum, ClosedAt, y.BreakLevel;
    BeforeOk(y, recs, j);
    if j > 1 {
      BeforeTotal(y, recs, j - 1, l, c);
      LevelTotalClosed(y, recs, Before(y, recs, j - 1), j - 1, y.BreakLevel(recs[j - 2], recs[j - 1]), l, c);
      StartStep(y, recs, j, l, c);
    } else {
      NothingBefore(y, recs, j, l, c);
    }
  }

  lemma ShownWide(y: Layout, rows: seq<TotalRow>, c: nat)
    requires Wide(rows, c)
    ensures Wide(ShownRows(y, rows), c)
  {
    forall i | 0 <= i < |ShownRows(y, rows)|
      ensures c < |ShownRows(y, rows)[i].totals|
    {
      ShownMembers(y, rows, ShownRows(y, rows)[i]);
    }
  }

  lemma WideFront(rows: seq<TotalRow>, r: TotalRow, c: nat)
    requires Wide(rows + [r], c)
    ensures Wide(rows, c) && c < |r.totals|
  {
    assert forall i :: 0 <= i < |rows| ==> (rows + [r])[i] == rows[i];
    assert (rows + [r])[|rows|] == r;
  }

  /** The sum of the totals of column `c` over the rows of level `l` that have no cell. */
  function BlankTotal(y: Layout, rows: seq<TotalRow>, l: nat, c: nat): int
    requires Wide(rows, c)
  {
    if rows == [] then 0
    else
      var r := rows[|rows| - 1];
      BlankTotal(y, rows[..|rows| - 1], l, c) + if r.level == l && y.blank(r) then r.totals[c] else 0
  }

  /** A row without a text in any cell has nothing in the total of column `c`. */
  ghost predicate BlankIsNothing(y: Layout, c: nat) {
    forall r: TotalRow :: y.blank(r) && c < |r.totals| ==> r.totals[c] == 0
  }

  lemma {:induction false} NothingBlank(y: Layout, rows: seq<TotalRow>, l: nat, c: nat)
    requires Wide(rows, c)
    ensures BlankIsNothing(y, c) ==> BlankTotal(y, rows, l, c) == 0
    decreases |rows|
  {
    if rows != [] {
      NothingBlank(y, rows[..|rows| - 1], l, c);
    }
  }

  lemma BlankTotalPush(y: Layout, rows: seq<TotalRow>, r: TotalRow, l: nat, c: nat)
    requires Wide(rows, c) && c < |r.totals|
    ensures Wide(rows + [r], c)
    ensures BlankTotal(y, rows + [r], l, c) == BlankTotal(y, rows, l, c) + if r.level == l && y.blank(r) then r.totals[c] else 0
  {
    assert (rows + [r])[..|rows|] == rows;
  }

  ghost predicate ShownAdds(y: Layout, rows: seq<TotalRow>, l: nat, c: nat)
    requires Wide(rows, c) && Wide(ShownRows(y, rows), c)
  {
    LevelTotal(ShownRows(y, rows), l, c) == if l in y.hidden then 0 else LevelTotal(rows, l, c) - BlankTotal(y, rows, l, c)
  }

  lemma ShownTotalPush(y: Layout, front: seq<TotalRow>, r: TotalRow, l: nat, c: nat)
    requires Wide(front, c) && c < |r.totals| && Wide(ShownRows(y, front), c) && ShownAdds(y, front, l, c)
    ensures Wide(front + [r], c) && Wide(ShownRows(y, front + [r]), c) && ShownAdds(y, front + [r], l, c)
  {
    hide LevelTotal, BlankTotal, ShownRows, Wide;
    ShownNext(y, front, r);
    LevelTotalPush(front, r, l, c);
    BlankTotalPush(y, front, r, l, c);
    LevelTotalPush(ShownRows(y, front), r, l, c);
  }

  lemma {:induction false} ShownTotal(y: Layout, rows: seq<TotalRow>, l: nat, c: nat)
    requires Wide(rows, c) && Wide(ShownRows(y, rows), c)
    ensures ShownAdds(y, rows, l, c)
    decreases |rows|
  {
    if rows != [] {
      hide LevelTotal, BlankTotal, ShownRows, Wide, ShownAdds;
      var front, r := rows[..|rows| - 1], rows[|rows| - 1];
      assert rows == front + [r];
      WideFront(front, r, c);
      ShownWide(y, front, c);
      ShownTotal(y, front, l, c);
      ShownTotalPush(y, front, r, l, c);
    }
  }

  /** All rows that the report comes to. */
  ghost function AllRowsOf(y: Layout, recs: seq<Record>, top: nat): seq<TotalRow>
    requires RecordsOk(y, recs)
  {
    BeforeOk(y, recs, |recs|);
    RowsOf(y, recs, Closed(y, recs, top))
  }

  /** At every level that is closed at the end and not dropped by its option, the printed totals and those of the
      rows without a cell add up to the sum of all records, whatever the break columns are, unless the report has
      exactly one record; so the printed totals alone do if a row without a cell has nothing to total. */
  lemma TotalsConserved(y: Layout, recs: seq<Record>, top: nat, l: nat, c: nat)
    requires RecordsOk(y, recs) && 1 <= l <= top && c < |y.total|
    ensures Wide(ReportRows(y, recs, top), c) && Wide(AllRowsOf(y, recs, top), c)
    ensures |recs| != 1 && l !in y.hidden ==>
      && LevelTotal(ReportRows(y, recs, top), l, c) + BlankTotal(y, AllRowsOf(y, recs, top), l, c) == Sum(y, recs, 0, |recs|, c)
      && (BlankIsNothing(y, c) ==> LevelTotal(ReportRows(y, recs, top), l, c) == Sum(y, recs, 0, |recs|, c))
    ensures |recs| == 1 ==> ReportRows(y, recs, top) == []
  {
    hide LevelTotal, BlankTotal, BlankIsNothing, ShownRows, RowsOf, Start, Sum, Before, ClosedAt, Printed;
    BeforeOk(y, recs, |recs|);
    RowsWide(y, recs, Closed(y, recs, top), c);
    ShownWide(y, RowsOf(y, recs, Closed(y, recs, top)), c);
    ShownTotal(y, RowsOf(y, recs, Closed(y, recs, top)), l, c);
    NothingBlank(y, RowsOf(y, recs, Closed(y, recs, top)), l, c);
    if |recs| != 1 {
      BeforeTotal(y, recs, |recs|, l, c);
      LevelTotalClosed(y, recs, Before(y, recs, |recs|), |recs|, top, l, c);
      SumSplit(y, recs, 0, Start(y, recs, |recs|, l), |recs|, c);
    } else {
      OneRecord(y, recs, top);
    }
  }

  lemma RowsWide(y: Layout, recs: seq<Record>, ss: seq<Span>, c: nat)
    requires RecordsOk(y, recs) && SpansOk(recs, ss) && c < |y.total|
    ensures Wide(RowsOf(y, recs, ss), c)
  {
  }

  lemma OneRecord(y: Layout, recs: seq<Record>, top: nat)
    requires RecordsOk(y, recs) && |recs| == 1
    ensures ReportRows(y, recs, top) == []
  {
  }

  lemma {:induction false} TopStart(y: Layout, recs: seq<Record>, j: nat)
    requires RecordsOk(y, recs) && j <= |recs|
    ensures Start(y, recs, j, |y.breakCols| + 1) == 0
  {
    if j > 1 {
      TopStart(y, recs, j - 1);
    }
  }

  /** A row with the sum of all records at the level above all breaks is printed if and only if the
      grand total is closed, the row is neither dropped by its option nor without a cell, and the report does not
      have exactly one record. */
  lemma GrandTotalPrinted(y: Layout, recs: seq<Record>, grand: bool)
    requires RecordsOk(y, recs)
    ensures var n := |y.breakCols|;
            (grand && |recs| != 1 && n + 1 !in y.hidden && !y.blank(RowOf(y, recs, Span(n + 1, 0, |recs|))))
            <==> RowOf(y, recs, Span(n + 1, 0, |recs|)) in ReportRows(y, recs, if grand then n + 1 else n)
  {
    hide RowOf, Start, ShownRows, Before;
    var n := |y.breakCols|;
    var top := if grand then n + 1 else n;
    var all := Span(n + 1, 0, |recs|);
    BeforeOk(y, recs, |recs|);
    var rows := RowsOf(y, recs, Closed(y, recs, top));
    ShownMembers(y, rows, RowOf(y, recs, all));
    RowTotal(y, recs, all);
    if grand && |recs| != 1 {
      LastIsWhole(y, recs);
      assert rows[|rows| - 1] == RowOf(y, recs, all);
    } else {
      NoTopRow(y, recs, n);
    }
  }

  lemma LastIsWhole(y: Layout, recs: seq<Record>)
    requires RecordsOk(y, recs) && |recs| != 1
    ensures var ss := Closed(y, recs, |y.breakCols| + 1); ss != [] && ss[|ss| - 1] == Span(|y.breakCols| + 1, 0, |recs|)
  {
    hide Start, Before;
    TopStart(y, recs, |recs|);
  }

  /** Before the end, and without a grand total, there is no row above all levels. */
  lemma NoTopRow(y: Layout, recs: seq<Record>, top: nat)
    requires RecordsOk(y, recs) && (top <= |y.breakCols| || |recs| == 1)
    ensures SpansOk(recs, Closed(y, recs, top))
    ensures forall r :: r in RowsOf(y, recs, Closed(y, recs, top)) ==> r.level <= |y.breakCols|
  {
    hide RowOf, Start, Before;
    BeforeOk(y, recs, |recs|);
    var ss := Closed(y, recs, top);
    forall i | 0 <= i < |ss|
      ensures ss[i].level <= |y.breakCols| && RowOf(y, recs, ss[i]).level == ss[i].level
    {
      RowTotal(y, recs, ss[i]);
      if i < |Before(y, recs, |recs|)| {
        assert ss[i] in Before(y, recs, |recs|);
        InBefore(y, recs, |recs|, ss[i]);
      }
    }
  }
}
