/** What a report shows, in terms of the texts of its records alone. */
module ReportMeaning {
  import opened Common
  import opened MultiValue
  import opened Unrolling
  import opened ControlBreaks
  import opened Report

  // ----- texts with marks -----

  predicate Mark(c: char) {
    0x1A <= c as int <= 0x1F
  }

  predicate Unmarked(s: string) {
    forall i :: 0 <= i < |s| ==> !Mark(s[i])
  }

  /** Leaves with a mark between any two. */
  function Marked(leaves: seq<string>, marks: string): string
    requires |leaves| == |marks| + 1
  {
    if marks == "" then leaves[0] else leaves[0] + [marks[0]] + Marked(leaves[1..], marks[1..])
  }

  ghost predicate Parts(text: string, leaves: seq<string>, marks: string) {
    && |leaves| == |marks| + 1 && (forall i :: 0 <= i < |leaves| ==> Unmarked(leaves[i]))
    && (forall i :: 0 <= i < |marks| ==> Mark(marks[i])) && text == Marked(leaves, marks)
  }

  lemma {:induction false} LeafEndIs(s: string, pos: nat, e: nat)
    requires pos <= e <= |s| && (forall i :: pos <= i < e ==> !Mark(s[i])) && (e < |s| ==> Mark(s[e]))
    ensures LeafEnd(s, pos) == e
    decreases e - pos
  {
    if pos < e {
      LeafEndIs(s, pos + 1, e);
    }
  }

  /** The marks from the record mark down to the subtext mark, by their numbers. */
  lemma MarkNumbers()
    ensures MarkNo(0x1F as char) == 1 && MarkNo(0x1E as char) == 2 && MarkNo(0x1D as char) == 3
    ensures MarkNo(0x1C as char) == 4 && MarkNo(0x1B as char) == 5 && MarkNo(0x1A as char) == 6
    ensures forall c :: MarkNo(c) == 0 <==> !Mark(c)
  {
  }

  lemma LastLeaf(text: string)
    requires Unmarked(text)
    ensures Leaves(text) == [text]
  {
    LeafEndIs(text, 0, |text|);
  }

  lemma FirstLeaf(first: string, mark: char, rest: string)
    requires Unmarked(first) && Mark(mark)
    ensures Leaves(first + [mark] + rest) == [first] + Leaves(rest)
  {
    var text := first + [mark] + rest;
    assert forall i :: 0 <= i < |first| ==> text[i] == first[i];
    LeafEndIs(text, 0, |first|);
    hide LeafEnd;
    assert text[..|first|] == first && text[|first| + 1..] == rest;
  }

  /** The leaves of a text are what stands between its marks. */
  lemma {:induction false} LeavesAre(text: string, leaves: seq<string>, marks: string)
    requires Parts(text, leaves, marks)
    ensures Leaves(text) == leaves
    decreases |marks|
  {
    var first := leaves[0];
    if marks == "" {
      LastLeaf(text);
    } else {
      var rest := Marked(leaves[1..], marks[1..]);
      assert Parts(rest, leaves[1..], marks[1..]) && Unmarked(first) && Mark(marks[0]);
      assert text == first + [marks[0]] + rest;
      hide *;
      FirstLeaf(first, marks[0], rest);
      LeavesAre(rest, leaves[1..], marks[1..]);
      assert leaves == [first] + leaves[1..];
    }
  }

  /** Every text is made of such parts. */
  lemma {:induction false} PartsOf(text: string) returns (leaves: seq<string>, marks: string)
    ensures Parts(text, leaves, marks)
    decreases |text|
  {
    if i: nat :| i < |text| && Mark(text[i]) {
      var k := FirstMark(text);
      var ls, ms := PartsOf(text[k + 1..]);
      leaves, marks := [text[..k]] + ls, [text[k]] + ms;
      assert leaves[1..] == ls && marks[1..] == ms;
      assert text == text[..k] + [text[k]] + text[k + 1..];
    } else {
      leaves, marks := [text], "";
    }
  }

  function FirstMark(s: string): (k: nat)
    requires exists i :: 0 <= i < |s| && Mark(s[i])
    ensures k < |s|
    ensures Mark(s[k])
    ensures forall i :: 0 <= i < k ==> !Mark(s[i])
  {
    if Mark(s[0]) then 0
    else
      MarkBehind(s);
      FirstMark(s[1..]) + 1
  }

  lemma MarkBehind(s: string)
    requires exists i :: 0 <= i < |s| && Mark(s[i])
    ensures Mark(s[0]) || exists i :: 0 <= i < |s[1..]| && Mark(s[1..][i])
  {
    var i :| 0 <= i < |s| && Mark(s[i]);
    if i > 0 {
      assert s[1..][i - 1] == s[i];
    }
  }

  // ----- totals -----

  /** What a leaf is worth: its number, and nothing if it is empty or no number. */
  ghost predicate Worth(num: string -> Option<int>, leaf: string, value: int) {
    if leaf == "" || num(leaf).None? then value == 0 else num(leaf) == Some(value)
  }

  function Added(values: seq<int>): int {
    if values == [] then 0 else values[0] + Added(values[1..])
  }

  /** The values of one column: for each record its leaves, the marks between them, and what the leaves are worth. */
  datatype Entry = Entry(leaves: seq<string>, marks: string, values: seq<int>)

  ghost predicate EntryOk(num: string -> Option<int>, text: string, e: Entry) {
    && Parts(text, e.leaves, e.marks) && |e.values| == |e.leaves|
    && forall i :: 0 <= i < |e.leaves| ==> Worth(num, e.leaves[i], e.values[i])
  }

  ghost predicate ColumnIs(y: Layout, recs: seq<Record>, c: nat, es: seq<Entry>)
    requires RecordsOk(y, recs) && c < |y.total|
  {
    && |es| == |recs| && (forall j :: 0 <= j < |es| ==> es[j].values != [])
    && forall j :: 0 <= j < |recs| ==> EntryOk(y.num, recs[j][c], es[j])
  }

  /** The values of all leaves, or without detail of the first ones, from one record up to another. */
  function Worths(detail: bool, es: seq<Entry>, from: nat, upto: nat): seq<int>
    requires from <= upto <= |es| && forall j :: 0 <= j < |es| ==> es[j].values != []
    decreases upto
  {
    if from == upto then []
    else Worths(detail, es, from, upto - 1) + if detail then es[upto - 1].values else [es[upto - 1].values[0]]
  }

  lemma {:induction false} AddedSplit(a: seq<int>, b: seq<int>)
    ensures Added(a + b) == Added(a) + Added(b)
    decreases |a|
  {
    if a == [] {
      assert a + b == b;
    } else {
      AddedSplit(a[1..], b);
      assert (a + b)[1..] == a[1..] + b;
    }
  }

  lemma AmountIs(y: Layout, leaf: string, value: int)
    requires Worth(y.num, leaf, value)
    ensures y.Amount(leaf) == value
  {
  }

  lemma {:induction false} LeafSumIs(y: Layout, leaves: seq<string>, values: seq<int>)
    requires |leaves| == |values| && forall i :: 0 <= i < |leaves| ==> Worth(y.num, leaves[i], values[i])
    ensures y.LeafSum(leaves) == Added(values)
    decreases |leaves|
  {
    if leaves != [] {
      AmountIs(y, leaves[0], values[0]);
      LeafSumIs(y, leaves[1..], values[1..]);
    }
  }

  lemma AddsIs(y: Layout, r: Record, c: nat, e: Entry)
    requires y.Fits(r) && c < |r| && y.total[c] && EntryOk(y.num, r[c], e)
    ensures y.Adds(r, c) == Added(if y.detail then e.values else [e.values[0]])
  {
    LeavesAre(r[c], e.leaves, e.marks);
    LeafSumIs(y, e.leaves, e.values);
    AmountIs(y, e.leaves[0], e.values[0]);
  }

  lemma {:induction false} SumIs(y: Layout, recs: seq<Record>, from: nat, upto: nat, c: nat, es: seq<Entry>)
    requires RecordsOk(y, recs) && c < |y.total| && y.total[c] && from <= upto <= |recs| && ColumnIs(y, recs, c, es)
    ensures Sum(y, recs, from, upto, c) == Added(Worths(y.detail, es, from, upto))
    decreases upto
  {
    hide Added, y.Adds, EntryOk;
    if from < upto {
      SumIs(y, recs, from, upto - 1, c, es);
      AddsIs(y, recs[upto - 1], c, es[upto - 1]);
      AddedSplit(Worths(y.detail, es, from, upto - 1),
                 if y.detail then es[upto - 1].values else [es[upto - 1].values[0]]);
    } else {
      assert Added([]) == 0 by { NothingAdded(); }
    }
  }

  lemma NothingAdded()
    ensures Added([]) == 0
  {
  }

  /** Every column can be described so. */
  lemma {:induction false} ColumnHas(y: Layout, recs: seq<Record>, c: nat, j: nat) returns (es: seq<Entry>)
    requires RecordsOk(y, recs) && c < |y.total| && j <= |recs|
    ensures |es| == j && (forall i :: 0 <= i < j ==> es[i].values != [] && EntryOk(y.num, recs[i][c], es[i]))
    ensures j == |recs| ==> ColumnIs(y, recs, c, es)
  {
    hide EntryOk;
    if j == 0 {
      es := [];
    } else {
      var front := ColumnHas(y, recs, c, j - 1);
      var e := EntryFor(y.num, recs[j - 1][c]);
      es := front + [e];
    }
  }

  lemma EntryFor(num: string -> Option<int>, text: string) returns (e: Entry)
    ensures EntryOk(num, text, e) && e.values != []
  {
    var leaves, marks := PartsOf(text);
    e := Entry(leaves, marks, seq(|leaves|, i requires 0 <= i < |leaves| =>
      if leaves[i] == "" || num(leaves[i]).None? then 0 else num(leaves[i]).value));
  }

  /** Every printed row has the sum of the numbers in the leaves of its records, in each totalled column. */
  lemma TotalsAreSums(y: Layout, recs: seq<Record>, top: nat, c: nat, es: seq<Entry>, k: nat)
    requires RecordsOk(y, recs) && c < |y.total| && ColumnIs(y, recs, c, es) && k < |ReportRows(y, recs, top)|
    ensures |Printed(y, recs, top)| == |ReportRows(y, recs, top)|
    ensures var span, row := Printed(y, recs, top)[k], ReportRows(y, recs, top)[k];
            && span.from <= span.upto <= |recs| && row.level == span.level && c < |row.totals|
            && row.totals[c] == if y.total[c] then Added(Worths(y.detail, es, span.from, span.upto)) else 0
  {
    hide ReportRows, Printed, Added, Worths, EntryOk;
    ReportRowsArePrinted(y, recs, top);
    var span := Printed(y, recs, top)[k];
    if y.total[c] {
      SumIs(y, recs, span.from, span.upto, c, es);
    } else {
      UntotalledSum(y, recs, span.from, span.upto, c);
    }
  }

  /** The grand total is the sum of all of them. */
  lemma GrandTotalIsSum(y: Layout, recs: seq<Record>, c: nat, es: seq<Entry>) returns (row: TotalRow)
    requires RecordsOk(y, recs) && c < |y.total| && y.total[c] && ColumnIs(y, recs, c, es) && |recs| != 1
    ensures row.level == |y.breakCols| + 1 && |row.totals| == |y.total|
    ensures row.totals[c] == Added(Worths(y.detail, es, 0, |recs|))
    ensures row in ReportRows(y, recs, |y.breakCols| + 1) <==> row.level !in y.hidden && !y.blank(row)
  {
    hide ReportRows, Added, Worths, EntryOk;
    row := RowOf(y, recs, Span(|y.breakCols| + 1, 0, |recs|));
    SumIs(y, recs, 0, |recs|, c, es);
    GrandTotalPrinted(y, recs, true);
  }

  /** Two records with the single numbers a and b have the grand total a + b. */
  lemma TwoNumbers(y: Layout, r: Record, s: Record, c: nat, a: int, b: int) returns (row: TotalRow)
    requires y.Ok() && y.Fits(r) && y.Fits(s) && c < |y.total| && y.total[c] && Unmarked(r[c]) && Unmarked(s[c])
    requires r[c] != "" && y.num(r[c]) == Some(a) && s[c] != "" && y.num(s[c]) == Some(b)
    requires y.hidden == {} && forall t: TotalRow :: !y.blank(t)
    ensures RecordsOk(y, [r, s]) && row in ReportRows(y, [r, s], |y.breakCols| + 1) && row.level == |y.breakCols| + 1
    ensures |row.totals| == |y.total| && row.totals[c] == a + b
  {
    hide ReportRows;
    assert RecordsOk(y, [r, s]);
    var es := [Entry([r[c]], "", [a]), Entry([s[c]], "", [b])];
    row := GrandTotalIsSum(y, [r, s], c, es);
    assert Worths(y.detail, es, 0, 0) == [] && Worths(y.detail, es, 0, 1) == [a];
    assert Worths(y.detail, es, 0, 2) == [a, b];
    assert [a, b][1..] == [b] && [b][1..] == [];
    assert Added([]) == 0 && Added([b]) == b && Added([a, b]) == a + b;
  }

  // ----- the other cells of a row of totals -----

  /** In the row of a run, the level's own column has the value that all its records have there, columns of lower levels
      say that it is a total, and those of higher levels have the value of the run's records; nothing else is printed. */
  lemma RowCells(y: Layout, recs: seq<Record>, i: nat, j: nat, l: nat, k: nat, c: nat)
    requires RecordsOk(y, recs) && 1 <= l <= |y.breakCols| && MaximalRun(y, recs, i, j, l) && i <= k < j && c < |y.total|
    ensures var row := RowOf(y, recs, Span(l, i, j));
            && row.key == (if y.total[y.breakCols[l - 1]] || (y.detail && true !in y.total) then ""
                           else recs[k][y.breakCols[l - 1]])
            && |row.others| == |y.total|
            && (y.total[c] || c == y.breakCols[l - 1] || c !in y.breakCols ==> row.others[c] == "")
            && (forall m :: 0 <= m < l - 1 && c == y.breakCols[m] && !y.total[c] ==> row.others[c] == "Total")
            && (forall m :: l <= m < |y.breakCols| && c == y.breakCols[m] && !y.total[c] ==> row.others[c] == recs[k][c])
  {
    hide y.LevelOf;
    forall m | 0 <= m < |y.breakCols|
      ensures y.LevelOf(y.breakCols[m]) == m + 1
    {
      LevelOfBreak(y, m + 1);
    }
    forall m | l - 1 <= m < |y.breakCols|
      ensures recs[j - 1][y.breakCols[m]] == recs[k][y.breakCols[m]]
    {
      SameInRun(y, recs, i, j, l, k, m + 1);
    }
    if y.LevelOf(c) == 0 {
      assert c !in y.breakCols;
    }
  }

  lemma {:induction false} SameInRun(y: Layout, recs: seq<Record>, i: nat, j: nat, l: nat, k: nat, m: nat)
    requires RecordsOk(y, recs) && 1 <= l <= m <= |y.breakCols| && i <= k < j <= |recs|
    requires forall n :: i < n < j ==> AgreeAt(y, recs, n, l)
    ensures recs[j - 1][y.breakCols[m - 1]] == recs[k][y.breakCols[m - 1]]
    decreases j - k
  {
    if k < j - 1 {
      SameInRun(y, recs, i, j, l, k + 1, m);
      assert AgreeAt(y, recs, k + 1, l);
      assert y.Key(recs[k], m) == y.Key(recs[k + 1], m);
    }
  }

  // ----- the detail lines -----

  /** The texts that are not empty. */
  function NonEmpty(texts: seq<string>): seq<string> {
    if texts == [] then [] else (if texts[0] != "" then [texts[0]] else []) + NonEmpty(texts[1..])
  }

  function LineTexts(lines: seq<seq<string>>, c: nat): seq<string>
    requires forall r :: 0 <= r < |lines| ==> c < |lines[r]|
  {
    seq(|lines|, r requires 0 <= r < |lines| => lines[r][c])
  }

  /** All leaves of a column, record by record. */
  function LeavesOfAll(es: seq<Entry>, j: nat): seq<string>
    requires j <= |es|
  {
    if j == 0 then [] else LeavesOfAll(es, j - 1) + es[j - 1].leaves
  }

  ghost predicate WideLines(lines: seq<seq<string>>, c: nat) {
    forall r :: 0 <= r < |lines| ==> c < |lines[r]|
  }

  lemma {:induction false} NonEmptySplit(a: seq<string>, b: seq<string>)
    ensures NonEmpty(a + b) == NonEmpty(a) + NonEmpty(b)
    decreases |a|
  {
    if a == [] {
      assert a + b == b;
    } else {
      NonEmptySplit(a[1..], b);
      assert (a + b)[1..] == a[1..] + b && (a + b)[0] == a[0];
      var first := if a[0] != "" then [a[0]] else [];
      assert NonEmpty(a) == first + NonEmpty(a[1..]) && NonEmpty(a + b) == first + NonEmpty(a[1..] + b);
      hide *;
      Associate(first, NonEmpty(a[1..]), NonEmpty(b));
    }
  }

  /** The lines of a record show the leaves; blanks are empty. */
  lemma {:induction false} RenderedTexts(rows: seq<seq<Cell>>, c: nat)
    requires forall r :: 0 <= r < |rows| ==> c < |rows[r]|
    ensures WideLines(Rendered(rows), c) && NonEmpty(LineTexts(Rendered(rows), c)) == NonEmpty(Column(rows, c))
    decreases |rows|
  {
    if rows != [] {
      RenderedTexts(rows[1..], c);
      var row := rows[0];
      assert LineTexts(Rendered(rows), c)[1..] == LineTexts(Rendered(rows[1..]), c);
      assert LineTexts(Rendered(rows), c)[0] == if row[c].Shown? then row[c].text else "";
      NonEmptySplit(if row[c].Shown? then [row[c].text] else [], Column(rows[1..], c));
    }
  }

  lemma LineTextsSplit(a: seq<seq<string>>, b: seq<seq<string>>, c: nat)
    requires WideLines(a, c) && WideLines(b, c)
    ensures WideLines(a + b, c) && LineTexts(a + b, c) == LineTexts(a, c) + LineTexts(b, c)
  {
  }

  lemma RecordShows(y: Layout, rec: Record, c: nat, e: Entry)
    requires y.Fits(rec) && c < |rec| && EntryOk(y.num, rec[c], e)
    ensures WideLines(Rendered(RecordRows(rec)), c)
    ensures NonEmpty(LineTexts(Rendered(RecordRows(rec)), c)) == NonEmpty(e.leaves)
  {
    LeavesAre(rec[c], e.leaves, e.marks);
    EveryLeafOnce(rec, c);
    hide Rendered, NonEmpty, LineTexts, Leaves, Column, Parts, Worth;
    RenderedTexts(RecordRows(rec), c);
  }

  /** The detail lines show, column by column, every text between two marks of every record that is not empty, in
      order and once; without detail there are none. */
  lemma {:induction false} DetailsShowLeaves(y: Layout, recs: seq<Record>, j: nat, c: nat, es: seq<Entry>)
    requires RecordsOk(y, recs) && j <= |recs| && c < |y.total| && ColumnIs(y, recs, c, es)
    ensures WideLines(DetailRows(y, recs, j), c)
    ensures y.detail ==> NonEmpty(LineTexts(DetailRows(y, recs, j), c)) == NonEmpty(LeavesOfAll(es, j))
    ensures !y.detail ==> DetailRows(y, recs, j) == []
  {
    if j > 0 {
      hide Rendered, RecordRows, NonEmpty, EntryOk, WideLines, LineTexts;
      DetailsShowLeaves(y, recs, j - 1, c, es);
      var rec, e := recs[j - 1], es[j - 1];
      if y.detail {
        RecordShows(y, rec, c, e);
        LineTextsSplit(DetailRows(y, recs, j - 1), Rendered(RecordRows(rec)), c);
        NonEmptySplit(LineTexts(DetailRows(y, recs, j - 1), c), LineTexts(Rendered(RecordRows(rec)), c));
        NonEmptySplit(LeavesOfAll(es, j - 1), e.leaves);
      }
    }
  }
}
