/** Deleting from groups of parallel fields the values that a limit does not select. */
module LimitFilter {

  import opened ParallelFields

  /** The limit's dictionary item, the values selected, and the fields of its group. */
  datatype Limit = Limit(item: string, selected: seq<string>, fns: seq<nat>)

  type Calculate = (Fields, string) -> Values

  /** Value n of the limiting item is selected; an empty value is looked up as a pair of double quotes. */
  predicate Selected(limit: Limit, limitVals: Values, n: nat) {
    (if Value(limitVals, n) == "" then "\"\"" else Value(limitVals, n)) in limit.selected
  }

  /** The rows from..end that are selected, in order. */
  function Rows(limit: Limit, limitVals: Values, from: nat, end: int): seq<nat>
    requires from <= end
    decreases end - from
  {
    if from == end then []
    else (if Selected(limit, limitVals, from) then [from] else []) + Rows(limit, limitVals, from + 1, end)
  }

  /** The values of a field at the rows that are selected: a subsequence. */
  function Pick(xs: Values, limit: Limit, limitVals: Values, from: nat): seq<string>
    decreases |xs| - from
  {
    if from >= |xs| then []
    else (if Selected(limit, limitVals, from) then [xs[from]] else []) + Pick(xs, limit, limitVals, from + 1)
  }

  predicate Distinct(fns: seq<nat>) {
    forall i, j :: 0 <= i < j < |fns| ==> fns[i] != fns[j]
  }

  function Head(xs: Values, n: nat): seq<string> {
    if n <= |xs| then xs[..n] else xs
  }

  /** A field when the rows from n up have been dealt with. */
  function Partly(xs: Values, limit: Limit, limitVals: Values, n: nat): Values {
    Text(Head(xs, n) + Pick(xs, limit, limitVals, n))
  }

  /** Row n is dealt with after those above it. */
  lemma RemoveNext(xs: Values, limit: Limit, limitVals: Values, n: nat)
    ensures Partly(xs, limit, limitVals, n) ==
            if Selected(limit, limitVals, n) then Partly(xs, limit, limitVals, n + 1)
            else Remove(Partly(xs, limit, limitVals, n + 1), n)
  {
    hide Selected, Remove;
    var rest := Pick(xs, limit, limitVals, n + 1);
    if n < |xs| {
      TakeOut(xs, n, rest);
      assert Head(xs, n) + ([] + rest) == Head(xs, n) + rest;
    } else {
      NothingPicked(xs, limit, limitVals, n);
      NothingPicked(xs, limit, limitVals, n + 1);
      NothingRemoved(xs, n);
    }
  }

  lemma NothingRemoved(xs: Values, n: nat)
    requires |xs| <= n
    ensures Remove(xs, n) == xs
  {
  }

  lemma TakeOut(xs: Values, n: nat, rest: seq<string>)
    requires n < |xs|
    ensures Head(xs, n + 1) + rest == Head(xs, n) + ([xs[n]] + rest)
    ensures Remove(Text(Head(xs, n + 1) + rest), n) == Text(Head(xs, n) + rest)
  {
    var ys := Head(xs, n + 1) + rest;
    assert ys == xs[..n] + [xs[n]] + rest;
    assert ys[..n] + ys[n + 1..] == Head(xs, n) + rest;
    RemoveText(ys, n);
  }

  lemma RemoveText(ys: seq<string>, n: nat)
    requires n < |ys|
    ensures Remove(Text(ys), n) == Text(ys[..n] + ys[n + 1..])
  {
    if ys == [""] {
      assert ys[..n] + ys[n + 1..] == [];
    }
  }

  class Record {
    var fields: Fields

    constructor (f: Fields)
      ensures fields == f
    {
      fields := f;
    }

    /** The largest number of values in a field of the group. */
    method CountRows(fns: seq<nat>) returns (n: nat)
      ensures forall fn :: fn in fns ==> |Field(fields, fn)| <= n
      ensures n > 0 ==> exists fn :: fn in fns && |Field(fields, fn)| == n
    {
      n := 0;
      for k := 0 to |fns|
        invariant forall j :: 0 <= j < k ==> |Field(fields, fns[j])| <= n
        invariant n > 0 ==> exists fn :: fn in fns && |Field(fields, fn)| == n
      {
        if |Field(fields, fns[k])| > n {
          n := |Field(fields, fns[k])|;
        }
      }
    }

    /** Removes one value from every field of the group. */
    method RemoveRow(fns: seq<nat>, n: nat)
      requires Distinct(fns)
      modifies this
      ensures forall fn ::
        Field(fields, fn) == if fn in fns then Remove(Field(old(fields), fn), n) else Field(old(fields), fn)
    {
      hide Field, Remove;
      for k := 0 to |fns|
        invariant forall fn :: Field(fields, fn) ==
                    if fn in fns[..k] then Remove(Field(old(fields), fn), n) else Field(old(fields), fn)
      {
        assert forall fn :: fn in fns[..k + 1] <==> fn in fns[..k] || fn == fns[k];
        assert fns[k] !in fns[..k];
        FieldUpdated(fields, fns[k], Remove(Field(fields, fns[k]), n));
        fields := fields[fns[k] := Remove(Field(fields, fns[k]), n)];
      }
      assert fns[..|fns|] == fns;
    }

    /** One limit: each field of the group keeps its values at the selected rows, other fields are as before. */
    method Apply(limit: Limit, calculate: Calculate)
      requires Distinct(limit.fns)
      modifies this
      ensures Limited(old(fields), fields, limit, calculate)
    {
      hide Field, Remove, Partly, Pick, Selected;
      var nmvs := CountRows(limit.fns);
      var limitVals := calculate(fields, limit.item);
      var mvx := nmvs;
      forall fn | fn in limit.fns
        ensures Partly(Field(fields, fn), limit, limitVals, mvx) == Field(fields, fn)
      {
        NothingPicked(Field(fields, fn), limit, limitVals, mvx);
      }
      while mvx > 0
        invariant forall fn :: Field(fields, fn) ==
                    if fn in limit.fns then Partly(Field(old(fields), fn), limit, limitVals, mvx) else Field(old(fields), fn)
      {
        mvx := mvx - 1;
        forall fn | fn in limit.fns
          ensures Partly(Field(old(fields), fn), limit, limitVals, mvx) ==
                  if Selected(limit, limitVals, mvx) then Partly(Field(old(fields), fn), limit, limitVals, mvx + 1)
                  else Remove(Partly(Field(old(fields), fn), limit, limitVals, mvx + 1), mvx)
        {
          RemoveNext(Field(old(fields), fn), limit, limitVals, mvx);
        }
        if !Selected(limit, limitVals, mvx) {
          RemoveRow(limit.fns, mvx);
        }
      }
      forall fn | fn in limit.fns
        ensures Field(fields, fn) == Text(Pick(Field(old(fields), fn), limit, limitVals, 0))
      {
        NoHead(Field(old(fields), fn), limit, limitVals);
      }
    }

    /** The limits one after the other, each with its item calculated from what the last one left. */
    method ApplyAll(limits: seq<Limit>, calculate: Calculate) returns (ghost steps: seq<Fields>)
      requires forall k :: 0 <= k < |limits| ==> Distinct(limits[k].fns)
      modifies this
      ensures Chain(steps, limits, calculate) && steps[0] == old(fields) && steps[|limits|] == fields
    {
      hide Limited;
      steps := [fields];
      for k := 0 to |limits|
        invariant |steps| == k + 1 && steps[0] == old(fields) && steps[k] == fields
        invariant forall j :: 0 <= j < k ==> Limited(steps[j], steps[j + 1], limits[j], calculate)
      {
        assert Distinct(limits[k].fns);
        Apply(limits[k], calculate);
        steps := steps + [fields];
      }
    }
  }

  lemma NothingPicked(xs: Values, limit: Limit, limitVals: Values, n: nat)
    requires |xs| <= n
    ensures Partly(xs, limit, limitVals, n) == xs
  {
  }

  lemma NoHead(xs: Values, limit: Limit, limitVals: Values)
    ensures Partly(xs, limit, limitVals, 0) == Text(Pick(xs, limit, limitVals, 0))
  {
    assert Head(xs, 0) + Pick(xs, limit, limitVals, 0) == Pick(xs, limit, limitVals, 0);
  }

  /** What one limit does to a record. */
  ghost predicate Limited(before: Fields, after: Fields, limit: Limit, calculate: Calculate) {
    forall fn :: Field(after, fn) ==
      if fn in limit.fns then Text(Pick(Field(before, fn), limit, calculate(before, limit.item), 0)) else Field(before, fn)
  }

  // ----- rows stay together -----

  /** The rows are in the order they were in. */
  ghost predicate Increasing(rows: seq<nat>) {
    forall i, j :: 0 <= i < j < |rows| ==> rows[i] < rows[j]
  }

  /** The rows from..end are exactly those selected. */
  lemma {:induction false} RowsSelected(limit: Limit, limitVals: Values, from: nat, end: int)
    requires from <= end
    ensures var rows := Rows(limit, limitVals, from, end);
            && Increasing(rows)
            && (forall r :: r in rows <==>
                  from <= r < end && (if Value(limitVals, r) == "" then "\"\"" else Value(limitVals, r)) in limit.selected)
    decreases end - from
  {
    if from < end {
      RowsSelected(limit, limitVals, from + 1, end);
      var rest := Rows(limit, limitVals, from + 1, end);
      forall j | 0 <= j < |rest|
        ensures from < rest[j]
      {
        assert rest[j] in rest;
      }
    }
  }

  /** What is picked from a field are its values at the selected rows, however many values it has. */
  lemma {:induction false} PickFollows(xs: Values, limit: Limit, limitVals: Values, from: nat, end: int, i: nat)
    requires from <= end && |xs| <= end
    ensures var rows := Rows(limit, limitVals, from, end);
            Value(Pick(xs, limit, limitVals, from), i) == if i < |rows| then Value(xs, rows[i]) else ""
    decreases end - from
  {
    hide Selected;
    if from < end {
      var selected := Selected(limit, limitVals, from);
      var rest := Rows(limit, limitVals, from + 1, end);
      if !selected || i > 0 {
        PickFollows(xs, limit, limitVals, from + 1, end, if selected then i - 1 else i);
      }
      if from >= |xs| && i < |rest| {
        RowsSelected(limit, limitVals, from + 1, end);
        assert rest[i] in rest;
      }
      if from >= |xs| && selected && 0 < i <= |rest| {
        RowsSelected(limit, limitVals, from + 1, end);
        assert rest[i - 1] in rest;
      }
    }
  }

  /** Every field of the group has come to hold the same rows of before, in order, and no others. */
  ghost predicate SameRows(before: Fields, after: Fields, fns: seq<nat>, rows: seq<nat>) {
    Increasing(rows) && forall fn :: fn in fns ==> Follows(Field(before, fn), Field(after, fn), rows)
  }

  ghost predicate Bounded(fields: Fields, fns: seq<nat>, n: nat) {
    forall fn :: fn in fns ==> |Field(fields, fn)| <= n
  }

  predicate Within(fns: seq<nat>, others: seq<nat>) {
    forall fn :: fn in fns ==> fn in others
  }

  /** One limit keeps the rows of its group together: in every field exactly the selected rows remain. */
  lemma LimitKeepsRows(before: Fields, after: Fields, limit: Limit, calculate: Calculate, fns: seq<nat>, n: nat)
    requires Limited(before, after, limit, calculate) && Within(fns, limit.fns) && Bounded(before, fns, n)
    ensures SameRows(before, after, fns, Rows(limit, calculate(before, limit.item), 0, n))
    ensures Bounded(after, fns, |Rows(limit, calculate(before, limit.item), 0, n)|)
  {
    hide Field, Rows, Pick, Selected;
    var limitVals := calculate(before, limit.item);
    RowsSelected(limit, limitVals, 0, n);
    forall fn | fn in fns
      ensures Follows(Field(before, fn), Field(after, fn), Rows(limit, limitVals, 0, n))
      ensures |Field(after, fn)| <= |Rows(limit, limitVals, 0, n)|
    {
      var xs := Field(before, fn);
      forall i: nat
        ensures Value(Field(after, fn), i) ==
                if i < |Rows(limit, limitVals, 0, n)| then Value(xs, Rows(limit, limitVals, 0, n)[i]) else ""
      {
        PickFollows(xs, limit, limitVals, 0, n, i);
        TextValue(Pick(xs, limit, limitVals, 0), i);
      }
      PickShort(xs, limit, limitVals, 0, n);
    }
  }

  lemma TextValue(ys: seq<string>, i: nat)
    ensures Value(Text(ys), i) == Value(ys, i) && |Text(ys)| <= |ys|
  {
  }

  lemma {:induction false} PickShort(xs: Values, limit: Limit, limitVals: Values, from: nat, end: int)
    requires from <= end && |xs| <= end
    ensures |Text(Pick(xs, limit, limitVals, from))| <= |Pick(xs, limit, limitVals, from)|
    ensures |Pick(xs, limit, limitVals, from)| <= |Rows(limit, limitVals, from, end)|
    decreases end - from
  {
    if from < end {
      PickShort(xs, limit, limitVals, from + 1, end);
    }
  }

  /** The records after each of several limits. */
  ghost predicate Chain(steps: seq<Fields>, limits: seq<Limit>, calculate: Calculate) {
    && |steps| == |limits| + 1
    && forall k :: 0 <= k < |limits| ==> Limited(steps[k], steps[k + 1], limits[k], calculate)
  }

  function Compose(rows: seq<nat>, later: seq<nat>): seq<nat>
    requires forall i :: 0 <= i < |later| ==> later[i] < |rows|
  {
    seq(|later|, i requires 0 <= i < |later| => rows[later[i]])
  }

  lemma FollowsTwice(a: Fields, b: Fields, c: Fields, fns: seq<nat>, rows: seq<nat>, later: seq<nat>)
    requires SameRows(a, b, fns, rows) && SameRows(b, c, fns, later)
    requires forall i :: 0 <= i < |later| ==> later[i] < |rows|
    ensures SameRows(a, c, fns, Compose(rows, later))
  {
    hide Field, Follows;
    forall fn | fn in fns
      ensures Follows(Field(a, fn), Field(c, fn), Compose(rows, later))
    {
      FieldTwice(Field(a, fn), Field(b, fn), Field(c, fn), rows, later);
    }
  }

  lemma FieldTwice(a: Values, b: Values, c: Values, rows: seq<nat>, later: seq<nat>)
    requires Follows(a, b, rows) && Follows(b, c, later)
    requires forall i :: 0 <= i < |later| ==> later[i] < |rows|
    ensures Follows(a, c, Compose(rows, later))
  {
    hide Value;
    forall i: nat
      ensures Value(c, i) == if i < |later| then Value(a, rows[later[i]]) else ""
    {
      if i < |later| {
        assert Value(b, later[i]) == Value(a, rows[later[i]]);
      }
    }
  }

  /** Two groups share no field. */
  predicate Apart(fns: seq<nat>, others: seq<nat>) {
    forall fn :: fn in fns ==> fn !in others
  }

  /** A limit on another group leaves this one as it is. */
  lemma OthersUntouched(before: Fields, after: Fields, limit: Limit, calculate: Calculate, fns: seq<nat>, n: nat)
    requires Limited(before, after, limit, calculate) && Apart(fns, limit.fns) && Bounded(before, fns, n)
    ensures Bounded(after, fns, n)
    ensures forall fn :: fn in fns ==> Field(after, fn) == Field(before, fn)
  {
    hide Field, Text, Pick;
  }

  lemma SameFieldsSameRows(a: Fields, b: Fields, c: Fields, fns: seq<nat>, rows: seq<nat>)
    requires SameRows(a, b, fns, rows) && forall fn :: fn in fns ==> Field(c, fn) == Field(b, fn)
    ensures SameRows(a, c, fns, rows)
  {
  }

  /** After any number of limits, each on the group that these fields are in or on another one, the fields still
      hold the same rows, in order. */
  lemma {:induction false} LimitsKeepRows(
    steps: seq<Fields>, limits: seq<Limit>, calculate: Calculate, fns: seq<nat>, n: nat)
    returns (rows: seq<nat>)
    requires Chain(steps, limits, calculate) && Bounded(steps[0], fns, n)
    requires forall k :: 0 <= k < |limits| ==> Within(fns, limits[k].fns) || Apart(fns, limits[k].fns)
    ensures SameRows(steps[0], steps[|limits|], fns, rows) && Bounded(steps[|limits|], fns, |rows|)
    ensures forall i :: 0 <= i < |rows| ==> rows[i] < n
    decreases |limits|
  {
    hide SameRows, Limited, Bounded, Rows, Apart, Within;
    if limits == [] {
      rows := seq(n, i => i);
      AllRows(steps[0], fns, n);
    } else {
      var m := |limits| - 1;
      var before := LimitsKeepRows(steps[..m + 1], limits[..m], calculate, fns, n);
      if !Within(fns, limits[m].fns) {
        OthersUntouched(steps[m], steps[m + 1], limits[m], calculate, fns, |before|);
        SameFieldsSameRows(steps[0], steps[m], steps[m + 1], fns, before);
        return before;
      }
      var later := Rows(limits[m], calculate(steps[m], limits[m].item), 0, |before|);
      LimitKeepsRows(steps[m], steps[m + 1], limits[m], calculate, fns, |before|);
      RowsSelected(limits[m], calculate(steps[m], limits[m].item), 0, |before|);
      assert forall i :: 0 <= i < |later| ==> later[i] in later;
      FollowsTwice(steps[0], steps[m], steps[m + 1], fns, before, later);
      rows := Compose(before, later);
    }
  }

  lemma AllRows(fields: Fields, fns: seq<nat>, n: nat)
    requires Bounded(fields, fns, n)
    ensures SameRows(fields, fields, fns, seq(n, i => i))
    ensures Bounded(fields, fns, |seq(n, i => i)|)
  {
  }
}
