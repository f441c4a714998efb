/** Parallel multivalued fields of a record: value n of one field belongs to value n of the others. Values
    are counted from 0. */
module ParallelFields {

  /** The values of a field, as its text tells them: one empty value is the same text as no value. */
  type Values = xs: seq<string> | xs != [""] witness []

  type Fields = map<nat, Values>

  function Text(xs: seq<string>): Values {
    if xs == [""] then [] else xs
  }

  /** Reading past the end gives an empty value, and an absent field is empty. */
  function Value(xs: seq<string>, n: nat): string {
    if n < |xs| then xs[n] else ""
  }

  function Field(fields: Fields, fn: nat): Values {
    if fn in fields then fields[fn] else []
  }

  /** Inserting past the end fills up with empty values. */
  function Insert(xs: Values, n: nat, v: string): Values {
    Text(if n <= |xs| then xs[..n] + [v] + xs[n..] else xs + seq(n - |xs|, _ => "") + [v])
  }

  /** Removing past the end does nothing. */
  function Remove(xs: Values, n: nat): Values {
    Text(if n < |xs| then xs[..n] + xs[n + 1..] else xs)
  }

  lemma InsertShifts(xs: Values, n: nat, v: string, i: nat)
    ensures Value(Insert(xs, n, v), i) == if i < n then Value(xs, i) else if i == n then v else Value(xs, i - 1)
  {
    var ys := if n <= |xs| then xs[..n] + [v] + xs[n..] else xs + seq(n - |xs|, _ => "") + [v];
    assert Value(Text(ys), i) == Value(ys, i);
    if n <= |xs| {
      assert i < |ys| ==> ys[i] == if i < n then xs[i] else if i == n then v else xs[i - 1];
    }
  }

  /** Value i of the new field is value rows[i] of the old one, and there are no more. */
  ghost predicate Follows(before: seq<string>, after: seq<string>, rows: seq<nat>) {
    forall i: nat :: Value(after, i) == if i < |rows| then Value(before, rows[i]) else ""
  }

  lemma FieldUpdated(fields: Fields, fn: nat, xs: Values)
    ensures Field(fields[fn := xs], fn) == xs
    ensures forall other :: other != fn ==> Field(fields[fn := xs], other) == Field(fields, other)
  {
  }
}
